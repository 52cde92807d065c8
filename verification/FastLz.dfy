/** FastLZ, levels 1 and 2: what is compressed decompresses, the output stays within the
    bound that the harness allocates, and what is sent is a function of the input. */
module FastLz {
  import opened Bits
  import opened Lengths
  import opened LzfFormat
  import opened Repeats
  import opened Tokens

  const MAX_LEN: nat := 264
  const HASH_SIZE: nat := 8192

  /** Distances that are looked at: below 8192 at level 1, far ones too at level 2. */
  function MaxDistance(level: nat): nat {
    if level == 1 then 8192 else 65535 + FAR - 1
  }

  /** fastlz_m. */
  function Bound(n: nat): nat {
    if n + n / 20 + 1 < 66 then 66 else n + n / 20 + 1
  }

  /** The first byte without the mark of the level. */
  function Unmarked(s: seq<byte>): seq<byte>
    requires s != []
  {
    [s[0] % 32] + s[1..]
  }

  /** What a compressed block stands for; the level is in its first byte. */
  predicate Packed(s: seq<byte>, data: seq<byte>) {
    s != [] && s[0] / 32 + 1 <= 2 && Decode(s[0] / 32 + 1, Unmarked(s), []) == Plain(data)
  }

  // ---- References

  /** A match of length + 2 bytes, off + 1 bytes back; at level 2 far ones are marked by
      the pair 31, 255, which is no near distance. */
  function RefBytes(level: nat, off: nat, length: nat): (s: seq<byte>)
    requires RefFits(level, off, length)
    ensures 2 <= |s| <= 5 + length / 255 + 1
  {
    var head: nat := (if length < 7 then length else 7) * 32;
    if level == 1 || off < FAR then [head + off / 256] + Ext(level, length) + [off % 256]
    else [head + 31] + Ext(level, length) + [255, (off - FAR) / 256, (off - FAR) % 256]
  }

  /** What does not fit into the three bits for the length. */
  function Ext(level: nat, length: nat): (b: seq<byte>)
    requires level == 1 ==> length <= MAX_LEN - 2
    ensures |b| == if length < 7 then 0 else if level == 1 then 1 else (length - 7) / 255 + 1
  {
    if length < 7 then [] else if level == 1 then [length - 7] else Tail(length - 7)
  }

  predicate RefFits(level: nat, off: nat, length: nat) {
    && length >= 1 && off + 1 < MaxDistance(level)
    && (level == 1 ==> length <= MAX_LEN - 2) && (level == 1 || level == 2)
  }

  lemma {:induction false} SummedTail(n: nat, more: seq<byte>)
    ensures Summed(Tail(n) + more) == Sum(n, |Tail(n)|)
  {
    if n >= 255 {
      SummedTail(n - 255, more);
      assert (Tail(n) + more)[1..] == Tail(n - 255) + more;
    }
  }

  lemma ExtRead(level: nat, length: nat, c: byte, more: seq<byte>)
    requires length >= 1 && (level == 1 ==> length <= MAX_LEN - 2) && (level == 1 || level == 2)
    requires c / 32 == if length < 7 then length else 7
    ensures var ext := Ext(level, length);
      && LengthBytes(level, [c] + ext + more) == Sum(if length < 7 then 0 else length - 7, |ext|)
      && ([c] + ext + more)[1 + |ext|..] == more
  {
    hide Summed, Tail;
    var ext := Ext(level, length);
    var s := [c] + ext + more;
    assert s[0] == c && s[1..] == ext + more;
    if length >= 7 && level == 2 {
      SummedTail(length - 7, more);
    }
  }

  /** The decoder reads back what the encoder wrote. */
  lemma RefParts(level: nat, off: nat, length: nat)
    requires RefFits(level, off, length)
    ensures var t := RefBytes(level, off, length);
      t[0] >= 32 && ReadRef(level, t) == Ref(length + 2, off + 1, |t|)
  {
    hide Ext, ReadRef;
    var n := if length < 7 then length else 7;
    if level == 1 || off < FAR {
      HeadByte(n, off / 256, n * 32 + off / 256);
      NearRef(level, length, n * 32 + off / 256, off % 256);
    } else {
      HeadByte(n, 31, n * 32 + 31);
      FarRef(level, length, n * 32 + 31, (off - FAR) / 256, (off - FAR) % 256);
    }
  }

  lemma NearRef(level: nat, length: nat, c: byte, code: byte)
    requires length >= 1 && (level == 1 ==> length <= MAX_LEN - 2) && (level == 1 || level == 2)
    requires c / 32 == (if length < 7 then length else 7) && !(level == 2 && code == 255 && c % 32 == 31)
    ensures var t := [c] + Ext(level, length) + [code];
      t[0] == c && ReadRef(level, t) == Ref(length + 2, c as nat % 32 * 256 + code as nat + 1, |t|)
  {
    hide Ext, LengthBytes;
    ExtRead(level, length, c, [code]);
    NearParts([c] + Ext(level, length) + [code], |Ext(level, length)|, [code]);
  }

  lemma FarRef(level: nat, length: nat, c: byte, hi: byte, lo: byte)
    requires length >= 1 && level == 2 && c / 32 == (if length < 7 then length else 7) && c % 32 == 31
    ensures var t := [c] + Ext(level, length) + [255, hi, lo];
      t[0] == c && ReadRef(level, t) == Ref(length + 2, hi as nat * 256 + lo as nat + FAR + 1, |t|)
  {
    hide Ext, LengthBytes;
    ExtRead(level, length, c, [255, hi, lo]);
    FarParts([c] + Ext(level, length) + [255, hi, lo], |Ext(level, length)|, [255, hi, lo]);
  }

  lemma HeadByte(n: nat, high: nat, c: nat)
    requires 1 <= n <= 7 && high < 32 && c == n * 32 + high
    ensures 32 <= c < 256 && c / 32 == n && c % 32 == high
  {
  }

  lemma NearParts(t: seq<byte>, k: nat, more: seq<byte>)
    requires |t| == k + 2 && |more| == 1 && t[1 + k..] == more
    ensures t[1 + k] == more[0]
  {
    assert t[1 + k..][0] == t[1 + k];
  }

  lemma FarParts(t: seq<byte>, k: nat, more: seq<byte>)
    requires |t| == k + 4 && |more| == 3 && t[1 + k..] == more
    ensures t[1 + k] == more[0] && t[2 + k] == more[1] && t[3 + k] == more[2]
  {
    assert t[1 + k..][0] == t[1 + k] && t[1 + k..][1] == t[2 + k] && t[1 + k..][2] == t[3 + k];
  }

  /** 33 bytes for 32 of input pay for a reference, and for the run in front of it. */
  lemma RefPays(level: nat, off: nat, length: nat)
    requires RefFits(level, off, length) && (level == 2 && off >= FAR ==> length >= 3)
    ensures 32 * |RefBytes(level, off, length)| + 31 <= 33 * (length + 2)
  {
    hide Ext;
  }

  // ---- What is sent, as a function of the input

  /** Exclusive or. */
  function Xor(x: nat, y: nat): nat {
    if x == 0 && y == 0 then 0 else (x + y) % 2 + 2 * Xor(x / 2, y / 2)
  }

  /** HASH_FUNCTION. */
  function HashOf(a: byte, b: byte, c: byte): (h: nat)
    ensures h < HASH_SIZE
  {
    var v, w := a as nat + 256 * b as nat, b as nat + 256 * c as nat;
    Xor(v, Xor(w, v / 8)) % HASH_SIZE
  }

  /** The slot of the three bytes at ip. Behind the last match the third may lie past the end;
      the table is not looked at again then. */
  function SlotAt(input: seq<byte>, ip: nat): (h: nat)
    ensures h < HASH_SIZE
  {
    if ip + 2 < |input| then HashOf(input[ip], input[ip + 1], input[ip + 2]) else 0
  }

  /** At level 2, the byte before ip goes on for three more. */
  predicate RunHere(level: nat, input: seq<byte>, ip: nat)
    requires 1 <= ip && ip + 2 < |input|
  {
    level == 2 && input[ip] == input[ip - 1] && input[ip - 1..ip + 1] == input[ip + 1..ip + 3]
  }

  /** How many bytes must agree at distance d. */
  function Known(level: nat, d: nat): nat {
    if level == 2 && d >= FAR then 5 else 3
  }

  predicate Repeated(level: nat, input: seq<byte>, ip: nat, ref: nat) {
    ref < ip && ip - ref < MaxDistance(level) && Agrees(input, ip, ip - ref, Known(level, ip - ref))
  }

  /** How long a match is made: all that agrees, up to three bytes before the end of the input, or the first twelve. */
  function MatchSize(input: seq<byte>, ip: nat, d: nat, known: nat): (m: nat)
    requires 1 <= d <= ip && ip + 12 < |input| && known <= 5
    ensures ip + m < |input|
  {
    var most := if |input| - 3 - ip < known + 7 && d != 1 then known + 7 else |input| - 3 - ip;
    if Common(input, ip, ip - d) < most then Common(input, ip, ip - d) else most
  }

  /** A match; at level 1 in pieces of 262 bytes. */
  function Pieces(level: nat, d: nat, m: nat): (ts: seq<Token>)
    ensures ts != []
  {
    if level == 1 && m > MAX_LEN then [Copy(d, MAX_LEN - 2)] + Pieces(level, d, m - (MAX_LEN - 2)) else [Copy(d, m)]
  }

  /** The literals and copies sent from ip on. Every place looked up is entered, and the last two of a match. */
  function Sent(level: nat, input: seq<byte>, ip: nat, table: seq<nat>): seq<Token>
    requires 1 <= ip <= |input| && |table| == HASH_SIZE
    decreases |input| - ip
  {
    if ip + 12 >= |input| then Literals(input[ip..])
    else if RunHere(level, input, ip) then
      RunAgrees(input, ip);
      SizeKnown(input, ip, 1, 3);
      Matched(level, input, ip, 1, MatchSize(input, ip, 1, 3), table)
    else
      var h := SlotAt(input, ip);
      var ref, entered := table[h], table[h := ip];
      if Repeated(level, input, ip, ref) then
        SizeKnown(input, ip, ip - ref, Known(level, ip - ref));
        Matched(level, input, ip, ip - ref, MatchSize(input, ip, ip - ref, Known(level, ip - ref)), entered)
      else [Literal(input[ip])] + Sent(level, input, ip + 1, entered)
  }

  function Matched(level: nat, input: seq<byte>, ip: nat, d: nat, m: nat, table: seq<nat>): seq<Token>
    requires 1 <= ip && 2 <= m && ip + m <= |input| && |table| == HASH_SIZE
    decreases |input| - ip, 0
  {
    var end := ip + m;
    Pieces(level, d, m) + Sent(level, input, end, Ended(input, end, table))
  }

  /** The table behind a match that ends at end. */
  function Ended(input: seq<byte>, end: nat, table: seq<nat>): (t: seq<nat>)
    requires end >= 2 && |table| == HASH_SIZE
    ensures |t| == HASH_SIZE
  {
    table[SlotAt(input, end - 2) := end - 2][SlotAt(input, end - 1) := end - 1]
  }

  lemma SizeKnown(input: seq<byte>, ip: nat, d: nat, known: nat)
    requires ip + 12 < |input| && (known == 3 || known == 5) && Agrees(input, ip, d, known)
    ensures known <= MatchSize(input, ip, d, known) && Agrees(input, ip, d, MatchSize(input, ip, d, known))
  {
    CommonReaches(input, ip, ip - d, known);
  }

  lemma SentRun(level: nat, input: seq<byte>, ip: nat, table: seq<nat>)
    requires 1 <= ip && ip + 12 < |input| && |table| == HASH_SIZE && RunHere(level, input, ip)
    ensures 3 <= MatchSize(input, ip, 1, 3)
    ensures Sent(level, input, ip, table) == Matched(level, input, ip, 1, MatchSize(input, ip, 1, 3), table)
  {
    hide Matched, MatchSize;
    RunAgrees(input, ip);
    SizeKnown(input, ip, 1, 3);
  }

  lemma SentCopy(level: nat, input: seq<byte>, ip: nat, table: seq<nat>)
    requires 1 <= ip && ip + 12 < |input| && |table| == HASH_SIZE && !RunHere(level, input, ip)
    requires Repeated(level, input, ip, table[SlotAt(input, ip)])
    ensures var h := SlotAt(input, ip); var d := ip - table[h];
      && 1 <= d <= ip && Known(level, d) <= 5 && 3 <= MatchSize(input, ip, d, Known(level, d))
      && Sent(level, input, ip, table)
         == Matched(level, input, ip, d, MatchSize(input, ip, d, Known(level, d)), table[h := ip])
  {
    hide Matched, MatchSize, SlotAt, RunHere;
    var d := ip - table[SlotAt(input, ip)];
    SizeKnown(input, ip, d, Known(level, d));
  }

  lemma SentLiteral(level: nat, input: seq<byte>, ip: nat, table: seq<nat>)
    requires 1 <= ip && ip + 12 < |input| && |table| == HASH_SIZE && !RunHere(level, input, ip)
    requires !Repeated(level, input, ip, table[SlotAt(input, ip)])
    ensures Sent(level, input, ip, table) == [Literal(input[ip])] + Sent(level, input, ip + 1, table[SlotAt(input, ip) := ip])
  {
    hide Matched, MatchSize, SlotAt, RunHere;
  }

  lemma SentRest(level: nat, input: seq<byte>, ip: nat, table: seq<nat>)
    requires 1 <= ip <= |input| <= ip + 12 && |table| == HASH_SIZE
    ensures ip < |input| ==> Sent(level, input, ip, table) == [Literal(input[ip])] + Sent(level, input, ip + 1, table)
    ensures ip == |input| ==> Sent(level, input, ip, table) == []
    ensures forall other: seq<nat> :: |other| == HASH_SIZE ==> Sent(level, input, ip, other) == Sent(level, input, ip, table)
  {
    if ip < |input| {
      assert Literals(input[ip..]) == [Literal(input[ip])] + Literals(input[ip + 1..]);
    }
  }

  /** All that is sent: the first two bytes, or three, as they are. */
  function AllSent(level: nat, input: seq<byte>): seq<Token> {
    if |input| < 4 then Literals(input)
    else [Literal(input[0]), Literal(input[1])] + Sent(level, input, 2, seq(HASH_SIZE, _ => 0))
  }

  // ---- The compressor

  method PutBytes(out: array<byte>, op: nat, b: seq<byte>)
    requires op + |b| <= out.Length
    modifies out
    ensures out[..op + |b|] == old(out[..op]) + b
  {
    for k := 0 to |b|
      invariant out[..op + k] == old(out[..op]) + b[..k]
    {
      out[op + k] := b[k];
    }
  }

  /** The first byte of a reference, and what of the length does not fit into it. */
  method WriteHead(level: nat, out: array<byte>, op: nat, high: nat, length: nat) returns (op': nat)
    requires length >= 1 && high < 32 && (level == 1 ==> length <= MAX_LEN - 2)
    requires op + 1 + |Ext(level, length)| <= out.Length
    modifies out
    ensures op' == op + 1 + |Ext(level, length)|
    ensures out[..op'] == old(out[..op]) + [(if length < 7 then length else 7) * 32 + high] + Ext(level, length)
  {
    hide Tail;
    op' := op + 1;
    if length < 7 {
      HeadByte(length, high, length * 32 + high);
      PutBytes(out, op, [length * 32 + high]);
    } else {
      HeadByte(7, high, 7 * 32 + high);
      PutBytes(out, op, [7 * 32 + high]);
      if level == 1 {
        PutBytes(out, op', [length - 7]);
        op' := op' + 1;
      } else {
        op' := WriteTail(out, op', length - 7);
      }
    }
  }

  lemma RefBytesAre(level: nat, off: nat, length: nat)
    requires RefFits(level, off, length)
    ensures length >= 1 && (level == 1 ==> length <= MAX_LEN - 2)
    ensures var n := if length < 7 then length else 7;
      if level == 1 || off < FAR
      then off / 256 < 32 && n * 32 + off / 256 < 256
           && RefBytes(level, off, length) == [n * 32 + off / 256] + Ext(level, length) + [off % 256]
      else off - FAR < 0x1_0000 && RefBytes(level, off, length) == [n * 32 + 31] + Ext(level, length) + [255, (off - FAR) / 256, (off - FAR) % 256]
  {
    hide Ext;
  }

  /** The bytes of a reference. */
  method WriteRef(level: nat, out: array<byte>, op: nat, off: nat, length: nat) returns (op': nat)
    requires RefFits(level, off, length) && op + |RefBytes(level, off, length)| <= out.Length
    modifies out
    ensures op' == op + |RefBytes(level, off, length)| && out[..op'] == old(out[..op]) + RefBytes(level, off, length)
  {
    RefBytesAre(level, off, length);
    hide Ext, RefBytes, RefFits;
    ghost var before, e, n: nat := out[..op], Ext(level, length), if length < 7 then length else 7;
    if level == 1 || off < FAR {
      var high := off / 256;
      op' := WriteHead(level, out, op, high, length);
      PutBytes(out, op', [off % 256]);
      op' := op' + 1;
      Regrouped(before, [n * 32 + high], e, [off % 256]);
    } else {
      var hi, lo := (off - FAR) / 256, (off - FAR) % 256;
      op' := WriteHead(level, out, op, 31, length);
      PutBytes(out, op', [255, hi, lo]);
      op' := op' + 3;
      Regrouped(before, [n * 32 + 31], e, [255, hi, lo]);
    }
  }

  lemma Regrouped(a: seq<byte>, b: seq<byte>, c: seq<byte>, d: seq<byte>)
    ensures a + b + c + d == a + (b + c + d)
  {
  }

  /** A match; at level 1 one reference is not always enough. */
  method WriteMatch(level: nat, input: seq<byte>, out: array<byte>, op: nat, anchor: nat, d: nat, m: nat) returns (op': nat)
    requires level == 1 || level == 2
    requires Closed(level, out[..], op, input, anchor) && Agrees(input, anchor, d, m)
    requires m >= 3 && 1 <= d < MaxDistance(level) && (d > FAR && level == 2 ==> m >= 5)
    requires 32 * (out.Length - op) + 31 >= 33 * m && 1 <= op <= out.Length
    modifies out
    ensures Closed(level, out[..], op', input, anchor + m) && op < op' <= out.Length && 32 * (op' - op) + 31 <= 33 * m
    ensures out[0] == old(out[0]) && Items(level, out[..op']) == old(Items(level, out[..op])) + Pieces(level, d, m)
  {
    hide *;
    MaxLen();
    op' := op;
    var length, at := m - 2, anchor;
    ghost var sent: seq<Token> := [];
    assert Items(level, out[..op']) + [] == Items(level, out[..op']) && [] + Pieces(level, d, m) == Pieces(level, d, m);
    while level == 1 && length > MAX_LEN - 2
      invariant length >= 1 && at + length + 2 == anchor + m && at >= anchor && (level == 2 ==> at == anchor)
      invariant Closed(level, out[..], op', input, at) && Agrees(input, at, d, length + 2)
      invariant op <= op' <= out.Length && 32 * (op' - op) <= 33 * (at - anchor) && out[0] == old(out[0])
      invariant Items(level, out[..op']) == old(Items(level, out[..op])) + sent
      invariant sent + Pieces(level, d, length + 2) == Pieces(level, d, m)
      decreases length
    {
      AgreesSplit(input, at, d, length + 2, MAX_LEN - 2);
      FitsIf(level, d, MAX_LEN - 2 - 2);
      op' := WriteOne(level, input, out, op', at, d, MAX_LEN - 2 - 2);
      OnePiece(level, d, length + 2);
      SentMore(sent, Copy(d, MAX_LEN - 2), Pieces(level, d, length + 2 - (MAX_LEN - 2)), old(Items(level, out[..op])));
      sent := sent + [Copy(d, MAX_LEN - 2)];
      length, at := length - (MAX_LEN - 2), at + (MAX_LEN - 2);
    }
    FitsIf(level, d, length);
    op' := WriteOne(level, input, out, op', at, d, length);
    OnePiece(level, d, length + 2);
    SentMore(sent, Copy(d, length + 2), [], old(Items(level, out[..op])));
  }

  lemma OnePiece(level: nat, d: nat, m: nat)
    ensures level == 1 && m > MAX_LEN ==> Pieces(level, d, m) == [Copy(d, MAX_LEN - 2)] + Pieces(level, d, m - (MAX_LEN - 2))
    ensures !(level == 1 && m > MAX_LEN) ==> Pieces(level, d, m) == [Copy(d, m)] + []
  {
  }

  lemma SentMore(sent: seq<Token>, t: Token, more: seq<Token>, before: seq<Token>)
    ensures sent + ([t] + more) == (sent + [t]) + more && (before + sent) + [t] == before + (sent + [t])
    ensures (sent + [t]) + [] == sent + [t]
  {
  }

  method WriteOne(level: nat, input: seq<byte>, out: array<byte>, op: nat, anchor: nat, d: nat, length: nat) returns (op': nat)
    requires Closed(level, out[..], op, input, anchor) && Agrees(input, anchor, d, length + 2)
    requires d >= 1 && RefFits(level, d - 1, length) && (level == 2 && d > FAR ==> length >= 3)
    requires 32 * (out.Length - op) + 31 >= 33 * (length + 2) && 1 <= op <= out.Length
    modifies out
    ensures Closed(level, out[..], op', input, anchor + length + 2)
    ensures op < op' <= out.Length && 32 * (op' - op) + 31 <= 33 * (length + 2) && out[0] == old(out[0])
    ensures Items(level, out[..op']) == old(Items(level, out[..op])) + [Copy(d, length + 2)]
  {
    hide *;
    ghost var was := out[..];
    assert was[..op] == out[..op];
    RefPays(level, d - 1, length);
    op' := WriteRef(level, out, op, d - 1, length);
    RefParts(level, d - 1, length);
    assert out[..][..op'] == out[..op'];
    MatchBehind(level, was, op, input, anchor, RefBytes(level, d - 1, length), d, length + 2, out[..]);
    CarriesMatch(level, was, op, input, anchor, RefBytes(level, d - 1, length), d, length + 2, out[..]);
    assert out[..op'][0] == was[..op][0];
  }

  lemma FitsIf(level: nat, d: nat, length: nat)
    requires length >= 1 && 1 <= d < MaxDistance(level) && (level == 1 || level == 2) && (level == 1 ==> length <= MAX_LEN - 2)
    ensures RefFits(level, d - 1, length)
  {
  }

  lemma MaxLen()
    ensures MAX_LEN == 264 && FAR == 8191 && MAX_RUN == 32 && HASH_SIZE == 8192
  {
  }

  lemma AgreesSplit(input: seq<byte>, p: nat, d: nat, n: nat, k: nat)
    requires Agrees(input, p, d, n) && k <= n
    ensures Agrees(input, p, d, k) && Agrees(input, p + k, d, n - k)
  {
  }

  /** How far the match goes: the place one behind the byte at which the search gave up. */
  method MatchEnd(input: seq<byte>, anchor: nat, d: nat, len: nat) returns (ip: nat)
    requires anchor + 12 < |input| && (len == 3 || len == 5) && Agrees(input, anchor, d, len)
    ensures anchor + len < ip <= |input| && Agrees(input, anchor, d, ip - 1 - anchor)
    ensures ip - 1 - anchor == MatchSize(input, anchor, d, len)
  {
    hide Common;
    if d == 1 {
      ip := RunEnd(input, anchor, len);
    } else {
      ip := CopyEnd(input, anchor, d, len);
    }
  }

  /** A run: each byte is compared with the one before the match. */
  method RunEnd(input: seq<byte>, anchor: nat, len: nat) returns (ip: nat)
    requires anchor + 12 < |input| && (len == 3 || len == 5) && Agrees(input, anchor, 1, len)
    ensures anchor + len < ip <= |input| && Agrees(input, anchor, 1, ip - 1 - anchor)
    ensures ip - 1 - anchor == MatchSize(input, anchor, 1, len)
  {
    hide Common;
    var bound := |input| - 2;
    ip := anchor + len;
    var x, ref := input[ip - 1], ip - 1;
    while ip < bound
      invariant anchor + len <= ip <= bound && ref == ip - 1 && x == input[anchor + len - 1]
      invariant Agrees(input, anchor, 1, ip - 1 - anchor) && input[ip - 2] == x
      decreases bound - ip
    {
      if input[ref] != x {
        break;
      }
      ref, ip := ref + 1, ip + 1;
    }
    CommonReaches(input, anchor, anchor - 1, ip - 1 - anchor);
    if ip < bound {
      CommonIs(input, anchor, anchor - 1, ip - 1 - anchor);
    }
  }

  /** Anything else: eight bytes at once, then up to the bound. */
  method CopyEnd(input: seq<byte>, anchor: nat, d: nat, len: nat) returns (ip: nat)
    requires anchor + 12 < |input| && (len == 3 || len == 5) && Agrees(input, anchor, d, len) && d != 1
    ensures anchor + len < ip <= |input| && Agrees(input, anchor, d, ip - 1 - anchor)
    ensures ip - 1 - anchor == MatchSize(input, anchor, d, len)
  {
    hide Common;
    var bound := |input| - 2;
    ip := anchor + len;
    var ref, k, same := ip - d, 0, true;
    while same && k < 8
      invariant k <= 8 && ip == anchor + len + k && ref == ip - d
      invariant if same then Agrees(input, anchor, d, ip - anchor) else k > 0 && Gone(input, anchor, d, ip)
      decreases 8 - k
    {
      same := input[ref] == input[ip];
      ref, ip, k := ref + 1, ip + 1, k + 1;
    }
    while same && ip < bound
      invariant anchor + len < ip <= |input| && ref == ip - d && (ip <= bound || ip <= anchor + len + 8)
      invariant same ==> ip >= anchor + len + 8
      invariant if same then Agrees(input, anchor, d, ip - anchor) else Gone(input, anchor, d, ip)
      decreases |input| - ip, same
    {
      same := input[ref] == input[ip];
      ref, ip := ref + 1, ip + 1;
    }
    SizeIs(input, anchor, d, len, ip, same);
  }

  lemma SizeIs(input: seq<byte>, anchor: nat, d: nat, len: nat, ip: nat, same: bool)
    requires anchor + 12 < |input| && (len == 3 || len == 5) && 1 < d <= anchor && anchor < ip
    requires if same then Agrees(input, anchor, d, ip - anchor) else Gone(input, anchor, d, ip)
    requires ip <= |input| - 2 || ip <= anchor + len + 8
    requires same ==> ip >= anchor + len + 8 && ip >= |input| - 2
    ensures ip - 1 - anchor == MatchSize(input, anchor, d, len)
  {
    hide Common;
    if same {
      CommonReaches(input, anchor, anchor - d, ip - anchor);
    } else {
      CommonIs(input, anchor, anchor - d, ip - 1 - anchor);
    }
  }

  /** The byte before ip is the first that differs. */
  ghost predicate Gone(input: seq<byte>, anchor: nat, d: nat, ip: nat) {
    1 <= d <= anchor < ip <= |input| && Agrees(input, anchor, d, ip - 1 - anchor) && input[ip - 1] != input[ip - 1 - d]
  }

  /** An open run; its control byte already says 32, and the first byte of all is no reference. */
  ghost predicate Ready(level: nat, out: seq<byte>, op: nat, copy: nat, input: seq<byte>, ip: nat) {
    && Open(level, out, op, copy, input, ip) && copy < MAX_RUN && op <= |out|
    && out[op - copy - 1] == MAX_RUN - 1 && out[0] < 32
    && 32 * (op - copy - 1) <= 33 * (ip - copy)
  }

  lemma ReadyParts(level: nat, out: seq<byte>, op: nat, copy: nat, input: seq<byte>, ip: nat)
    requires Ready(level, out, op, copy, input, ip)
    ensures copy < op <= |out| && copy <= ip <= |input| && copy < 32 && 32 * (op - copy - 1) <= 33 * (ip - copy)
    ensures out[0] < 32
  {
  }

  /** A literal; a full run is closed as it stands, and the next one opened. */
  method PutLiteral(level: nat, out: array<byte>, op: nat, copy: nat, input: seq<byte>, ip: nat, ghost ts: seq<Token>) returns (op': nat, copy': nat)
    requires Ready(level, out[..], op, copy, input, ip) && ip < |input| && op < out.Length && (copy == MAX_RUN - 1 ==> op + 1 < out.Length)
    requires Carries(level, out[..], op, copy, ts)
    modifies out
    ensures Carries(level, out[..], op', copy', ts + [Literal(input[ip])])
    ensures Ready(level, out[..], op', copy', input, ip + 1)
    ensures copy' == (if copy == MAX_RUN - 1 then 0 else copy + 1) && op' == op + if copy == MAX_RUN - 1 then 2 else 1
  {
    hide Decode, Carries, Items;
    ghost var was := out[..];
    out[op] := input[ip];
    op', copy' := op + 1, copy + 1;
    OneMore(level, was, op, copy, input, ip, out[..]);
    CarriesMore(level, was, op, copy, ts, input[ip], out[..]);
    if copy' == MAX_RUN {
      ghost var now := out[..];
      assert now == now[op' - copy' - 1 := copy' - 1];
      CloseRun(level, now, op', copy', input, ip + 1, now);
      CarriesRun(level, now, op', copy', input, ip + 1, ts + [Literal(input[ip])], now);
      out[op'] := MAX_RUN - 1;
      assert out[..op'] == now[..op'] && out[..][..op'] == now[..op'];
      OpenRun(level, out[..], op', input, ip + 1);
      CarriesClosed(level, out[..], op', ts + [Literal(input[ip])]);
      copy' := 0;
      op' := op' + 1;
    }
  }

  /** Adjusting the copy count, or taking it back. */
  method EndRun(level: nat, out: array<byte>, op: nat, copy: nat, ghost input: seq<byte>, ghost ip: nat, ghost ts: seq<Token>) returns (op': nat)
    requires Ready(level, out[..], op, copy, input, ip) && Carries(level, out[..], op, copy, ts)
    modifies out
    ensures op' == (if copy > 0 then op else op - 1) && Closed(level, out[..], op', input, ip) && out[0] < 32
    ensures op' <= out.Length && Items(level, out[..op']) == ts
  {
    hide Decode, Carries, Items;
    op' := op;
    if copy > 0 {
      ghost var was := out[..];
      out[op - copy - 1] := copy - 1;
      CloseRun(level, was, op, copy, input, ip, out[..]);
      CarriesRun(level, was, op, copy, input, ip, ts, out[..]);
    } else {
      op' := op - 1;
      UndoRun(level, out[..], op, input, ip, out[..]);
      CarriesClosed(level, out[..], op', ts);
    }
    assert out[..][..op'] == out[..op'];
  }

  /** Where the output can be at most, the next control byte included. */
  lemma InBound(n: nat, op: nat, copy: nat, ip: nat)
    requires copy < op && copy <= ip <= n && copy < 32 && 32 * (op - copy - 1) <= 33 * (ip - copy)
    ensures op <= ip + ip / 32 + 2 && op <= Bound(n)
    ensures copy == 31 && ip < n ==> op + 2 <= Bound(n)
    ensures ip < n ==> op + 1 <= Bound(n)
  {
  }

  /** Up to three bytes are stored as they are. */
  method Short(input: seq<byte>, out: array<byte>) returns (r: nat)
    requires |input| < 4 && |input| + 1 <= out.Length
    modifies out
    ensures r == (if input == [] then 0 else |input| + 1) && r <= out.Length
    ensures input != [] ==> Items(1, Unmarked(out[..r])) == Literals(input)
    ensures input != [] ==> Packed(out[..r], input)
  {
    if input == [] {
      return 0;
    }
    out[0] := |input| - 1;
    CopyRun(input, 0, out, 1, |input|);
    r := |input| + 1;
    assert input[0..|input|] == input;
    ShortPacked(input, out[..r]);
  }

  lemma ShortPacked(input: seq<byte>, s: seq<byte>)
    requires 1 <= |input| < 4 && s == [|input| - 1] + input
    ensures Packed(s, input) && Items(1, Unmarked(s)) == Literals(input)
  {
    hide Decode, Items, Literals;
    OneRun(1, input, []);
    RunItems(1, input);
    assert Unmarked(s) == s && [] + input == input;
  }

  ghost predicate Entries(table: seq<nat>, ip: nat) {
    |table| == HASH_SIZE && forall h :: 0 <= h < |table| ==> table[h] <= ip
  }

  lemma EntryIs(table: seq<nat>, ip: nat, h: nat)
    requires Entries(table, ip) && h < HASH_SIZE
    ensures |table| == HASH_SIZE && table[h] <= ip && Entries(table[h := ip], ip)
  {
  }

  lemma LaterEntries(table: seq<nat>, ip: nat, ip': nat)
    requires Entries(table, ip) && ip <= ip'
    ensures Entries(table, ip')
  {
  }

  /** Entering a place behind a match. */
  method Enter(input: seq<byte>, htab: array<nat>, at: nat)
    requires Entries(htab[..], at)
    modifies htab
    ensures Entries(htab[..], at)
    ensures at + 2 < |input| ==> htab[..] == old(htab[..])[SlotAt(input, at) := at]
  {
    hide HashOf;
    var h: nat;
    if at + 2 < |input| {
      h := HashOf(input[at], input[at + 1], input[at + 2]);
    } else {
      h :| 0 <= h < HASH_SIZE;
    }
    EntryIs(htab[..], at, h);
    ghost var was := htab[..];
    htab[h] := at;
    assert htab[..] == was[h := at];
  }

  /** A match at ip, if there is one: its distance and how much of it is known. */
  method FindMatch(level: nat, input: seq<byte>, ip: nat, htab: array<nat>) returns (found: bool, d: nat, len: nat)
    requires (level == 1 || level == 2) && 1 <= ip && ip + 12 < |input| && Entries(htab[..], ip)
    modifies htab
    ensures Entries(htab[..], ip)
    ensures found ==> (len == 3 || len == 5) && 1 <= d < MaxDistance(level) && Agrees(input, ip, d, len) && (level == 2 && d >= FAR ==> len == 5)
    ensures RunHere(level, input, ip) ==> found && d == 1 && len == 3 && htab[..] == old(htab[..])
    ensures !RunHere(level, input, ip) ==>
      && htab[..] == old(htab[..])[SlotAt(input, ip) := ip]
      && (found <==> Repeated(level, input, ip, old(htab[..])[SlotAt(input, ip)]))
      && (found ==> d == ip - old(htab[..])[SlotAt(input, ip)] && len == Known(level, d))
  {
    hide HashOf;
    found, d, len := false, 1, 3;
    if level == 2 && input[ip] == input[ip - 1] && input[ip - 1..ip + 1] == input[ip + 1..ip + 3] {
      RunAgrees(input, ip);
      found := true;
      return;
    }
    var h := HashOf(input[ip], input[ip + 1], input[ip + 2]);
    EntryIs(htab[..], ip, h);
    d := ip - htab[h];
    ghost var was := htab[..];
    htab[h] := ip;
    assert htab[..] == was[h := ip];
    if d == 0 || d >= MaxDistance(level) {
      return;
    }
    if input[ip - d] != input[ip] || input[ip - d + 1] != input[ip + 1] || input[ip - d + 2] != input[ip + 2] {
      Differs(level, input, ip, ip - d);
      return;
    }
    if level == 2 && d >= FAR {
      if input[ip - d + 3] != input[ip + 3] || input[ip - d + 4] != input[ip + 4] {
        Differs(level, input, ip, ip - d);
        return;
      }
      len := 5;
    }
    AgreesIf(input, ip, d, len);
    found := true;
  }

  lemma Differs(level: nat, input: seq<byte>, ip: nat, ref: nat)
    requires ref < ip && ip + 4 < |input|
    requires input[ref] != input[ip] || input[ref + 1] != input[ip + 1] || input[ref + 2] != input[ip + 2]
          || (level == 2 && ip - ref >= FAR && (input[ref + 3] != input[ip + 3] || input[ref + 4] != input[ip + 4]))
    ensures !Repeated(level, input, ip, ref)
  {
    AgreesAt(input, ip, ip - ref, Known(level, ip - ref), 0);
    AgreesAt(input, ip, ip - ref, Known(level, ip - ref), 1);
    AgreesAt(input, ip, ip - ref, Known(level, ip - ref), 2);
    AgreesAt(input, ip, ip - ref, Known(level, ip - ref), 3);
    AgreesAt(input, ip, ip - ref, Known(level, ip - ref), 4);
  }

  lemma AgreesAt(input: seq<byte>, p: nat, d: nat, n: nat, k: nat)
    ensures Agrees(input, p, d, n) && k < n ==> p + k < |input| && d <= p && input[p + k] == input[p + k - d]
  {
  }

  lemma RunAgrees(input: seq<byte>, ip: nat)
    requires 1 <= ip && ip + 3 <= |input| && input[ip] == input[ip - 1] && input[ip - 1..ip + 1] == input[ip + 1..ip + 3]
    ensures Agrees(input, ip, 1, 3)
  {
    assert input[ip - 1..ip + 1][0] == input[ip - 1] && input[ip - 1..ip + 1][1] == input[ip];
    assert input[ip + 1..ip + 3][0] == input[ip + 1] && input[ip + 1..ip + 3][1] == input[ip + 2];
  }

  lemma AgreesIf(input: seq<byte>, ip: nat, d: nat, len: nat)
    requires 1 <= d <= ip && (len == 3 || len == 5) && ip + len <= |input|
    requires input[ip - d] == input[ip] && input[ip - d + 1] == input[ip + 1] && input[ip - d + 2] == input[ip + 2]
    requires len == 5 ==> input[ip - d + 3] == input[ip + 3] && input[ip - d + 4] == input[ip + 4]
    ensures Agrees(input, ip, d, len)
  {
    forall i | ip <= i < ip + len ensures input[i] == input[i - d] {
      assert i == ip || i == ip + 1 || i == ip + 2 || i == ip + 3 || i == ip + 4;
    }
  }

  /** A match from its first known bytes on, and the next run. */
  method PutMatch(level: nat, out: array<byte>, op: nat, copy: nat, input: seq<byte>, ip: nat, d: nat, len: nat, ghost ts: seq<Token>)
    returns (op': nat, ip': nat)
    requires (level == 1 || level == 2) && Ready(level, out[..], op, copy, input, ip) && ip + 12 < |input| && Bound(|input|) <= out.Length
    requires Carries(level, out[..], op, copy, ts) && ip >= 1
    requires (len == 3 || len == 5) && 1 <= d < MaxDistance(level) && Agrees(input, ip, d, len) && (level == 2 && d >= FAR ==> len == 5)
    modifies out
    ensures ip + 3 <= ip' < |input| && Ready(level, out[..], op', 0, input, ip')
    ensures ip' == ip + MatchSize(input, ip, d, len) && Carries(level, out[..], op', 0, ts + Pieces(level, d, ip' - ip))
  {
    hide *;
    ReadyParts(level, out[..], op, copy, input, ip);
    MaxLen();
    var end := MatchEnd(input, ip, d, len);
    var m := end - 1 - ip;
    op' := EndRun(level, out, op, copy, input, ip, ts);
    Room(|input|, op', ip, m);
    AtLeastOne(level, out[..], op', input, ip);
    op' := WriteMatch(level, input, out, op', ip, d, m);
    ip' := ip + m;
    Room(|input|, op', ip', 0);
    ghost var was := out[..];
    out[op'] := 31;
    assert out[..][..op'] == was[..op'] && was[..op'] == out[..op'];
    NextRun(level, was, op', input, ip', out[..]);
    CarriesClosed(level, out[..], op', ts + Pieces(level, d, m));
    op' := op' + 1;
  }

  lemma Room(n: nat, op: nat, ip: nat, m: nat)
    requires 32 * op <= 33 * ip + 31 && ip + m < n
    ensures 32 * (Bound(n) - op) + 31 >= 33 * m && op < Bound(n)
  {
  }

  /** A stream that stands for something is not empty. */
  lemma AtLeastOne(level: nat, out: seq<byte>, op: nat, input: seq<byte>, ip: nat)
    requires Closed(level, out, op, input, ip) && ip > 0
    ensures op >= 1
  {
  }

  lemma NextRun(level: nat, was: seq<byte>, op: nat, input: seq<byte>, ip: nat, out: seq<byte>)
    requires Closed(level, was, op, input, ip) && was != [] && was[0] < 32 && 1 <= op < |was| && out == was[op := 31]
    requires 32 * op <= 33 * ip
    ensures Ready(level, out, op + 1, 0, input, ip)
  {
    hide Decode;
    assert out[..op] == was[..op];
    OpenRun(level, out, op, input, ip);
  }

  /** The first two bytes are literals. */
  method Start(level: nat, input: seq<byte>, out: array<byte>)
    requires |input| >= 4 && out.Length >= 3
    modifies out
    ensures Ready(level, out[..], 3, 2, input, 2) && Carries(level, out[..], 3, 2, [Literal(input[0]), Literal(input[1])])
  {
    hide Decode;
    out[0] := MAX_RUN - 1;
    out[1] := input[0];
    out[2] := input[1];
    NothingYet(level, out[..], input);
    assert out[..][3 - 2..3] == [input[0], input[1]] == input[0..2];
    assert Literals([input[0], input[1]]) == [Literal(input[0]), Literal(input[1])] && Items(level, out[..][..0]) == [];
  }

  lemma NothingYet(level: nat, out: seq<byte>, input: seq<byte>)
    ensures Closed(level, out, 0, input, 0)
  {
    assert out[..0] == [] && input[..0] == [];
  }

  /** What is in the buffer, and what is still to be sent. */
  ghost predicate OnCourse(level: nat, out: seq<byte>, op: nat, copy: nat, input: seq<byte>, ip: nat, table: seq<nat>, ts: seq<Token>) {
    && 2 <= ip <= |input| && |table| == HASH_SIZE && Carries(level, out, op, copy, ts)
    && ts + Sent(level, input, ip, table) == AllSent(level, input)
  }

  lemma CourseStarts(level: nat, out: seq<byte>, input: seq<byte>, table: seq<nat>)
    requires |input| >= 4 && |table| == HASH_SIZE && forall h :: 0 <= h < HASH_SIZE ==> table[h] == 0
    requires Carries(level, out, 3, 2, [Literal(input[0]), Literal(input[1])])
    ensures OnCourse(level, out, 3, 2, input, 2, table, [Literal(input[0]), Literal(input[1])])
  {
    hide Sent, Carries;
    assert table == seq(HASH_SIZE, _ => 0);
  }

  lemma CourseGoes(ts: seq<Token>, now: seq<Token>, more: seq<Token>, all: seq<Token>)
    requires ts + (now + more) == all
    ensures (ts + now) + more == all
  {
    assert (ts + now) + more == ts + (now + more);
  }

  lemma CourseParts(level: nat, out: seq<byte>, op: nat, copy: nat, input: seq<byte>, ip: nat, table: seq<nat>, ts: seq<Token>)
    requires OnCourse(level, out, op, copy, input, ip, table, ts)
    ensures 2 <= ip <= |input| && Carries(level, out, op, copy, ts) && |table| == HASH_SIZE
  {
  }

  lemma CourseLiteral(level: nat, was: seq<byte>, op: nat, copy: nat, input: seq<byte>, ip: nat, table: seq<nat>, ts: seq<Token>,
                      out: seq<byte>, op': nat, copy': nat, table': seq<nat>)
    requires OnCourse(level, was, op, copy, input, ip, table, ts) && ip < |input| && |table'| == HASH_SIZE
    requires Carries(level, out, op', copy', ts + [Literal(input[ip])])
    requires ip + 12 < |input| ==>
      && !RunHere(level, input, ip) && !Repeated(level, input, ip, table[SlotAt(input, ip)]) && table' == table[SlotAt(input, ip) := ip]
    ensures OnCourse(level, out, op', copy', input, ip + 1, table', ts + [Literal(input[ip])])
  {
    hide Sent, SlotAt, Repeated, RunHere, Carries, AllSent;
    if ip + 12 < |input| {
      SentLiteral(level, input, ip, table);
    } else {
      SentRest(level, input, ip, table);
      SentRest(level, input, ip + 1, table);
    }
    CourseGoes(ts, [Literal(input[ip])], Sent(level, input, ip + 1, table'), AllSent(level, input));
  }

  lemma CourseMatch(level: nat, was: seq<byte>, op: nat, copy: nat, input: seq<byte>, ip: nat, table: seq<nat>, ts: seq<Token>,
                    out: seq<byte>, op': nat, d: nat, m: nat, entered: seq<nat>, table': seq<nat>)
    requires OnCourse(level, was, op, copy, input, ip, table, ts) && ip + m <= |input| && m >= 3 && |entered| == |table'| == HASH_SIZE
    requires Sent(level, input, ip, table) == Matched(level, input, ip, d, m, entered)
    requires Carries(level, out, op', 0, ts + Pieces(level, d, m))
    requires ip + m + 12 < |input| ==> table' == Ended(input, ip + m, entered)
    ensures OnCourse(level, out, op', 0, input, ip + m, table', ts + Pieces(level, d, m))
  {
    hide Sent, Carries, AllSent, Ended, Pieces;
    CourseGoes(ts, Pieces(level, d, m), Sent(level, input, ip + m, Ended(input, ip + m, entered)), AllSent(level, input));
    if ip + m + 12 >= |input| {
      SentRest(level, input, ip + m, Ended(input, ip + m, entered));
    }
  }

  lemma CourseEnds(level: nat, out: seq<byte>, op: nat, copy: nat, input: seq<byte>, table: seq<nat>, ts: seq<Token>)
    requires OnCourse(level, out, op, copy, input, |input|, table, ts)
    ensures ts == AllSent(level, input) && Carries(level, out, op, copy, ts)
  {
    hide Carries, AllSent;
    SentRest(level, input, |input|, table);
    assert ts + [] == ts;
  }

  lemma FoundSent(level: nat, input: seq<byte>, ip: nat, table: seq<nat>, d: nat, len: nat, entered: seq<nat>)
    requires 2 <= ip && ip + 12 < |input| && |table| == HASH_SIZE && (len == 3 || len == 5) && 1 <= d <= ip
    requires RunHere(level, input, ip) ==> d == 1 && len == 3 && entered == table
    requires !RunHere(level, input, ip) ==>
      && Repeated(level, input, ip, table[SlotAt(input, ip)]) && d == ip - table[SlotAt(input, ip)] && len == Known(level, d)
      && entered == table[SlotAt(input, ip) := ip]
    ensures |entered| == HASH_SIZE && 3 <= MatchSize(input, ip, d, len)
    ensures Sent(level, input, ip, table) == Matched(level, input, ip, d, MatchSize(input, ip, d, len), entered)
  {
    hide Sent, SlotAt, Repeated, RunHere, Matched, MatchSize;
    if RunHere(level, input, ip) {
      SentRun(level, input, ip, table);
    } else {
      SentCopy(level, input, ip, table);
    }
  }

  /** A match found at ip: its bytes, and the two places entered behind it. */
  method TakeMatch(level: nat, out: array<byte>, op: nat, copy: nat, input: seq<byte>, ip: nat, htab: array<nat>, d: nat, len: nat,
                   ghost table: seq<nat>, ghost ts: seq<Token>) returns (op': nat, ip': nat)
    requires (level == 1 || level == 2) && Ready(level, out[..], op, copy, input, ip) && ip + 12 < |input| && Bound(|input|) <= out.Length
    requires (len == 3 || len == 5) && 1 <= d < MaxDistance(level) && Agrees(input, ip, d, len) && (level == 2 && d >= FAR ==> len == 5)
    requires OnCourse(level, out[..], op, copy, input, ip, table, ts) && Entries(htab[..], ip)
    requires |htab[..]| == HASH_SIZE && 3 <= MatchSize(input, ip, d, len)
    requires Sent(level, input, ip, table) == Matched(level, input, ip, d, MatchSize(input, ip, d, len), htab[..])
    modifies out, htab
    ensures ip < ip' <= |input| && Ready(level, out[..], op', 0, input, ip') && Entries(htab[..], ip')
    ensures OnCourse(level, out[..], op', 0, input, ip', htab[..], ts + Pieces(level, d, ip' - ip))
  {
    hide *;
    ghost var was, entered := out[..], htab[..];
    CourseParts(level, was, op, copy, input, ip, table, ts);
    op', ip' := PutMatch(level, out, op, copy, input, ip, d, len, ts);
    LaterEntries(htab[..], ip, ip' - 2);
    Enter(input, htab, ip' - 2);
    LaterEntries(htab[..], ip' - 2, ip' - 1);
    Enter(input, htab, ip' - 1);
    LaterEntries(htab[..], ip' - 1, ip');
    EntriesSize(htab[..], ip');
    EndedIs(input, ip', entered);
    CourseMatch(level, was, op, copy, input, ip, table, ts, out[..], op', d, ip' - ip, entered, htab[..]);
  }

  lemma EntriesSize(table: seq<nat>, ip: nat)
    requires Entries(table, ip)
    ensures |table| == HASH_SIZE
  {
  }

  lemma EndedIs(input: seq<byte>, end: nat, table: seq<nat>)
    requires end >= 2 && |table| == HASH_SIZE
    ensures Ended(input, end, table) == table[SlotAt(input, end - 2) := end - 2][SlotAt(input, end - 1) := end - 1]
  {
  }

  /** FASTLZ_COMPRESSOR at either level. */
  method CompressLevel(level: nat, input: seq<byte>, out: array<byte>) returns (r: nat)
    requires (level == 1 || level == 2) && Bound(|input|) <= out.Length
    modifies out
    ensures r <= Bound(|input|) && (input == [] <==> r == 0)
    ensures input != [] ==> Packed(out[..r], input)
    ensures input != [] ==> Items(if |input| < 4 then 1 else level, Unmarked(out[..r])) == AllSent(level, input)
  {
    hide *;
    MaxLen();
    BoundIs(|input|);
    if |input| < 4 {
      r := Short(input, out);
      ShortSent(level, input);
      return;
    }
    var htab := new nat[HASH_SIZE](_ => 0);
    NoEntries(htab[..]);
    Start(level, input, out);
    var copy, op, ip := 2, 3, 2;
    ghost var ts := [Literal(input[0]), Literal(input[1])];
    CourseStarts(level, out[..], input, htab[..]);
    while ip + 12 < |input|
      invariant 2 <= ip <= |input| && Ready(level, out[..], op, copy, input, ip) && Entries(htab[..], ip)
      invariant OnCourse(level, out[..], op, copy, input, ip, htab[..], ts)
      decreases |input| - ip
    {
      ghost var was, table := out[..], htab[..];
      CourseParts(level, was, op, copy, input, ip, table, ts);
      var found, d, len := FindMatch(level, input, ip, htab);
      LaterEntries(htab[..], ip, ip + 1);
      EntriesSize(htab[..], ip);
      ghost var from := ip;
      if found {
        FoundSent(level, input, ip, table, d, len, htab[..]);
        op, ip := TakeMatch(level, out, op, copy, input, ip, htab, d, len, table, ts);
        copy := 0;
        ts := ts + Pieces(level, d, ip - from);
      } else {
        ReadyParts(level, out[..], op, copy, input, ip);
        InBound(|input|, op, copy, ip);
        ghost var op0, copy0 := op, copy;
        op, copy := PutLiteral(level, out, op, copy, input, ip, ts);
        CourseLiteral(level, was, op0, copy0, input, ip, table, ts, out[..], op, copy, htab[..]);
        ts := ts + [Literal(input[ip])];
        ip := ip + 1;
      }
    }
    r := Finish(level, input, out, op, copy, ip, htab[..], ts);
  }

  lemma ShortSent(level: nat, input: seq<byte>)
    requires |input| < 4
    ensures AllSent(level, input) == Literals(input)
  {
  }

  /** The bytes left over, and the mark of the level. */
  method Finish(level: nat, input: seq<byte>, out: array<byte>, at: nat, copied: nat, from: nat, ghost table: seq<nat>, ghost sent: seq<Token>)
    returns (r: nat)
    requires (level == 1 || level == 2) && Bound(|input|) <= out.Length && |input| >= 4 && from <= |input| <= from + 12
    requires Ready(level, out[..], at, copied, input, from) && OnCourse(level, out[..], at, copied, input, from, table, sent)
    modifies out
    ensures 0 < r <= Bound(|input|) && Packed(out[..r], input) && Items(level, Unmarked(out[..r])) == AllSent(level, input)
  {
    hide *;
    MaxLen();
    var op, copy, ip := at, copied, from;
    ghost var ts := sent;
    while ip < |input|
      invariant from <= ip <= |input| && Ready(level, out[..], op, copy, input, ip)
      invariant OnCourse(level, out[..], op, copy, input, ip, table, ts)
    {
      ghost var was, op0, copy0 := out[..], op, copy;
      CourseParts(level, was, op, copy, input, ip, table, ts);
      ReadyParts(level, out[..], op, copy, input, ip);
      InBound(|input|, op, copy, ip);
      op, copy := PutLiteral(level, out, op, copy, input, ip, ts);
      CourseLiteral(level, was, op0, copy0, input, ip, table, ts, out[..], op, copy, table);
      ts := ts + [Literal(input[ip])];
      ip := ip + 1;
    }
    ReadyParts(level, out[..], op, copy, input, ip);
    InBound(|input|, op, copy, ip);
    CourseEnds(level, out[..], op, copy, input, table, ts);
    op := EndRun(level, out, op, copy, input, ip, ts);
    ghost var was := out[..];
    assert was[..op] == out[..op];
    if level == 2 {
      out[0] := out[0] + 32;
    }
    Marked(level, was, op, input, out[..]);
    assert out[..][..op] == out[..op];
    r := op;
  }

  lemma BoundIs(n: nat)
    ensures Bound(n) >= 66 && Bound(n) >= n + 1
  {
  }

  lemma NoEntries(table: seq<nat>)
    requires |table| == HASH_SIZE && forall h :: 0 <= h < |table| ==> table[h] == 0
    ensures Entries(table, 2)
  {
  }

  lemma Marked(level: nat, was: seq<byte>, op: nat, input: seq<byte>, out: seq<byte>)
    requires (level == 1 || level == 2) && Closed(level, was, op, input, |input|) && input != [] && was != [] && was[0] < 32
    requires out == if level == 2 then was[0 := was[0] + 32] else was
    ensures 0 < op <= |out| && Packed(out[..op], input) && Unmarked(out[..op]) == was[..op]
  {
    hide Decode;
    AtLeastOne(level, was, op, input, |input|);
    AllClosed(level, was, op, input);
    assert Unmarked(out[..op]) == was[..op];
  }

  /** fastlz_compress. */
  method Compress(input: seq<byte>, out: array<byte>) returns (r: nat)
    requires Bound(|input|) <= out.Length
    modifies out
    ensures r <= Bound(|input|) && (input == [] <==> r == 0)
    ensures input != [] ==> Packed(out[..r], input)
  {
    r := CompressLevel(if |input| < 65536 then 1 else 2, input, out);
  }

  // ---- The decompressor

  /** The length bytes and the distance of a reference whose first byte is before ip. */
  method ReadReference(level: nat, s: seq<byte>, start: nat) returns (len: nat, d: nat, ip: nat)
    requires (level == 1 || level == 2) && start < |s| && s[start] >= 32 && ReadRef(level, s[start..]).Ref?
    ensures start < ip <= |s| && ReadRef(level, s[start..]) == Ref(len, d, ip - start)
  {
    hide Summed;
    var t := s[start..];
    RefMore(level, t, []);
    var ctrl := s[start] as nat;
    ip := start + 1;
    len := ctrl / 32 - 1;
    assert t[1..] == s[ip..];
    if len == 7 - 1 {
      if level == 1 {
        len := len + s[ip] as nat;
        ip := ip + 1;
      } else {
        var n;
        n, ip := ReadLength(s, ip);
        len := len + n;
      }
    }
    assert LengthBytes(level, t) == Sum(len + 1 - ctrl / 32, ip - start - 1);
    var code := s[ip] as nat;
    assert code == t[ip - start];
    ip := ip + 1;
    d := ctrl % 32 * 256 + code + 1;
    if level == 2 && code == 255 && ctrl % 32 == 31 {
      assert s[ip] == t[ip - start] && s[ip + 1] == t[ip - start + 1];
      d := s[ip] as nat * 256 + s[ip + 1] as nat + FAR + 1;
      ip := ip + 2;
    }
    len := len + 3;
  }

  /** do … while (code==255). */
  method ReadLength(s: seq<byte>, at: nat) returns (n: nat, ip: nat)
    requires at <= |s| && Summed(s[at..]).Sum?
    ensures at < ip <= |s| && Summed(s[at..]) == Sum(n, ip - at)
  {
    hide Summed;
    n, ip := 0, at;
    while true
      invariant at <= ip <= |s| && Summed(s[ip..]).Sum?
      invariant Summed(s[at..]) == Sum(n + Summed(s[ip..]).n, ip - at + Summed(s[ip..]).used)
      decreases |s| - ip
    {
      SummedFirst(s, ip);
      var code := s[ip];
      ip := ip + 1;
      n := n + code as nat;
      if code != 255 {
        break;
      }
    }
  }

  lemma SummedFirst(s: seq<byte>, ip: nat)
    requires ip <= |s| && Summed(s[ip..]).Sum?
    ensures ip < |s|
    ensures s[ip] == 255 ==> Summed(s[ip + 1..]).Sum? && Summed(s[ip..]) == Sum(Summed(s[ip + 1..]).n + 255, Summed(s[ip + 1..]).used + 1)
    ensures s[ip] != 255 ==> Summed(s[ip..]) == Sum(s[ip] as nat, 1)
  {
    assert ip < |s| ==> s[ip..][1..] == s[ip + 1..];
  }

  /** A run: one byte again and again. */
  method FillRun(out: array<byte>, op: nat, len: nat)
    requires 1 <= op && op + len <= out.Length
    modifies out
    ensures out[..op + len] == CopyBytes(old(out[..op]), 1, len)
  {
    hide CopyBytes;
    ghost var want := CopyBytes(out[..op], 1, len);
    var b := out[op - 1];
    var i := 0;
    while i < len
      invariant i <= len && out[op + i - 1] == b && CopyBytes(out[..op + i], 1, len - i) == want
    {
      ghost var was := out[..op + i];
      CopyUnfold(was, 1, len - i);
      out[op + i] := b;
      assert out[..op + i + 1] == was + [was[op + i - 1]];
      i := i + 1;
    }
    CopyUnfold(out[..op + i], 1, 0);
  }

  /** Decoding only ever adds. */
  lemma {:induction false} OnlyAdds(level: nat, s: seq<byte>, hist: seq<byte>)
    ensures Decode(level, s, hist).Plain? ==> |hist| <= |Decode(level, s, hist).data|
    decreases |s|
  {
    hide CopyBytes, ReadRef;
    if s != [] {
      if s[0] < 32 {
        if |s| >= s[0] as nat + 2 {
          OnlyAdds(level, s[s[0] as nat + 2..], hist + s[1..s[0] as nat + 2]);
        }
      } else {
        var r := ReadRef(level, s);
        if r.Ref? && 1 <= r.distance <= |hist| && 0 < r.used <= |s| {
          OnlyAdds(level, s[r.used..], CopyBytes(hist, r.distance, r.len));
        }
      }
    }
  }

  /** The result of decompression: the size of the data if it is good and fits, else 0. */
  function Result(d: Decoded, maxout: nat): nat {
    if d.Plain? && |d.data| <= maxout then |d.data| else 0
  }

  /** FASTLZ_DECOMPRESSOR at either level. */
  method DecompressLevel(level: nat, s: seq<byte>, out: array<byte>, maxout: nat) returns (r: nat)
    requires (level == 1 || level == 2) && s != [] && !Decode(level, Unmarked(s), []).Truncated? && maxout <= out.Length
    modifies out
    ensures r == Result(Decode(level, Unmarked(s), []), maxout)
    ensures r > 0 ==> Decode(level, Unmarked(s), []) == Plain(out[..r])
  {
    hide Decode, CopyBytes, ReadRef;
    var u := Unmarked(s);
    ghost var want := Decode(level, u, []);
    var ip: nat, op: nat, ctrl: nat := 1, 0, s[0] as nat % 32;
    assert u[0..] == u && out[..0] == [];
    while true
      invariant 1 <= ip <= |u| && op <= maxout && ctrl == u[ip - 1] as nat
      invariant Decode(level, u[ip - 1..], out[..op]) == want && want != Truncated
      decreases |u| - ip
    {
      ghost var hist := out[..op];
      if ctrl >= 32 {
        RefStep(level, u, ip - 1, hist);
        var len, d;
        len, d, ip := ReadReference(level, u, ip - 1);
        if d <= op {
          OnlyAdds(level, u[ip..], CopyBytes(hist, d, len));
        }
        if op + len > maxout || op < d {
          return 0;
        }
        if d == 1 {
          FillRun(out, op, len);
        } else {
          CopyRef(out, op, d, len);
        }
        op := op + len;
      } else {
        ctrl := ctrl + 1;
        RunStep(level, u, ip - 1, hist, ctrl);
        if ip + ctrl <= |u| {
          OnlyAdds(level, u[ip + ctrl..], hist + u[ip..ip + ctrl]);
        }
        if op + ctrl > maxout || ip + ctrl > |u| {
          return 0;
        }
        CopyRun(u, ip, out, op, ctrl);
        op, ip := op + ctrl, ip + ctrl;
      }
      if ip < |u| {
        ctrl := u[ip];
        ip := ip + 1;
      } else {
        break;
      }
    }
    EndsPlain(level, u[ip..], out[..op]);
    r := op;
  }

  lemma EndsPlain(level: nat, s: seq<byte>, hist: seq<byte>)
    requires s == []
    ensures Decode(level, s, hist) == Plain(hist)
  {
  }

  /** fastlz_decompress: the level is in the first byte. */
  method Decompress(s: seq<byte>, out: array<byte>, maxout: nat) returns (r: nat)
    requires s != [] && maxout <= out.Length
    requires s[0] / 32 + 1 <= 2 ==> !Decode(s[0] / 32 + 1, Unmarked(s), []).Truncated?
    modifies out
    ensures r == if s[0] / 32 + 1 <= 2 then Result(Decode(s[0] / 32 + 1, Unmarked(s), []), maxout) else 0
    ensures r > 0 ==> s[0] / 32 + 1 <= 2 && Packed(s, out[..r])
  {
    hide Decode;
    var level := s[0] / 32 + 1;
    if level == 1 || level == 2 {
      r := DecompressLevel(level, s, out, maxout);
    } else {
      r := 0;
    }
  }

  /** What was compressed at either level decompresses into a buffer of the right size. */
  method ThereAndBack(level: nat, input: seq<byte>, packed: array<byte>, plain: array<byte>) returns (r: nat)
    requires (level == 1 || level == 2) && input != [] && Bound(|input|) <= packed.Length && |input| <= plain.Length && packed != plain
    modifies packed, plain
    ensures r == |input| && plain[..r] == input
  {
    hide Decode, Bound, Unmarked;
    r := CompressLevel(level, input, packed);
    r := Decompress(packed[..r], plain, |input|);
  }
}

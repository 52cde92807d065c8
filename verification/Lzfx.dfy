/** LZFX: literal runs and back-references, and a decompressor that reports the
    size it would have needed when its buffer is too small. */
module Lzfx {
  import opened Bits
  import opened LzfFormat
  import opened Repeats
  import opened Tokens

  const MAX_OFF: nat := 8192
  const MAX_REF: nat := 264
  const HSIZE: nat := 65536

  datatype Sized = Size(n: nat) | BadSize
  datatype Code = Good | ESize | ECorrupt

  /** The size alone, not looking at the references. */
  function SizeOf(s: seq<byte>): Sized
    decreases |s|
  {
    if s == [] then Size(0)
    else if s[0] < 32 then
      if |s| < s[0] as nat + 2 then BadSize else Add(SizeOf(s[s[0] as nat + 2..]), s[0] as nat + 1)
    else
      var r := ReadRef(1, s);
      if r.Ref? && 0 < r.used <= |s| then Add(SizeOf(s[r.used..]), r.len) else BadSize
  }

  function Add(r: Sized, n: nat): Sized {
    if r.Size? then Size(r.n + n) else BadSize
  }

  /** A stream that decodes has the size it decodes to. */
  lemma {:induction false} SizeAgrees(s: seq<byte>, hist: seq<byte>)
    requires Decode(1, s, hist).Plain?
    ensures SizeOf(s).Size? && |Decode(1, s, hist).data| == |hist| + SizeOf(s).n
    decreases |s|
  {
    hide CopyBytes, ReadRef;
    if s != [] {
      if s[0] < 32 {
        SizeAgrees(s[s[0] as nat + 2..], hist + s[1..s[0] as nat + 2]);
      } else {
        var r := ReadRef(1, s);
        SizeAgrees(s[r.used..], CopyBytes(hist, r.distance, r.len));
      }
    }
  }

  /** The bytes of a back-reference of len octets, off + 1 octets back. */
  function RefBytes(off: nat, len: nat): (s: seq<byte>)
    requires off < MAX_OFF && 3 <= len <= MAX_REF
    ensures |s| == if len < 9 then 2 else 3
  {
    if len < 9 then [off / 256 + (len - 2) * 32, off % 256] else [off / 256 + 7 * 32, len - 9, off % 256]
  }

  lemma RefParts(off: nat, len: nat)
    requires off < MAX_OFF && 3 <= len <= MAX_REF
    ensures var t := RefBytes(off, len); t[0] >= 32 && ReadRef(1, t) == Ref(len, off + 1, |t|)
  {
    var a, l := off / 256, if len < 9 then len - 2 else 7;
    assert a < 32 && (a + l * 32) / 32 == l && (a + l * 32) % 32 == a;
  }

  // ---- The compressor

  /** LZFX_IDX on a 32-bit value. */
  function HashIndex(hval: nat): (h: nat)
    ensures h < HSIZE
  {
    (hval / 256 - hval) % HSIZE
  }

  /** LZFX_FRST; past the end of the input the value does not matter. */
  function First(input: seq<byte>, ip: nat): nat {
    if ip + 1 < |input| then input[ip] as nat * 256 + input[ip + 1] as nat else 0
  }

  /** LZFX_NEXT, in 32 bits. */
  function Next(hval: nat, c: nat): nat {
    (hval * 256 + c) % 0x1_0000_0000
  }

  /** The slot of the three bytes at ip. */
  function SlotOf(input: seq<byte>, ip: nat): (h: nat)
    requires ip + 2 < |input|
    ensures h < HSIZE
  {
    HashIndex(input[ip] as nat * 0x1_0000 + input[ip + 1] as nat * 256 + input[ip + 2] as nat)
  }

  /** Older bytes in the hash value do not matter. */
  lemma SlotIs(input: seq<byte>, ip: nat, hval: nat)
    requires ip + 2 < |input| && hval % 0x1_0000 == input[ip] as nat * 256 + input[ip + 1] as nat
    ensures HashIndex(Next(hval, input[ip + 2] as nat)) == SlotOf(input, ip)
    ensures Next(hval, input[ip + 2] as nat) % 0x1_0000 == input[ip + 1] as nat * 256 + input[ip + 2] as nat
  {
    var c := input[ip + 2] as nat;
    NextLow(hval, c);
    IndexLow(Next(hval, c));
  }

  lemma NextLow(hval: nat, c: nat)
    requires c < 256
    ensures Next(hval, c) % 0x100_0000 == hval % 0x1_0000 * 256 + c
    ensures Next(hval, c) % 0x1_0000 == hval % 0x1_0000 % 256 * 256 + c
  {
    var x := hval * 256 + c;
    LowBits(x);
    Low24(hval, c);
    Low16(hval, c);
  }

  lemma Low24(hval: nat, c: nat)
    requires c < 256
    ensures (hval * 256 + c) % 0x100_0000 == hval % 0x1_0000 * 256 + c
  {
    assert hval * 256 + c == hval / 0x1_0000 * 0x100_0000 + (hval % 0x1_0000 * 256 + c);
  }

  lemma Low16(hval: nat, c: nat)
    requires c < 256
    ensures (hval * 256 + c) % 0x1_0000 == hval % 0x1_0000 % 256 * 256 + c
  {
    var low := hval % 0x1_0000;
    assert hval * 256 + c == (hval / 0x1_0000 * 256 + low / 256) * 0x1_0000 + (low % 256 * 256 + c);
  }

  lemma LowBits(x: nat)
    ensures x % 0x1_0000_0000 % 0x100_0000 == x % 0x100_0000
    ensures x % 0x1_0000_0000 % 0x1_0000 == x % 0x1_0000
  {
    var r := x % 0x1_0000_0000;
    assert x == (x / 0x1_0000_0000 * 256 + r / 0x100_0000) * 0x100_0000 + r % 0x100_0000;
    assert x == (x / 0x1_0000_0000 * 0x1_0000 + r / 0x1_0000) * 0x1_0000 + r % 0x1_0000;
  }

  lemma IndexLow(h: nat)
    ensures HashIndex(h) == HashIndex(h % 0x100_0000)
  {
    var q, v := h / 0x100_0000, h % 0x100_0000;
    assert h == q * 0x100_0000 + v && h / 256 == q * 0x1_0000 + v / 256;
    var a: int, b: int := h / 256, v / 256;
    assert a - h == (b - v) + 0x1_0000 * (q - 256 * q);
    SameRemainder(b - v, q - 256 * q);
  }

  lemma SameRemainder(a: int, k: int)
    ensures (a + 0x1_0000 * k) % 0x1_0000 == a % 0x1_0000
  {
  }

  // ---- What is sent, as a function of the input

  /** The three bytes at ip stand at ref as well, near enough but not at the very start, and more are to come. */
  predicate Repeated(input: seq<byte>, ip: nat, ref: int)
    requires ip + 2 < |input|
  {
    && 0 < ref < ip && ip - ref - 1 < MAX_OFF && ip + 4 < |input|
    && input[ref] == input[ip] && input[ref + 1] == input[ip + 1] && input[ref + 2] == input[ip + 2]
  }

  function RefLength(input: seq<byte>, ip: nat, ref: nat): (len: nat)
    requires ref < ip && ip + 4 < |input|
    ensures ip + len + 2 <= |input|
  {
    var n, most := Common(input, ip, ref), if |input| - ip - 2 > MAX_REF then MAX_REF else |input| - ip - 2;
    if n < most then n else most
  }

  /** The literals and copies sent from ip on: a copy wherever the place last entered under the slot of the next
      three bytes begins with them. Every place from which something is sent is entered, and the last of a copy. */
  function Sent(input: seq<byte>, ip: nat, table: seq<int>): seq<Token>
    requires ip <= |input| && |table| == HSIZE
    decreases |input| - ip
  {
    if ip + 2 >= |input| then Literals(input[ip..]) else
      var h := SlotOf(input, ip);
      var ref, entered := table[h], table[h := ip];
      if Repeated(input, ip, ref) then
        var len := RefLength(input, ip, ref);
        RepeatedLength(input, ip, ref);
        var end := ip + len;
        [Copy(ip - ref, len)] + Sent(input, end, entered[SlotOf(input, end - 1) := end - 1])
      else [Literal(input[ip])] + Sent(input, ip + 1, entered)
  }

  lemma RepeatedLength(input: seq<byte>, ip: nat, ref: nat)
    requires ip + 2 < |input| && Repeated(input, ip, ref)
    ensures 3 <= RefLength(input, ip, ref) <= MAX_REF && Agrees(input, ip, ip - ref, RefLength(input, ip, ref))
  {
    hide Common;
    ThreeAgree(input, ip, ip - ref);
    CommonReaches(input, ip, ref, 3);
  }

  lemma SentCopy(input: seq<byte>, ip: nat, table: seq<int>)
    requires ip + 2 < |input| && |table| == HSIZE && Repeated(input, ip, table[SlotOf(input, ip)])
    ensures 0 < table[SlotOf(input, ip)] < ip && ip + 4 < |input|
    ensures var h := SlotOf(input, ip); var ref := table[h];
      var len := RefLength(input, ip, ref);
      var end := ip + len;
      && 3 <= len && end + 2 <= |input|
      && Sent(input, ip, table) == [Copy(ip - ref, len)] + Sent(input, end, table[h := ip][SlotOf(input, end - 1) := end - 1])
  {
    hide SlotOf, RefLength;
    RepeatedLength(input, ip, table[SlotOf(input, ip)]);
    hide Repeated;
  }

  lemma SentLiteral(input: seq<byte>, ip: nat, table: seq<int>)
    requires ip + 2 < |input| && |table| == HSIZE && !Repeated(input, ip, table[SlotOf(input, ip)])
    ensures Sent(input, ip, table) == [Literal(input[ip])] + Sent(input, ip + 1, table[SlotOf(input, ip) := ip])
  {
    hide SlotOf, RefLength, Repeated;
  }

  lemma SentRest(input: seq<byte>, ip: nat, table: seq<int>)
    requires ip <= |input| <= ip + 2 && |table| == HSIZE
    ensures ip < |input| ==> Sent(input, ip, table) == [Literal(input[ip])] + Sent(input, ip + 1, table)
    ensures ip == |input| ==> Sent(input, ip, table) == []
  {
    if ip < |input| {
      assert Literals(input[ip..]) == [Literal(input[ip])] + Literals(input[ip + 1..]);
    }
  }

  /** How far the match goes, starting at the fourth byte. */
  method MatchLength(input: seq<byte>, ip: nat, d: nat) returns (len: nat)
    requires 1 <= d <= ip && ip + 4 < |input| && Agrees(input, ip, d, 3)
    ensures 3 <= len <= MAX_REF && ip + len + 2 <= |input| && Agrees(input, ip, d, len)
    ensures len == RefLength(input, ip, ip - d)
  {
    hide Common;
    var maxlen := if |input| - ip - 2 > MAX_REF then MAX_REF else |input| - ip - 2;
    len := 3;
    while len < maxlen && input[ip + len - d] == input[ip + len]
      invariant 3 <= len <= maxlen && Agrees(input, ip, d, len)
    {
      len := len + 1;
    }
    CommonReaches(input, ip, ip - d, len);
    if len < maxlen {
      CommonIs(input, ip, ip - d, len);
    }
  }

  /** The format of a back-reference, written at op. */
  method WriteRef(out: array<byte>, op: nat, off: nat, len: nat) returns (op': nat)
    requires off < MAX_OFF && 3 <= len <= MAX_REF && op + 3 <= out.Length
    modifies out
    ensures op' == op + |RefBytes(off, len)| && out[..op'] == old(out[..op]) + RefBytes(off, len)
  {
    var l := len - 2;
    op' := op;
    if l < 7 {
      out[op'] := off / 256 + l * 32;
      op' := op' + 1;
    } else {
      out[op'] := off / 256 + 7 * 32;
      out[op' + 1] := l - 7;
      op' := op' + 2;
    }
    out[op'] := off % 256;
    op' := op' + 1;
  }

  /** Close the run in front of op, or take it back when it is empty. */
  method EndRun(out: array<byte>, op: nat, lit: nat, ghost input: seq<byte>, ghost ip: nat, ghost ts: seq<Token>) returns (op': nat)
    requires Open(1, out[..], op, lit, input, ip) && op <= out.Length && Carries(1, out[..], op, lit, ts)
    modifies out
    ensures op' == (if lit == 0 then op - 1 else op) && Closed(1, out[..], op', input, ip)
    ensures op' <= out.Length && Items(1, out[..op']) == ts
  {
    hide Closed, Items, Decode;
    ghost var was := out[..];
    out[op - lit - 1] := if lit == 0 then 255 else lit - 1;
    if lit == 0 {
      op' := op - 1;
      assert out[..][..op - 1] == was[..op - 1];
      UndoRun(1, was, op, input, ip, out[..]);
      CarriesClosed(1, was, op', ts);
    } else {
      op' := op;
      CloseRun(1, was, op, lit, input, ip, out[..]);
      CarriesRun(1, was, op, lit, input, ip, ts, out[..]);
    }
    assert out[..][..op'] == out[..op'];
  }

  /** One literal; a full run is closed and the next one opened. */
  method PutLiteral(out: array<byte>, op: nat, lit: nat, input: seq<byte>, ip: nat, ghost ts: seq<Token>) returns (op': nat, lit': nat)
    requires Open(1, out[..], op, lit, input, ip) && lit < MAX_RUN && op < out.Length && ip < |input|
    requires Carries(1, out[..], op, lit, ts)
    modifies out
    ensures Open(1, out[..], op', lit', input, ip + 1) && lit' < MAX_RUN
    ensures op' == op + (if lit == MAX_RUN - 1 then 2 else 1) && lit' == if lit == MAX_RUN - 1 then 0 else lit + 1
    ensures Carries(1, out[..], op', lit', ts + [Literal(input[ip])])
  {
    hide Carries;
    ghost var was := out[..];
    out[op] := input[ip];
    op', lit' := op + 1, lit + 1;
    OneMore(1, was, op, lit, input, ip, out[..]);
    CarriesMore(1, was, op, lit, ts, input[ip], out[..]);
    hide Open, Closed;
    if lit' == MAX_RUN {
      op' := EndRun(out, op', lit', input, ip + 1, ts + [Literal(input[ip])]);
      OpenRun(1, out[..], op', input, ip + 1);
      CarriesClosed(1, out[..], op', ts + [Literal(input[ip])]);
      op', lit' := op' + 1, 0;
    }
  }

  /** A match of which three bytes are known: its end, its bytes, and the next run. */
  method PutMatch(out: array<byte>, op: nat, lit: nat, input: seq<byte>, ip: nat, off: nat, ghost ts: seq<Token>) returns (op': nat, len: nat)
    requires Open(1, out[..], op, lit, input, ip) && op <= out.Length + 1 && Carries(1, out[..], op, lit, ts)
    requires op - (if lit == 0 then 1 else 0) + 4 < out.Length && off < MAX_OFF && off < ip && ip + 4 < |input|
    requires input[ip - off - 1] == input[ip] && input[ip - off] == input[ip + 1] && input[ip - off + 1] == input[ip + 2]
    modifies out
    ensures 3 <= len && ip + len + 2 <= |input| && Open(1, out[..], op', 0, input, ip + len)
    ensures op' == op + 1 - (if lit == 0 then 1 else 0) + (if len < 9 then 2 else 3)
    ensures len == RefLength(input, ip, ip - off - 1) && Carries(1, out[..], op', 0, ts + [Copy(off + 1, len)])
  {
    hide *;
    var op0 := EndRun(out, op, lit, input, ip, ts);
    ThreeAgree(input, ip, off + 1);
    len := MatchLength(input, ip, off + 1);
    ghost var was := out[..];
    assert was[..op0] == out[..op0];
    op' := WriteRef(out, op0, off, len);
    RefParts(off, len);
    MatchBehind(1, was, op0, input, ip, RefBytes(off, len), off + 1, len, out[..]);
    CarriesMatch(1, was, op0, input, ip, RefBytes(off, len), off + 1, len, out[..]);
    OpenRun(1, out[..], op', input, ip + len);
    CarriesClosed(1, out[..], op', ts + [Copy(off + 1, len)]);
    op' := op' + 1;
  }

  lemma FirstIs(input: seq<byte>, ip: nat)
    ensures ip + 1 < |input| ==> First(input, ip) % 0x1_0000 == input[ip] as nat * 256 + input[ip + 1] as nat
  {
  }

  /** What is in the buffer, and what is still to be sent. */
  ghost predicate OnCourse(out: seq<byte>, op: nat, lit: nat, input: seq<byte>, ip: nat, table: seq<int>, ts: seq<Token>) {
    && ip <= |input| && |table| == HSIZE && Carries(1, out, op, lit, ts)
    && ts + Sent(input, ip, table) == Sent(input, 0, seq(HSIZE, _ => -1))
  }

  lemma CourseStarts(out: seq<byte>, input: seq<byte>, table: seq<int>)
    requires |table| == HSIZE && forall h :: 0 <= h < HSIZE ==> table[h] == -1
    ensures OnCourse(out, 1, 0, input, 0, table, [])
  {
    hide Sent;
    assert table == seq(HSIZE, _ => -1);
    assert [] + Sent(input, 0, table) == Sent(input, 0, table);
    assert out[..0] == [];
  }

  lemma CourseParts(out: seq<byte>, op: nat, lit: nat, input: seq<byte>, ip: nat, table: seq<int>, ts: seq<Token>)
    requires OnCourse(out, op, lit, input, ip, table, ts)
    ensures |table| == HSIZE && Carries(1, out, op, lit, ts)
  {
  }

  lemma CourseGoes(ts: seq<Token>, t: Token, more: seq<Token>, all: seq<Token>)
    requires ts + ([t] + more) == all
    ensures (ts + [t]) + more == all
  {
    assert (ts + [t]) + more == ts + ([t] + more);
  }

  lemma CourseCopy(was: seq<byte>, op: nat, lit: nat, out: seq<byte>, op': nat, input: seq<byte>, ip: nat, table: seq<int>, ts: seq<Token>)
    requires OnCourse(was, op, lit, input, ip, table, ts) && ip + 2 < |input| && Repeated(input, ip, table[SlotOf(input, ip)])
    requires 0 < table[SlotOf(input, ip)] < ip && ip + 4 < |input|
    requires var ref := table[SlotOf(input, ip)]; Carries(1, out, op', 0, ts + [Copy(ip - ref, RefLength(input, ip, ref))])
    ensures var h := SlotOf(input, ip); var ref := table[h];
      var end := ip + RefLength(input, ip, ref);
      && 3 <= end - ip && end + 2 <= |input|
      && OnCourse(out, op', 0, input, end, table[h := ip][SlotOf(input, end - 1) := end - 1], ts + [Copy(ip - ref, end - ip)])
  {
    hide Sent, SlotOf, Repeated, RefLength, Carries;
    SentCopy(input, ip, table);
    var ref := table[SlotOf(input, ip)];
    var end := ip + RefLength(input, ip, ref);
    CourseGoes(ts, Copy(ip - ref, end - ip), Sent(input, end, table[SlotOf(input, ip) := ip][SlotOf(input, end - 1) := end - 1]),
               Sent(input, 0, seq(HSIZE, _ => -1)));
  }

  lemma CourseLiteral(was: seq<byte>, op: nat, lit: nat, out: seq<byte>, op': nat, lit': nat, input: seq<byte>, ip: nat, table: seq<int>, ts: seq<Token>)
    requires OnCourse(was, op, lit, input, ip, table, ts) && ip < |input| && Carries(1, out, op', lit', ts + [Literal(input[ip])])
    requires ip + 2 < |input| ==> !Repeated(input, ip, table[SlotOf(input, ip)])
    ensures ip + 2 < |input| ==> OnCourse(out, op', lit', input, ip + 1, table[SlotOf(input, ip) := ip], ts + [Literal(input[ip])])
    ensures ip + 2 >= |input| ==> OnCourse(out, op', lit', input, ip + 1, table, ts + [Literal(input[ip])])
  {
    hide Sent, SlotOf, Repeated, Carries;
    var all := Sent(input, 0, seq(HSIZE, _ => -1));
    if ip + 2 < |input| {
      SentLiteral(input, ip, table);
      CourseGoes(ts, Literal(input[ip]), Sent(input, ip + 1, table[SlotOf(input, ip) := ip]), all);
    } else {
      SentRest(input, ip, table);
      CourseGoes(ts, Literal(input[ip]), Sent(input, ip + 1, table), all);
    }
  }

  /** Near the end the table no longer matters. */
  lemma CourseNearEnd(out: seq<byte>, op: nat, lit: nat, input: seq<byte>, ip: nat, table: seq<int>, ts: seq<Token>, other: seq<int>)
    requires OnCourse(out, op, lit, input, ip, table, ts) && ip + 2 >= |input| && |other| == HSIZE
    ensures OnCourse(out, op, lit, input, ip, other, ts)
  {
    hide Carries;
  }

  lemma CourseEnds(out: seq<byte>, op: nat, lit: nat, input: seq<byte>, table: seq<int>, ts: seq<Token>)
    requires OnCourse(out, op, lit, input, |input|, table, ts)
    ensures ts == Sent(input, 0, seq(HSIZE, _ => -1)) && Carries(1, out, op, lit, ts)
  {
    hide Carries;
    SentRest(input, |input|, table);
    assert ts + [] == ts;
  }

  /** lzfx_compress with an input and a buffer. A buffer 33/32 times as long as the
      input, and four bytes more, is always large enough. */
  method Compress(input: seq<byte>, out: array<byte>) returns (rc: Code, olen: nat)
    modifies out
    ensures rc == Good || rc == ESize
    ensures rc == Good ==> olen <= out.Length && Decode(1, out[..olen], []) == Plain(input)
    ensures rc == Good ==> Items(1, out[..olen]) == Sent(input, 0, seq(HSIZE, _ => -1))
    ensures 32 * out.Length >= 33 * |input| + 128 ==> rc == Good
  {
    hide *;
    olen := 0;
    var htab := new int[HSIZE](_ => -1);
    var ip: nat, op: nat, lit: nat := 0, 1, 0;
    StartsOpen(1, out[..], input);
    CourseStarts(out[..], input, htab[..]);
    ghost var ts: seq<Token> := [];
    var hval := First(input, 0);
    FirstIs(input, 0);
    while ip + 2 < |input|
      invariant Open(1, out[..], op, lit, input, ip) && lit < MAX_RUN
      invariant 32 * (op - lit - 1) <= 33 * (ip - lit)
      invariant OnCourse(out[..], op, lit, input, ip, htab[..], ts)
      invariant ip + 2 < |input| ==> hval % 0x1_0000 == input[ip] as nat * 256 + input[ip + 1] as nat
      decreases |input| - ip
    {
      OpenBounds(1, out[..], op, lit, input, ip);
      CourseParts(out[..], op, lit, input, ip, htab[..], ts);
      SlotIs(input, ip, hval);
      hval := Next(hval, input[ip + 2]);
      var slot := HashIndex(hval);
      ghost var table, was := htab[..], out[..];
      var ref := htab[slot];
      htab[slot] := ip;
      if Repeated(input, ip, ref) {
        RepeatedIs(input, ip, ref);
        var off := ip - ref - 1;
        var undo := if lit == 0 then 1 else 0;
        if op - undo + 3 + 1 >= out.Length {
          return ESize, 0;
        }
        var len;
        ghost var op0, lit0, ip0 := op, lit, ip;
        op, len := PutMatch(out, op, lit, input, ip, off, ts);
        CourseCopy(was, op0, lit0, out[..], op, input, ip0, table, ts);
        ts := ts + [Copy(off + 1, len)];
        lit := 0;
        ip := ip + len - 1;
        if ip + 3 >= |input| {
          ip := ip + 1;
          CourseNearEnd(out[..], op, 0, input, ip, table[slot := ip0][SlotOf(input, ip - 1) := ip - 1], ts, htab[..]);
          break;
        }
        FirstIs(input, ip);
        SlotIs(input, ip, First(input, ip));
        hval := Next(First(input, ip), input[ip + 2]);
        htab[HashIndex(hval)] := ip;
        ip := ip + 1;
      } else {
        if op >= out.Length {
          return ESize, 0;
        }
        ghost var op0, lit0 := op, lit;
        op, lit := PutLiteral(out, op, lit, input, ip, ts);
        CourseLiteral(was, op0, lit0, out[..], op, lit, input, ip, table, ts);
        ts := ts + [Literal(input[ip])];
        ip := ip + 1;
      }
    }
    OpenBounds(1, out[..], op, lit, input, ip);
    if op + 3 > out.Length {
      return ESize, 0;
    }
    op := PutRest(out, op, lit, input, ip, htab[..], ts);
    return Good, op;
  }

  /** The last one or two bytes. */
  method PutRest(out: array<byte>, op: nat, lit: nat, input: seq<byte>, ip: nat, ghost table: seq<int>, ghost ts: seq<Token>) returns (op': nat)
    requires Open(1, out[..], op, lit, input, ip) && lit < MAX_RUN && ip <= |input| <= ip + 2 && op + 3 <= out.Length
    requires OnCourse(out[..], op, lit, input, ip, table, ts)
    modifies out
    ensures op' <= out.Length && Decode(1, out[..op'], []) == Plain(input)
    ensures Items(1, out[..op']) == Sent(input, 0, seq(HSIZE, _ => -1))
  {
    hide *;
    op' := op;
    var lit': nat, at: nat := lit, ip;
    MaxRun();
    ghost var sent := ts;
    while at < |input|
      invariant Open(1, out[..], op', lit', input, at) && lit' < MAX_RUN && ip <= at <= |input|
      invariant op' + |input| - at + (if lit' + |input| - at >= MAX_RUN then 1 else 0) <= out.Length
      invariant OnCourse(out[..], op', lit', input, at, table, sent)
    {
      ghost var was, op0, lit0 := out[..], op', lit';
      CourseParts(was, op', lit', input, at, table, sent);
      op', lit' := PutLiteral(out, op', lit', input, at, sent);
      CourseLiteral(was, op0, lit0, out[..], op', lit', input, at, table, sent);
      sent := sent + [Literal(input[at])];
      at := at + 1;
    }
    CourseEnds(out[..], op', lit', input, table, sent);
    op' := EndRun(out, op', lit', input, at, sent);
    AllClosed(1, out[..], op', input);
  }

  lemma RepeatedIs(input: seq<byte>, ip: nat, ref: int)
    requires ip + 2 < |input| && Repeated(input, ip, ref)
    ensures 0 < ref < ip && ip - ref - 1 < MAX_OFF && ip + 4 < |input|
    ensures input[ref] == input[ip] && input[ref + 1] == input[ip + 1] && input[ref + 2] == input[ip + 2]
  {
  }

  lemma ThreeAgree(input: seq<byte>, ip: nat, d: nat)
    requires 1 <= d <= ip && ip + 2 < |input|
    requires input[ip - d] == input[ip] && input[ip - d + 1] == input[ip + 1] && input[ip - d + 2] == input[ip + 2]
    ensures Agrees(input, ip, d, 3)
  {
    forall i | ip <= i < ip + 3 ensures input[i] == input[i - d] {
      assert i == ip || i == ip + 1 || i == ip + 2;
    }
  }

  // ---- The decompressor

  lemma SizeRun(s: seq<byte>, ip: nat, n: nat)
    requires ip < |s| && s[ip] < 32 && n == s[ip] as nat + 1
    ensures ip + n + 1 > |s| ==> SizeOf(s[ip..]).BadSize?
    ensures ip + n + 1 <= |s| ==> SizeOf(s[ip..]) == Add(SizeOf(s[ip + n + 1..]), n)
  {
    if ip + n + 1 <= |s| {
      assert s[ip..][n + 1..] == s[ip + n + 1..];
    }
  }

  lemma SizeRef(s: seq<byte>, ip: nat)
    requires ip < |s| && s[ip] >= 32
    ensures var r := ReadRef(1, s[ip..]);
      && (r.NoRef? ==> SizeOf(s[ip..]).BadSize?)
      && (r.Ref? ==> 2 <= r.used <= |s| - ip && SizeOf(s[ip..]) == Add(SizeOf(s[ip + r.used..]), r.len))
  {
    hide ReadRef;
    var r := ReadRef(1, s[ip..]);
    if r.Ref? {
      RefMore(1, s[ip..], []);
      assert s[ip..][r.used..] == s[ip + r.used..];
    }
  }

  /** The length in a control byte and, if need be, the byte behind it, which may lie
      past the end; it does not matter then. */
  method RefControl(s: seq<byte>, ip: nat) returns (len: nat, at: nat)
    requires ip < |s| && s[ip] >= 32
    ensures len >= 2 && at == ip + (if len >= 9 then 2 else 1)
    ensures ReadRef(1, s[ip..]) == if at < |s| then Ref(len, s[ip] as nat % 32 * 256 + s[at] as nat + 1, at + 1 - ip) else NoRef
  {
    len, at := s[ip] / 32, ip + 1;
    if len == 7 {
      var next :| 0 <= next < 256;
      len := len + if at < |s| then s[at] else next;
      at := at + 1;
    }
    len := len + 2;
  }

  /** lzfx_getsize. */
  method GetSize(s: seq<byte>) returns (rc: Code, olen: nat)
    ensures rc == Good || rc == ECorrupt
    ensures rc == Good ==> SizeOf(s) == Size(olen)
    ensures rc == ECorrupt ==> SizeOf(s).BadSize?
  {
    hide Decode, SizeOf, CopyBytes, ReadRef;
    var ip: nat, total: nat := 0, 0;
    assert s[0..] == s;
    while ip < |s|
      invariant ip <= |s| && SizeOf(s) == Add(SizeOf(s[ip..]), total)
    {
      var ctrl := s[ip] as nat;
      if ctrl < 32 {
        SizeRun(s, ip, ctrl + 1);
        if ip + 1 + ctrl + 1 > |s| {
          return ECorrupt, 0;
        }
        total := total + ctrl + 1;
        ip := ip + 1 + ctrl + 1;
      } else {
        SizeRef(s, ip);
        var len, at := RefControl(s, ip);
        if at >= |s| {
          return ECorrupt, 0;
        }
        ip := at + 1;
        total := total + len;
      }
    }
    EmptySize(s[ip..]);
    return Good, total;
  }

  lemma EmptySize(s: seq<byte>)
    requires s == []
    ensures SizeOf(s) == Size(0)
    ensures forall hist: seq<byte> :: Decode(1, s, hist) == Plain(hist)
  {
  }

  /** The buffer is full: what is decoded, and the size of the rest from its control byte on. */
  method Guess(s: seq<byte>, ip: nat, op: nat) returns (rc: Code, olen: nat)
    requires ip <= |s|
    ensures rc == Good || rc == ECorrupt
    ensures rc == Good ==> Add(SizeOf(s[ip..]), op) == Size(olen)
    ensures rc == ECorrupt ==> SizeOf(s[ip..]).BadSize?
  {
    hide SizeOf;
    rc, olen := GetSize(s[ip..]);
    if rc == Good {
      olen := olen + op;
    }
  }

  /** lzfx_decompress with an input that is not empty. A stream that decodes is decoded
      if it fits, and otherwise the size it needs is reported. */
  method Decompress(s: seq<byte>, out: array<byte>) returns (rc: Code, olen: nat)
    requires s != []
    modifies out
    ensures rc == Good || rc == ECorrupt
    ensures Decode(1, s, []).Plain? ==> rc == Good && olen == |Decode(1, s, []).data|
    ensures rc == Good ==> SizeOf(s) == Size(olen)
    ensures rc == Good && olen <= out.Length ==> Decode(1, s, []) == Plain(out[..olen])
  {
    hide Decode, SizeOf, CopyBytes, ReadRef;
    var ip: nat, op: nat := 0, 0;
    ghost var want, size := Decode(1, s, []), SizeOf(s);
    if want.Plain? {
      SizeAgrees(s, []);
    }
    assert s[0..] == s && out[..0] == [];
    while true
      invariant ip < |s| && op <= out.Length
      invariant Decode(1, s[ip..], out[..op]) == want && size == Add(SizeOf(s[ip..]), op)
      decreases |s| - ip
    {
      var ctrl := s[ip] as nat;
      var start := ip;
      ghost var hist := out[..op];
      ip := ip + 1;
      if ctrl < 32 {
        ctrl := ctrl + 1;
        RunStep(1, s, start, hist, ctrl);
        SizeRun(s, start, ctrl);
        if op + ctrl > out.Length {
          rc, olen := Guess(s, start, op);
          return;
        }
        if ip + ctrl > |s| {
          return ECorrupt, 0;
        }
        CopyRun(s, ip, out, op, ctrl);
        op, ip := op + ctrl, ip + ctrl;
      } else {
        RefStep(1, s, start, hist);
        SizeRef(s, start);
        var len;
        len, ip := RefControl(s, start);
        if op + len > out.Length {
          ip := ip - if len >= 9 then 2 else 1;
          rc, olen := Guess(s, ip, op);
          return;
        }
        if ip >= |s| {
          return ECorrupt, 0;
        }
        var d := ctrl % 32 * 256 + s[ip] as nat + 1;
        ip := ip + 1;
        if d > op {
          return ECorrupt, 0;
        }
        CopyRef(out, op, d, len);
        op := op + len;
      }
      if ip >= |s| {
        break;
      }
    }
    EmptySize(s[ip..]);
    return Good, op;
  }

  /** LZFX_c, then LZFX_d on what it wrote: the input comes back if the second buffer
      holds it, and its size is reported in any case. */
  method ThereAndBack(input: seq<byte>, packed: array<byte>, plain: array<byte>) returns (rc: Code, olen: nat)
    requires input != [] && packed != plain
    modifies packed, plain
    ensures 32 * packed.Length >= 33 * |input| + 128 ==> rc == Good
    ensures rc == Good ==> olen == |input| && (|input| <= plain.Length ==> plain[..|input|] == input)
  {
    rc, olen := Compress(input, packed);
    if rc == Good {
      rc, olen := Decompress(packed[..olen], plain);
    }
  }
}

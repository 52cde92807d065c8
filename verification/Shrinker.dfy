/** Shrinker: literal runs and matches copied eight bytes at a time. Every match is
    verified, so what the hash table held before never leads astray; but it is not cleared,
    and which matches are found depends on it. */
module Shrinker {
  import opened Bits
  import opened Lengths
  import opened Repeats
  import opened Tokens

  const MINMATCH: nat := 4
  const MIN_SIZE: nat := 32
  const MAX_SIZE: nat := 0x7ff_ffff
  const HASHES: nat := 0x8000

  type u32 = x: int | 0 <= x < 0x1_0000_0000

  // ---- The format

  /** A run of literals and the match behind it. */
  datatype Command = Command(literals: seq<byte>, distance: nat, len: nat)

  predicate Fits(c: Command) {
    1 <= c.distance <= 0xffff && c.len >= MINMATCH
  }

  predicate AllFit(cs: seq<Command>) {
    forall j :: 0 <= j < |cs| ==> Fits(cs[j])
  }

  function Least(a: nat, b: nat): nat {
    if a < b then a else b
  }

  /** What does not fit into a field of the flag byte follows. */
  function Extension(n: nat, field: nat): (b: seq<byte>)
    ensures |b| == if n < field then 0 else (n - field) / 255 + 1
  {
    if n < field then [] else Tail(n - field)
  }

  function DistanceBytes(d: nat): (b: seq<byte>)
    requires 1 <= d <= 0x1_0000
    ensures |b| == if d > 0x100 then 2 else 1
  {
    if d > 0x100 then [(d - 1) % 256, (d - 1) / 256] else [d - 1]
  }

  function Flag(literals: nat, low: nat): byte
    requires low < 32
  {
    Least(literals, 7) * 32 + low
  }

  function MatchField(c: Command): (low: nat)
    requires Fits(c)
    ensures low < 32
  {
    Least(c.len - MINMATCH, 15) + if c.distance > 0x100 then 16 else 0
  }

  function CommandBytes(c: Command): (b: seq<byte>)
    requires Fits(c)
    ensures |b| > 0
  {
    [Flag(|c.literals|, MatchField(c))] + Extension(|c.literals|, 7) + Extension(c.len - MINMATCH, 15)
    + DistanceBytes(c.distance) + c.literals
  }

  /** The last run of literals; a distance that no match has tells it apart. */
  function EndBytes(literals: seq<byte>): seq<byte> {
    [Flag(|literals|, 7 + 16)] + Extension(|literals|, 7) + [0xff, 0xff] + literals
  }

  function Bytes(cs: seq<Command>): seq<byte>
    requires AllFit(cs)
  {
    if cs == [] then [] else CommandBytes(cs[0]) + Bytes(cs[1..])
  }

  /** Where the commands lead to. */
  function EndOf(cs: seq<Command>, i: nat): (j: nat)
    ensures j >= i
    decreases |cs|
  {
    if cs == [] then i else EndOf(cs[1..], i + |cs[0].literals| + cs[0].len)
  }

  ghost predicate CommandAt(c: Command, data: seq<byte>, i: nat) {
    && Fits(c) && i + |c.literals| <= |data| && data[i..i + |c.literals|] == c.literals
    && Agrees(data, i + |c.literals|, c.distance, c.len)
  }

  ghost predicate Spells(cs: seq<Command>, data: seq<byte>, i: nat)
    decreases |cs|
  {
    cs == [] || (CommandAt(cs[0], data, i) && Spells(cs[1..], data, i + |cs[0].literals| + cs[0].len))
  }

  /** Commands that spell out the data up to its last bytes, at least eight. */
  ghost predicate Chosen(cs: seq<Command>, data: seq<byte>) {
    AllFit(cs) && Spells(cs, data, 0) && EndOf(cs, 0) + 8 <= |data|
  }

  /** The commands, and the literals after the last of them. */
  function Stream(cs: seq<Command>, data: seq<byte>): seq<byte>
    requires AllFit(cs) && EndOf(cs, 0) <= |data|
  {
    Bytes(cs) + EndBytes(data[EndOf(cs, 0)..])
  }

  /** The stream of such commands. */
  ghost predicate Packs(s: seq<byte>, cs: seq<Command>, data: seq<byte>) {
    Chosen(cs, data) && s == Stream(cs, data)
  }

  lemma AppendToNone(c: Command, data: seq<byte>, i: nat)
    requires CommandAt(c, data, i)
    ensures AllFit([c]) && Spells([c], data, i) && Bytes([c]) == CommandBytes(c) && EndOf([c], i) == i + |c.literals| + c.len
  {
    hide CommandBytes, Agrees;
    assert [c][1..] == [] && Bytes([c]) == CommandBytes(c) + Bytes([]);
  }

  lemma {:induction false} Append(cs: seq<Command>, c: Command, data: seq<byte>, i: nat)
    requires AllFit(cs) && Spells(cs, data, i) && CommandAt(c, data, EndOf(cs, i))
    ensures AllFit(cs + [c]) && Spells(cs + [c], data, i) && Bytes(cs + [c]) == Bytes(cs) + CommandBytes(c)
    ensures EndOf(cs + [c], i) == EndOf(cs, i) + |c.literals| + c.len
    decreases |cs|
  {
    hide CommandBytes, Fits, Agrees;
    FitsOf(c, data, EndOf(cs, i));
    if cs == [] {
      AppendToNone(c, data, i);
      assert cs + [c] == [c] && Bytes(cs) + CommandBytes(c) == CommandBytes(c);
    } else {
      assert (cs + [c])[1..] == cs[1..] + [c];
      Append(cs[1..], c, data, i + |cs[0].literals| + cs[0].len);
    }
  }

  lemma FitsOf(c: Command, data: seq<byte>, i: nat)
    requires CommandAt(c, data, i)
    ensures Fits(c)
  {
  }

  // ---- Copying eight bytes at a time

  /** One unaligned 64-bit store. */
  method Store(out: array<byte>, a: nat, word: seq<byte>)
    requires |word| == 8 && a + 8 <= out.Length
    modifies out
    ensures forall k :: 0 <= k < out.Length ==> out[k] == if a <= k < a + 8 then word[k - a] else old(out[k])
  {
    forall k | 0 <= k < 8 {
      out[a + k] := word[k];
    }
  }

  /** How many bytes are copied in words where n are asked for: at least one word. */
  function Words(n: nat): (w: nat)
    ensures 8 <= w && n <= w <= n + 8
    ensures forall i: nat :: i % 8 == 0 && (i == 0 || i < n) ==> i + 8 <= w
  {
    if n == 0 then 8 else (n + 7) / 8 * 8
  }

  /** MEMCPY_NOOVERLAP out of another buffer: at least one word, up to eight bytes too many. */
  method CopyWords(from: seq<byte>, b: nat, c: nat, out: array<byte>, a: nat) returns (end: nat)
    requires b <= c && c + 8 <= |from| && a + Words(c - b) <= out.Length
    modifies out
    ensures end == a + Words(c - b)
    ensures out[..a + (c - b)] == old(out[..a]) + from[b..c]
    ensures out[end..] == old(out[end..])
  {
    var i := 0;
    while true
      invariant i % 8 == 0 && (i == 0 || b + i < c) && i + 8 <= Words(c - b)
      invariant forall k :: 0 <= k < out.Length && k < a + i ==> out[k] == if a <= k then from[b + (k - a)] else old(out[k])
      invariant forall k :: 0 <= k < out.Length && a + Words(c - b) <= k ==> out[k] == old(out[k])
      decreases c - b + 8 - i
    {
      Store(out, a + i, from[b + i..b + i + 8]);
      i := i + 8;
      if b + i >= c {
        break;
      }
    }
    end := a + i;
    Joined(out[..], old(out[..]), a, from, b, c);
  }

  lemma SameTail(a: seq<byte>, b: seq<byte>, from: nat, at: nat)
    requires |a| == |b| && from <= at <= |a| && a[from..] == b[from..]
    ensures a[at..] == b[at..]
  {
    assert a[at..] == a[from..][at - from..] && b[at..] == b[from..][at - from..];
  }

  lemma Joined(now: seq<byte>, was: seq<byte>, a: nat, from: seq<byte>, b: nat, c: nat)
    requires b <= c <= |from| && a <= |was| && a + (c - b) <= |now|
    requires forall k :: 0 <= k < a ==> now[k] == was[k]
    requires forall k :: a <= k < a + (c - b) ==> now[k] == from[b + (k - a)]
    ensures now[..a + (c - b)] == was[..a] + from[b..c]
  {
  }

  /** MEMCPY_NOOVERLAP_NOSURPASS: words as long as they fit, then bytes. */
  method CopyExactly(from: seq<byte>, b: nat, c: nat, out: array<byte>, a: nat)
    requires b <= c <= |from| && a + (c - b) <= out.Length
    modifies out
    ensures out[..a + (c - b)] == old(out[..a]) + from[b..c]
    ensures out[a + (c - b)..] == old(out[a + (c - b)..])
  {
    var i := 0;
    while b + i < c - 8
      invariant b + i <= c
      invariant forall k :: 0 <= k < out.Length && (k < a + i || a + (c - b) <= k) ==>
        out[k] == if a <= k < a + i then from[b + (k - a)] else old(out[k])
    {
      Store(out, a + i, from[b + i..b + i + 8]);
      i := i + 8;
    }
    while b + i < c
      invariant b + i <= c
      invariant forall k :: 0 <= k < out.Length && (k < a + i || a + (c - b) <= k) ==>
        out[k] == if a <= k < a + i then from[b + (k - a)] else old(out[k])
    {
      out[a + i] := from[b + i];
      i := i + 1;
    }
  }

  /** MEMCPY_NOOVERLAP inside the buffer: a word is never read before it is there. */
  method WordsWithin(out: array<byte>, a: nat, b: nat, n: nat)
    requires b + 8 < a && a + n + 8 <= out.Length && n > 0
    modifies out
    ensures forall k :: 0 <= k < out.Length && (k < a || a + n + 8 <= k) ==> out[k] == old(out[k])
    ensures forall k :: a <= k < a + n ==> out[k] == out[k - (a - b)]
  {
    var i := 0;
    while true
      invariant i < n
      invariant forall k :: 0 <= k < out.Length && (k < a || a + n + 8 <= k) ==> out[k] == old(out[k])
      invariant forall k :: a <= k < a + i ==> out[k] == out[k - (a - b)]
      decreases n - i
    {
      Store(out, a + i, out[b + i..b + i + 8]);
      i := i + 8;
      if b + i >= b + n {
        break;
      }
    }
  }

  /** MEMCPY inside the buffer: words if the two places are more than eight bytes apart,
      else bytes; in both cases the same as copying byte by byte. */
  method CopyWithin(out: array<byte>, a: nat, b: nat, n: nat)
    requires b < a && a + n + 8 <= out.Length && n > 0
    modifies out
    ensures out[..a + n] == CopyBytes(old(out[..a]), a - b, n)
    ensures out[a + n + 8..] == old(out[a + n + 8..])
  {
    if a > b + 8 {
      WordsWithin(out, a, b, n);
    } else {
      var i := 0;
      while i < n
        invariant i <= n
        invariant forall k :: 0 <= k < out.Length && (k < a || a + n + 8 <= k) ==> out[k] == old(out[k])
        invariant forall k :: a <= k < a + i ==> out[k] == out[k - (a - b)]
      {
        out[a + i] := out[b + i];
        i := i + 1;
      }
    }
    PeriodIsCopy(old(out[..a]), out[..a + n], a - b, n);
  }

  /** Repeating with a period is what copying byte by byte does. */
  lemma {:induction false} PeriodIsCopy(hist: seq<byte>, all: seq<byte>, d: nat, n: nat)
    requires 1 <= d <= |hist| && |all| == |hist| + n && hist <= all
    requires forall k :: |hist| <= k < |all| ==> all[k] == all[k - d]
    ensures all == CopyBytes(hist, d, n)
    decreases n
  {
    if n > 0 {
      var more := hist + [hist[|hist| - d]];
      assert more <= all;
      PeriodIsCopy(more, all, d, n - 1);
    }
  }

  // ---- What the compressor finds

  /** HASH. */
  function Hash(a: nat): (h: nat)
    ensures h < HASHES
  {
    a * 21788233 % 0x1_0000_0000 / 0x2_0000
  }

  function Le32(b: seq<byte>, at: nat): nat
    requires at + 4 <= |b|
  {
    b[at] as nat + 0x100 * b[at + 1] as nat + 0x1_0000 * b[at + 2] as nat + 0x100_0000 * b[at + 3] as nat
  }

  /** A table entry: the place, and five bits of the byte there. */
  function Entry(at: nat, b: byte): u32
    requires at < 0x800_0000
  {
    at + b % 32 * 0x800_0000
  }

  type Table = t: seq<u32> | |t| == HASHES witness seq(HASHES, _ => 0)

  function Slot(input: seq<byte>, at: nat): (h: nat)
    requires at + 4 <= |input|
    ensures h < HASHES
  {
    Hash(Le32(input, at))
  }

  /** Where the table says these four bytes were last. */
  function Place(t: Table, input: seq<byte>, at: nat): nat
    requires at + 4 <= |input|
  {
    t[Slot(input, at)] % 0x800_0000
  }

  /** They were: the five bits fit, the place lies behind and not too far, and the bytes agree. */
  predicate Matches(t: Table, input: seq<byte>, at: nat)
    requires at + 4 <= |input|
  {
    var find := Place(t, input, at);
    && t[Slot(input, at)] / 0x800_0000 == input[at] % 32
    && find + 0xffff >= at && find < at && input[find..find + 4] == input[at..at + 4]
  }

  function Learn(t: Table, input: seq<byte>, at: nat): Table
    requires at + 4 <= |input| <= MAX_SIZE
  {
    t[Slot(input, at) := Entry(at, input[at])]
  }

  /** Words are compared up to the first multiple of four that leaves twelve bytes or fewer. */
  function Stop(input: seq<byte>, at: nat): nat
    requires at + 12 < |input|
  {
    (|input| - 12 - at + 3) / 4 * 4
  }

  /** All that agrees, but no more than a byte beyond that. */
  function MatchLen(input: seq<byte>, at: nat, find: nat): nat
    requires find < at && at + 12 < |input|
  {
    Least(Common(input, at, find), Stop(input, at) + 1)
  }

  /** The literals since last and the match at at. */
  function Found(t: Table, input: seq<byte>, last: nat, at: nat): Command
    requires last <= at && at + 12 < |input| && Matches(t, input, at)
  {
    Command(input[last..at], at - Place(t, input, at), MatchLen(input, at, Place(t, input, at)))
  }

  lemma FoundFits(t: Table, input: seq<byte>, last: nat, at: nat)
    requires last <= at && at + 12 < |input| && Matches(t, input, at)
    ensures var c := Found(t, input, last, at);
      CommandAt(c, input, last) && Fits(c) && c.len >= 4 && at + c.len + 8 <= |input|
  {
    hide Hash, Le32, Common, Agrees;
    var find := Place(t, input, at);
    AgreesMore(input, at, find, 0, 4);
    CommonReaches(input, at, find, 4);
    AgreesLess(input, at, at - find, Common(input, at, find), MatchLen(input, at, find));
  }

  lemma AgreesLess(input: seq<byte>, at: nat, d: nat, n: nat, less: nat)
    requires Agrees(input, at, d, n) && less <= n
    ensures Agrees(input, at, d, less)
  {
  }

  lemma AgreesMore(input: seq<byte>, src: nat, find: nat, len: nat, n: nat)
    requires find < src && src + len + n <= |input| && (len == 0 || Agrees(input, src, src - find, len))
    requires input[find + len..find + len + n] == input[src + len..src + len + n]
    ensures Agrees(input, src, src - find, len + n)
  {
    forall i | src <= i < src + len + n ensures input[i] == input[i - (src - find)] {
      if i >= src + len {
        var j := i - src - len;
        assert input[find + len..find + len + n][j] == input[src + len..src + len + n][j];
      }
    }
  }

  /** What a match enters into the table: where it begins, and two places in it. */
  function LearnMatch(t: Table, input: seq<byte>, at: nat): Table
    requires at + 7 <= |input| <= MAX_SIZE
  {
    Learn(Learn(Learn(t, input, at), input, at + 1), input, at + 3)
  }

  /** The commands found from at on, with literals since last and n bytes written so far. */
  function Search(t: Table, input: seq<byte>, last: nat, at: nat, n: nat): seq<Command>
    requires last <= at && at + 8 <= |input| <= MAX_SIZE
    decreases |input| - at
  {
    if at + 12 >= |input| || n + 12 >= |input| then []
    else if Matches(t, input, at) then
      FoundFits(t, input, last, at);
      var c := Found(t, input, last, at);
      [c] + Search(LearnMatch(t, input, at), input, at + c.len, at + c.len, n + |CommandBytes(c)|)
    else Search(Learn(t, input, at), input, last, at + 1, n)
  }

  /** The commands for an input, if this is what the table happens to hold at first. */
  function Commands(input: seq<byte>, held: Table): (cs: seq<Command>)
    requires MIN_SIZE <= |input| <= MAX_SIZE
    ensures Chosen(cs, input)
  {
    SearchSpells(held, input, 0, 0, 0);
    Search(held, input, 0, 0, 0)
  }

  lemma {:induction false} SearchSpells(t: Table, input: seq<byte>, last: nat, at: nat, n: nat)
    requires last <= at && at + 8 <= |input| <= MAX_SIZE
    ensures var cs := Search(t, input, last, at, n);
      AllFit(cs) && Spells(cs, input, last) && EndOf(cs, last) + 8 <= |input|
    decreases |input| - at
  {
    hide Matches, Found, Learn, LearnMatch, CommandBytes, CommandAt, Fits;
    if at + 12 >= |input| || n + 12 >= |input| {
    } else if Matches(t, input, at) {
      FoundFits(t, input, last, at);
      FoundParts(t, input, last, at);
      var c := Found(t, input, last, at);
      var more := Search(LearnMatch(t, input, at), input, at + c.len, at + c.len, n + |CommandBytes(c)|);
      SearchSpells(LearnMatch(t, input, at), input, at + c.len, at + c.len, n + |CommandBytes(c)|);
      assert ([c] + more)[1..] == more;
    } else {
      SearchSpells(Learn(t, input, at), input, last, at + 1, n);
    }
  }

  lemma FoundParts(t: Table, input: seq<byte>, last: nat, at: nat)
    requires last <= at && at + 12 < |input| && Matches(t, input, at)
    ensures last + |Found(t, input, last, at).literals| == at
  {
  }

  // ---- The compressor

  /** A flag byte is reserved at at; what follows it is written first. */
  ghost predicate Behind(out: seq<byte>, at: nat, dst: nat, before: seq<byte>, b: seq<byte>) {
    at < dst <= |out| && out[..at] == before && out[at + 1..dst] == b
  }

  lemma BehindMore(out: seq<byte>, at: nat, dst: nat, before: seq<byte>, b: seq<byte>, out': seq<byte>, more: seq<byte>)
    requires Behind(out, at, dst, before, b) && dst + |more| <= |out'| && out'[..dst + |more|] == out[..dst] + more
    ensures Behind(out', at, dst + |more|, before, b + more)
  {
    var all := out'[..dst + |more|];
    assert all[..at] == out[..dst][..at] && all[at + 1..] == out[..dst][at + 1..] + more;
  }

  lemma BehindFlag(out: seq<byte>, at: nat, dst: nat, before: seq<byte>, b: seq<byte>)
    requires Behind(out, at, dst, before, b)
    ensures out[..dst] == before + [out[at]] + b
  {
    assert out[..dst] == out[..at] + [out[at]] + out[at + 1..dst];
  }

  method WriteExtension(out: array<byte>, at: nat, dst: nat, n: nat, field: nat, ghost before: seq<byte>, ghost b: seq<byte>) returns (dst': nat)
    requires Behind(out[..], at, dst, before, b) && dst + |Extension(n, field)| <= out.Length
    modifies out
    ensures dst' == dst + |Extension(n, field)| && Behind(out[..], at, dst', before, b + Extension(n, field))
    ensures out[dst'..] == old(out[dst'..])
  {
    hide Behind, Tail;
    ghost var was := out[..];
    BehindBound(was, at, dst, before, b);
    if n < field {
      dst' := dst;
      assert b + [] == b;
    } else {
      dst' := WriteTail(out, dst, n - field);
      BehindMore(was, at, dst, before, b, out[..], Tail(n - field));
    }
  }

  lemma BehindBound(out: seq<byte>, at: nat, dst: nat, before: seq<byte>, b: seq<byte>)
    requires Behind(out, at, dst, before, b)
    ensures at < dst <= |out|
  {
  }

  method WriteDistance(out: array<byte>, at: nat, dst: nat, d: nat, ghost before: seq<byte>, ghost b: seq<byte>) returns (dst': nat)
    requires 1 <= d <= 0xffff && Behind(out[..], at, dst, before, b) && dst + 2 <= out.Length && out[at] < 240
    requires out[at] as nat / 16 % 2 == 0
    modifies out
    ensures dst' == dst + |DistanceBytes(d)| && Behind(out[..], at, dst', before, b + DistanceBytes(d))
    ensures out[dst'..] == old(out[dst'..])
    ensures out[at] == old(out[at]) + if d > 0x100 then 16 else 0
  {
    ghost var was := out[..];
    var dist := d - 1;
    out[dst] := dist % 256;
    dst' := dst + 1;
    if dist > 0xff {
      out[at] := out[at] + 16;
      out[dst'] := dist / 256;
      dst' := dst' + 1;
    }
    assert out[at + 1..dst'] == was[at + 1..dst] + DistanceBytes(d);
  }

  lemma CommandSize(c: Command)
    requires Fits(c)
    ensures |CommandBytes(c)| == 1 + |Extension(|c.literals|, 7)| + |Extension(c.len - MINMATCH, 15)| + |DistanceBytes(c.distance)| + |c.literals|
    ensures 255 * |CommandBytes(c)| <= 256 * |c.literals| + 255 * c.len
  {
    hide Extension, DistanceBytes, Flag, MatchField;
  }

  /** What precedes the literals; the flag byte is completed last. */
  method WriteHeader(literals: nat, len: nat, distance: nat, out: array<byte>, dst: nat, ghost c: Command) returns (dst': nat)
    requires Fits(c) && literals == |c.literals| && len == c.len && distance == c.distance
    requires dst + |CommandBytes(c)| - literals + 8 <= out.Length
    modifies out
    ensures dst' + literals == dst + |CommandBytes(c)| && out[dst'..] == old(out[dst'..])
    ensures out[..dst'] == old(out[..dst]) + [Flag(literals, MatchField(c))]
                        + ([] + Extension(literals, 7) + Extension(len - MINMATCH, 15) + DistanceBytes(distance))
  {
    hide Behind, Extension, DistanceBytes, CommandBytes, Flag, MatchField;
    CommandSize(c);
    ghost var before, was := out[..dst], out[..];
    var m := len - MINMATCH;
    dst' := dst + 1;
    BehindNothing(out[..], dst, before);
    dst' := WriteExtension(out, dst, dst', literals, 7, before, []);
    ghost var step, at := out[..], dst';
    dst' := WriteExtension(out, dst, dst', m, 15, before, [] + Extension(literals, 7));
    SameTail(step, was, at, dst');
    ghost var exts := [] + Extension(literals, 7) + Extension(m, 15);
    var flag := (if literals < 7 then literals * 32 else 7 * 32) + if m < 15 then m else 15;
    BehindSet(out[..], dst, dst', before, exts, flag);
    out[dst] := flag;
    FlagParts(c, flag);
    step, at := out[..], dst';
    assert step[at..] == was[at..];
    dst' := WriteDistance(out, dst, dst', distance, before, exts);
    SameTail(step, was, at, dst');
    BehindFlag(out[..], dst, dst', before, exts + DistanceBytes(distance));
  }

  /** A command: its header, then the literals word by word, the last word up to top. */
  method WriteCommand(input: seq<byte>, from: nat, src: nat, len: nat, distance: nat, out: array<byte>, dst: nat, ghost c: Command)
    returns (dst': nat, top: nat)
    requires from <= src && src + 8 <= |input| && c == Command(input[from..src], distance, len) && Fits(c)
    requires dst + |CommandBytes(c)| + Beyond(c) <= out.Length
    modifies out
    ensures dst' == dst + |CommandBytes(c)| && out[..dst'] == old(out[..dst]) + CommandBytes(c)
    ensures top == dst' + Beyond(c) && out[top..] == old(out[top..])
  {
    hide Extension, DistanceBytes, CommandBytes, Flag, MatchField;
    ghost var before, was := out[..dst], out[..];
    CommandSize(c);
    dst' := WriteHeader(src - from, len, distance, out, dst, c);
    ghost var mid := out[..];
    top := CopyWords(input, from, src, out, dst');
    SameTail(was, mid, dst', top);
    dst' := dst' + (src - from);
    CommandIs(c, out[..dst'], before, [] + Extension(src - from, 7) + Extension(len - MINMATCH, 15) + DistanceBytes(distance));
  }

  /** How far writing a command goes beyond its end. */
  function Beyond(c: Command): nat {
    Words(|c.literals|) - |c.literals|
  }

  lemma BehindNothing(out: seq<byte>, at: nat, before: seq<byte>)
    requires at < |out| && out[..at] == before
    ensures Behind(out, at, at + 1, before, [])
  {
  }

  lemma BehindSet(out: seq<byte>, at: nat, dst: nat, before: seq<byte>, b: seq<byte>, flag: byte)
    requires Behind(out, at, dst, before, b)
    ensures at < |out| && Behind(out[at := flag], at, dst, before, b)
  {
  }

  lemma FlagParts(c: Command, flag: nat)
    requires Fits(c)
    requires flag == (if |c.literals| < 7 then |c.literals| * 32 else 7 * 32) + if c.len - MINMATCH < 15 then c.len - MINMATCH else 15
    ensures flag < 240 && flag / 16 % 2 == 0
    ensures Flag(|c.literals|, MatchField(c)) as nat == flag + if c.distance > 0x100 then 16 else 0
  {
  }

  lemma CommandIs(c: Command, all: seq<byte>, before: seq<byte>, b: seq<byte>)
    requires Fits(c) && b == [] + Extension(|c.literals|, 7) + Extension(c.len - MINMATCH, 15) + DistanceBytes(c.distance)
    requires all == before + [Flag(|c.literals|, MatchField(c))] + b + c.literals
    ensures all == before + CommandBytes(c)
  {
    hide Extension, DistanceBytes, Flag, MatchField;
    assert [] + Extension(|c.literals|, 7) == Extension(|c.literals|, 7);
  }

  lemma EndSize(literals: seq<byte>)
    ensures |EndBytes(literals)| == 1 + |Extension(|literals|, 7)| + 2 + |literals|
    ensures 255 * |EndBytes(literals)| <= 256 * |literals| + 1013
  {
    hide Extension, Flag;
  }

  lemma EndIs(literals: seq<byte>, all: seq<byte>, before: seq<byte>, b: seq<byte>)
    requires b == [] + Extension(|literals|, 7) + [0xff, 0xff]
    requires all == before + [Flag(|literals|, 23)] + b + literals
    ensures all == before + EndBytes(literals)
  {
    hide Extension, Flag;
    assert [] + Extension(|literals|, 7) == Extension(|literals|, 7);
  }

  /** The distance that marks the end. */
  method WriteMark(out: array<byte>, at: nat, dst: nat, ghost before: seq<byte>, ghost b: seq<byte>) returns (dst': nat)
    requires Behind(out[..], at, dst, before, b) && dst + 2 <= out.Length
    modifies out
    ensures dst' == dst + 2 && Behind(out[..], at, dst', before, b + [0xff, 0xff]) && out[at] == old(out[at])
    ensures out[dst'..] == old(out[dst'..])
  {
    hide Behind;
    BehindBound(out[..], at, dst, before, b);
    ghost var was := out[..];
    out[dst] := 0xff;
    out[dst + 1] := 0xff;
    dst' := dst + 2;
    assert out[..dst'] == was[..dst] + [0xff, 0xff];
    BehindMore(was, at, dst, before, b, out[..], [0xff, 0xff]);
  }

  /** The last run of literals. */
  method WriteEnd(input: seq<byte>, from: nat, out: array<byte>, dst: nat) returns (dst': nat)
    requires from <= |input| && dst + |EndBytes(input[from..])| <= out.Length
    modifies out
    ensures dst' == dst + |EndBytes(input[from..])| && out[..dst'] == old(out[..dst]) + EndBytes(input[from..])
    ensures out[dst'..] == old(out[dst'..])
  {
    hide Behind, Extension, EndBytes, Flag;
    ghost var before, tail, was := out[..dst], input[from..], out[..];
    EndSize(tail);
    var literals := |input| - from;
    BehindNothing(out[..], dst, before);
    dst' := WriteExtension(out, dst, dst + 1, literals, 7, before, []);
    ghost var exts := [] + Extension(literals, 7);
    var flag := (if literals < 7 then literals * 32 else 7 * 32) + (7 + 16);
    BehindSet(out[..], dst, dst', before, exts, flag);
    out[dst] := flag;
    EndFlag(literals, flag);
    BehindBound(out[..], dst, dst', before, exts);
    ghost var marked, at := out[..], dst';
    assert marked[at..] == was[at..];
    dst' := WriteMark(out, dst, dst', before, exts);
    at := dst';
    SameTail(marked, was, at - 2, at);
    BehindFlag(out[..], dst, dst', before, exts + [0xff, 0xff]);
    ghost var head, mid := out[..dst'], out[..];
    CopyExactly(input, from, |input|, out, dst');
    dst' := dst' + literals;
    SameTail(mid, was, at, dst');
    assert input[from..|input|] == tail && out[..dst'] == head + tail;
    EndIs(tail, out[..dst'], before, exts + [0xff, 0xff]);
  }

  lemma EndFlag(literals: nat, flag: nat)
    requires flag == (if literals < 7 then literals * 32 else 7 * 32) + 23
    ensures flag < 256 && Flag(literals, 23) == flag
  {
  }

  /** From the four bytes known to agree: words, then a pair, then a byte. */
  method MatchLength(input: seq<byte>, src: nat, find: nat) returns (len: nat)
    requires find < src && src + 12 < |input| && input[find..find + 4] == input[src..src + 4]
    ensures len == MatchLen(input, src, find)
  {
    hide Agrees, MatchLen;
    var end := |input| - 12;
    AgreesMore(input, src, find, 0, 4);
    len := 4;
    while src + len < end && input[find + len..find + len + 4] == input[src + len..src + len + 4]
      invariant len >= 4 && len % 4 == 0 && src + len < end + 4 && Agrees(input, src, src - find, len)
    {
      AgreesMore(input, src, find, len, 4);
      len := len + 4;
    }
    LengthFrom(input, src, find, len);
    if src + len < end && input[find + len..find + len + 2] == input[src + len..src + len + 2] {
      len := len + 2;
    }
    if input[find + len] == input[src + len] {
      len := len + 1;
    }
  }

  /** After the words, a pair and a byte find out all that is left. */
  lemma LengthFrom(input: seq<byte>, src: nat, find: nat, len: nat)
    requires find < src && src + 12 < |input| && Agrees(input, src, src - find, len)
    requires len >= 4 && len % 4 == 0 && src + len < |input| - 8
    requires src + len < |input| - 12 ==> input[find + len..find + len + 4] != input[src + len..src + len + 4]
    ensures var pair := src + len < |input| - 12 && input[find + len..find + len + 2] == input[src + len..src + len + 2];
      var n := if pair then len + 2 else len;
      MatchLen(input, src, find) == if input[find + n] == input[src + n] then n + 1 else n
  {
    hide MatchLen, Stop;
    StopIs(input, src, len);
    if src + len >= |input| - 12 {
      LengthEnds(input, src, find, len);
    } else {
      var p, q := find + len, src + len;
      var a, b := input[p..p + 2], input[q..q + 2];
      assert a == b <==> a[0] == b[0] && a[1] == b[1];
      var c, d := input[p..p + 4], input[q..q + 4];
      assert c == d <==> c[0] == d[0] && c[1] == d[1] && c[2] == d[2] && c[3] == d[3];
      if a == b {
        AgreesMore(input, src, find, len, 2);
        LengthEnds(input, src, find, len + 2);
      } else {
        LengthEnds(input, src, find, len);
      }
    }
  }

  lemma StopIs(input: seq<byte>, src: nat, len: nat)
    requires src + 12 < |input| && len % 4 == 0 && src + len < |input| - 8
    ensures src + len >= |input| - 12 ==> len == Stop(input, src)
    ensures src + len < |input| - 12 ==> len + 4 <= Stop(input, src)
  {
  }

  /** The last byte. */
  lemma LengthEnds(input: seq<byte>, src: nat, find: nat, n: nat)
    requires find < src && src + 12 < |input| && Agrees(input, src, src - find, n) && src + n + 2 <= |input|
    requires n == Stop(input, src) || (n + 1 <= Stop(input, src) && (input[find + n] != input[src + n] || input[find + n + 1] != input[src + n + 1]))
    ensures MatchLen(input, src, find) == if input[find + n] == input[src + n] then n + 1 else n
  {
    hide MatchLen, Stop;
    if input[find + n] == input[src + n] {
      assert input[find + n..find + n + 1] == [input[find + n]] == input[src + n..src + n + 1];
      AgreesMore(input, src, find, n, 1);
      LengthIs(input, src, find, n + 1);
    } else {
      LengthIs(input, src, find, n);
    }
  }

  lemma LengthIs(input: seq<byte>, src: nat, find: nat, len: nat)
    requires find < src && src + 12 < |input| && Agrees(input, src, src - find, len) && src + len < |input|
    requires len == Stop(input, src) + 1 || (len <= Stop(input, src) && input[find + len] != input[src + len])
    ensures len == MatchLen(input, src, find)
  {
    hide Agrees, Common;
    CommonReaches(input, src, find, len);
    if len <= Stop(input, src) {
      CommonIs(input, src, find, len);
    }
  }

  /** What is written stands for the input up to the last match. */
  ghost predicate Written(out: seq<byte>, at: nat, dst: nat, before: seq<byte>, cs: seq<Command>, input: seq<byte>, last: nat) {
    && at <= dst <= |out| && AllFit(cs) && Spells(cs, input, 0) && EndOf(cs, 0) == last
    && out[..dst] == before + Bytes(cs) && |before| == at
  }

  lemma WrittenStart(out: seq<byte>, at: nat, before: seq<byte>, input: seq<byte>)
    requires at <= |out| && before == out[..at]
    ensures Written(out, at, at, before, [], input, 0)
  {
  }

  lemma WrittenMore(out: seq<byte>, at: nat, dst: nat, before: seq<byte>, cs: seq<Command>, input: seq<byte>, last: nat,
                    src: nat, d: nat, len: nat, out': seq<byte>)
    requires Written(out, at, dst, before, cs, input, last) && last <= src <= |input| && d <= 0xffff && len >= MINMATCH
    requires Agrees(input, src, d, len)
    requires var c := Command(input[last..src], d, len);
      Fits(c) && dst + |CommandBytes(c)| <= |out'| && out'[..dst + |CommandBytes(c)|] == out[..dst] + CommandBytes(c)
    ensures var c := Command(input[last..src], d, len);
      Written(out', at, dst + |CommandBytes(c)|, before, cs + [c], input, src + len)
  {
    hide CommandBytes, Agrees, Bytes, Spells, EndOf;
    Append(cs, Command(input[last..src], d, len), input, 0);
  }

  lemma WrittenEnd(out: seq<byte>, at: nat, dst: nat, before: seq<byte>, cs: seq<Command>, input: seq<byte>, last: nat, out': seq<byte>)
    requires Written(out, at, dst, before, cs, input, last) && last + 8 <= |input|
    requires dst + |EndBytes(input[last..])| <= |out'| && out'[..dst + |EndBytes(input[last..])|] == out[..dst] + EndBytes(input[last..])
    ensures var end := dst + |EndBytes(input[last..])|;
      && out'[..at] == before && AllFit(cs) && EndOf(cs, 0) <= |input| && out'[at..end] == Stream(cs, input)
  {
    hide EndBytes, Bytes, Spells, EndOf;
    var end := dst + |EndBytes(input[last..])|;
    assert out'[..end] == before + (Bytes(cs) + EndBytes(input[last..]));
    assert out'[at..end] == out'[..end][at..] && out'[..at] == out'[..end][..at];
  }

  lemma WrittenBefore(out: seq<byte>, at: nat, dst: nat, before: seq<byte>, cs: seq<Command>, input: seq<byte>, last: nat)
    requires Written(out, at, dst, before, cs, input, last)
    ensures at <= |out| && out[..at] == before
  {
    hide Bytes, Spells, EndOf;
    assert out[..at] == out[..dst][..at];
  }

  lemma WrittenBound(out: seq<byte>, at: nat, dst: nat, before: seq<byte>, cs: seq<Command>, input: seq<byte>, last: nat)
    requires Written(out, at, dst, before, cs, input, last)
    ensures at <= dst <= |out|
  {
  }

  // ---- What the stream takes, and how far writing it goes

  /** What the stream takes, or -1 if it does not save twelve bytes. */
  function Gain(cs: seq<Command>, data: seq<byte>): int
    requires AllFit(cs) && EndOf(cs, 0) <= |data|
  {
    var n := |Stream(cs, data)|;
    if n > |data| - 12 then -1 else n
  }

  /** Where the search stops: twelve bytes before the end, behind a match that ends later, or
      where the commands have become too long. */
  function StopsAt(cs: seq<Command>, size: nat): nat
    requires AllFit(cs) && size >= 12
  {
    if |Bytes(cs)| + 12 >= size || EndOf(cs, 0) + 12 >= size then EndOf(cs, 0) else size - 12
  }

  /** The commands are no shorter than what they were made from: the last literals are not written. */
  predicate GivesUp(cs: seq<Command>, size: nat)
    requires AllFit(cs) && size >= 12
  {
    |Bytes(cs)| + 3 >= StopsAt(cs, size)
  }

  /** How far writing the commands goes. */
  function Room(cs: seq<Command>): nat
    requires AllFit(cs)
  {
    |Bytes(cs)| + if cs == [] then 0 else Beyond(cs[|cs| - 1])
  }

  /** How far writing the whole stream goes, or what there is of it. */
  function Reach(cs: seq<Command>, data: seq<byte>): nat
    requires AllFit(cs) && EndOf(cs, 0) <= |data| && |data| >= 12
  {
    if GivesUp(cs, |data|) then Room(cs) else |Stream(cs, data)|
  }

  lemma {:induction false} BytesAppend(cs: seq<Command>, more: seq<Command>)
    requires AllFit(cs) && AllFit(more)
    ensures AllFit(cs + more) && Bytes(cs + more) == Bytes(cs) + Bytes(more)
  {
    hide CommandBytes, Fits;
    if cs == [] {
      assert cs + more == more;
    } else {
      assert (cs + more)[1..] == cs[1..] + more;
      BytesAppend(cs[1..], more);
    }
  }

  lemma BytesOne(c: Command)
    requires Fits(c)
    ensures AllFit([c]) && Bytes([c]) == CommandBytes(c)
  {
    hide CommandBytes, Fits;
    assert [c][1..] == [];
  }

  /** One more command always goes further. */
  lemma RoomOne(cs: seq<Command>, c: Command)
    requires AllFit(cs) && Fits(c)
    ensures AllFit(cs + [c]) && Room(cs) <= |Bytes(cs)| + 8 <= Room(cs + [c]) == |Bytes(cs)| + |CommandBytes(c)| + Beyond(c)
    ensures Bytes(cs + [c]) == Bytes(cs) + CommandBytes(c)
  {
    hide CommandBytes, Fits, Words;
    BytesOne(c);
    BytesAppend(cs, [c]);
    CommandSize(c);
  }

  lemma {:induction false} RoomOfPrefix(cs: seq<Command>, more: seq<Command>)
    requires AllFit(cs) && AllFit(more)
    ensures AllFit(cs + more) && Room(cs) <= Room(cs + more)
    decreases |more|
  {
    hide Fits, Room;
    if more == [] {
      assert cs + more == cs;
    } else {
      RoomOne(cs, more[0]);
      assert cs + [more[0]] + more[1..] == cs + more;
      RoomOfPrefix(cs + [more[0]], more[1..]);
    }
  }

  lemma GivingUpFails(cs: seq<Command>, data: seq<byte>)
    requires AllFit(cs) && EndOf(cs, 0) + 8 <= |data| && |data| >= 12 && GivesUp(cs, |data|)
    ensures Gain(cs, data) == -1
  {
    hide Bytes, EndBytes;
    EndSize(data[EndOf(cs, 0)..]);
  }

  /** The last literals go further than all of them; giving up is one way of saving too little. */
  lemma RoomWithin(cs: seq<Command>, data: seq<byte>)
    requires AllFit(cs) && EndOf(cs, 0) + 8 <= |data| && |data| >= 12
    ensures Room(cs) <= Reach(cs, data)
    ensures GivesUp(cs, |data|) ==> Reach(cs, data) == Room(cs) && Gain(cs, data) == -1
    ensures !GivesUp(cs, |data|) ==>
      var n := Reach(cs, data);
      n == |Bytes(cs)| + |EndBytes(data[EndOf(cs, 0)..])| && Gain(cs, data) == if n > |data| - 12 then -1 else n
  {
    hide Bytes, EndBytes, GivesUp, Words;
    if GivesUp(cs, |data|) {
      GivingUpFails(cs, data);
    }
    EndSize(data[EndOf(cs, 0)..]);
  }

  /** How far compressing writes. */
  function ReachOf(input: seq<byte>, held: Table): nat {
    if MIN_SIZE <= |input| <= MAX_SIZE then Reach(Commands(input, held), input) else 0
  }

  // ---- The whole compressor

  /** The commands so far, with what is still to be found, are those of the input. */
  ghost predicate Going(out: seq<byte>, at: nat, dst: nat, before: seq<byte>, cs: seq<Command>, input: seq<byte>, last: nat,
                        src: nat, t: Table, held: Table) {
    && MIN_SIZE <= |input| <= MAX_SIZE && last <= src && src + 8 <= |input|
    && (src == last || (src + 12 <= |input| && dst - at + 12 < |input|))
    && Written(out, at, dst, before, cs, input, last)
    && Commands(input, held) == cs + Search(t, input, last, src, dst - at)
  }

  lemma GoingParts(out: seq<byte>, at: nat, dst: nat, before: seq<byte>, cs: seq<Command>, input: seq<byte>, last: nat,
                   src: nat, t: Table, held: Table)
    requires Going(out, at, dst, before, cs, input, last, src, t, held)
    ensures at <= dst <= |out| && last <= src && src + 8 <= |input| <= MAX_SIZE && AllFit(cs) && dst == at + |Bytes(cs)|
    ensures Room(cs) <= Reach(Commands(input, held), input)
  {
    hide Search, Commands, Spells, EndOf, Room, Reach, Bytes, Fits;
    assert |out[..dst]| == |before + Bytes(cs)|;
    var all := Commands(input, held);
    var more := all[|cs|..];
    assert all == cs + more && AllFit(more);
    RoomOfPrefix(cs, more);
    RoomWithin(all, input);
  }

  lemma GoingStarts(out: seq<byte>, at: nat, before: seq<byte>, input: seq<byte>, held: Table)
    requires at <= |out| && before == out[..at] && MIN_SIZE <= |input| <= MAX_SIZE
    ensures Going(out, at, at, before, [], input, 0, 0, held, held)
  {
    hide Search, Written;
    WrittenStart(out, at, before, input);
    assert [] + Search(held, input, 0, 0, 0) == Search(held, input, 0, 0, 0);
  }

  lemma GoingLiteral(out: seq<byte>, at: nat, dst: nat, before: seq<byte>, cs: seq<Command>, input: seq<byte>, last: nat,
                     src: nat, t: Table, held: Table)
    requires Going(out, at, dst, before, cs, input, last, src, t, held)
    requires src + 12 < |input| && dst - at + 12 < |input| && !Matches(t, input, src)
    ensures Going(out, at, dst, before, cs, input, last, src + 1, Learn(t, input, src), held)
  {
    hide Written, Commands, Matches, Learn;
    WrittenBound(out, at, dst, before, cs, input, last);
  }

  /** What the next command will take, before it is written. */
  lemma GoingRoom(out: seq<byte>, at: nat, dst: nat, before: seq<byte>, cs: seq<Command>, input: seq<byte>, last: nat,
                  src: nat, t: Table, held: Table)
    requires Going(out, at, dst, before, cs, input, last, src, t, held)
    requires src + 12 < |input| && dst - at + 12 < |input| && Matches(t, input, src)
    ensures var c := Found(t, input, last, src);
      && Fits(c) && AllFit(cs + [c]) && dst + |CommandBytes(c)| + Beyond(c) == at + Room(cs + [c])
      && Room(cs) <= Room(cs + [c]) <= Reach(Commands(input, held), input)
  {
    hide Commands, Matches, Found, LearnMatch, CommandBytes, Bytes, Spells, EndOf, Room, Reach, Fits, Words;
    var c := Found(t, input, last, src);
    FoundFits(t, input, last, src);
    assert |out[..dst]| == |before + Bytes(cs)|;
    RoomOne(cs, c);
    var all := Commands(input, held);
    var more := all[|cs| + 1..];
    assert all == cs + [c] + more && AllFit(more);
    RoomOfPrefix(cs + [c], more);
    RoomWithin(all, input);
  }

  lemma GoingMatch(out: seq<byte>, at: nat, dst: nat, before: seq<byte>, cs: seq<Command>, input: seq<byte>, last: nat,
                   src: nat, t: Table, held: Table, out': seq<byte>)
    requires Going(out, at, dst, before, cs, input, last, src, t, held)
    requires src + 12 < |input| && dst - at + 12 < |input| && Matches(t, input, src)
    requires var c := Found(t, input, last, src);
      Fits(c) && dst + |CommandBytes(c)| <= |out'| && out'[..dst + |CommandBytes(c)|] == out[..dst] + CommandBytes(c)
    ensures var c := Found(t, input, last, src);
      Going(out', at, dst + |CommandBytes(c)|, before, cs + [c], input, src + c.len, src + c.len, LearnMatch(t, input, src), held)
  {
    hide Commands, Matches, LearnMatch, CommandBytes, Agrees, Written, MatchLen, Place;
    var c := Found(t, input, last, src);
    FoundFits(t, input, last, src);
    WrittenBound(out, at, dst, before, cs, input, last);
    WrittenMore(out, at, dst, before, cs, input, last, src, c.distance, c.len, out');
    var more := Search(LearnMatch(t, input, src), input, src + c.len, src + c.len, dst - at + |CommandBytes(c)|);
    assert cs + ([c] + more) == cs + [c] + more;
  }

  /** The search is over. */
  lemma GoingEnds(out: seq<byte>, at: nat, dst: nat, before: seq<byte>, cs: seq<Command>, input: seq<byte>, last: nat,
                  src: nat, t: Table, held: Table)
    requires Going(out, at, dst, before, cs, input, last, src, t, held)
    requires src + 12 >= |input| || dst - at + 12 >= |input|
    ensures cs == Commands(input, held) && last + 8 <= |input| && Written(out, at, dst, before, cs, input, last)
    ensures AllFit(cs) && |input| >= MIN_SIZE && EndOf(cs, 0) == last && dst == at + |Bytes(cs)|
    ensures GivesUp(cs, |input|) <==> dst - at + 3 >= src
  {
    hide Commands, Bytes, EndOf, Spells, Fits;
    assert |out[..dst]| == |before + Bytes(cs)|;
    assert cs + [] == cs;
  }

  /** One step of the search; with a match, its command is written up to top. */
  method SearchOne(input: seq<byte>, out: array<byte>, ht: array<u32>, src: nat, last: nat, dst: nat, top: nat,
                   ghost at: nat, ghost before: seq<byte>, ghost cs: seq<Command>, ghost held: Table)
    returns (src': nat, last': nat, dst': nat, top': nat, ghost cs': seq<Command>)
    requires ht.Length == HASHES && Going(out[..], at, dst, before, cs, input, last, src, ht[..], held)
    requires src + 12 < |input| && dst - at + 12 < |input|
    requires at + Reach(Commands(input, held), input) <= out.Length
    requires AllFit(cs) && top == at + Room(cs)
    modifies out, ht
    ensures Going(out[..], at, dst', before, cs', input, last', src', ht[..], held) && src < src'
    ensures AllFit(cs') && top' == at + Room(cs') && top <= top' <= out.Length && out[top'..] == old(out[top'..])
  {
    hide *;
    ghost var t: Table, was := ht[..], out[..];
    Constants();
    GoingParts(was, at, dst, before, cs, input, last, src, t, held);
    TableIs(t, input, src);
    var h := Hash(Le32(input, src));
    var cache, find := ht[h] / 0x800_0000, ht[h] % 0x800_0000;
    ht[h] := Entry(src, input[src]);
    if cache == input[src] % 32 && find + 0xffff >= src && find < src && input[find..find + 4] == input[src..src + 4] {
      var len := MatchLength(input, src, find);
      ghost var c := Found(t, input, last, src);
      FoundIs(t, input, last, src);
      FoundFits(t, input, last, src);
      GoingRoom(was, at, dst, before, cs, input, last, src, t, held);
      dst', top' := WriteCommand(input, last, src, len, src - find, out, dst, c);
      GoingMatch(was, at, dst, before, cs, input, last, src, t, held, out[..]);
      cs' := cs + [c];
      ht[Hash(Le32(input, src + 1))] := Entry(src + 1, input[src + 1]);
      ht[Hash(Le32(input, src + 3))] := Entry(src + 3, input[src + 3]);
      src' := src + len;
      last' := src';
    } else {
      GoingLiteral(was, at, dst, before, cs, input, last, src, t, held);
      src', last', dst', top', cs' := src + 1, last, dst, top, cs;
    }
  }

  lemma TableIs(t: Table, input: seq<byte>, src: nat)
    requires src + 12 < |input| <= MAX_SIZE
    ensures |t| == HASHES && Hash(Le32(input, src)) < HASHES && src + 3 < 0x800_0000
    ensures Learn(t, input, src) == t[Hash(Le32(input, src)) := Entry(src, input[src])]
    ensures var h := Hash(Le32(input, src));
      var find := t[h] % 0x800_0000;
      && Place(t, input, src) == find
      && (Matches(t, input, src) <==>
            t[h] / 0x800_0000 == input[src] % 32 && find + 0xffff >= src && find < src && input[find..find + 4] == input[src..src + 4])
    ensures Hash(Le32(input, src + 1)) < HASHES && Hash(Le32(input, src + 3)) < HASHES
    ensures LearnMatch(t, input, src) == t[Hash(Le32(input, src)) := Entry(src, input[src])]
      [Hash(Le32(input, src + 1)) := Entry(src + 1, input[src + 1])][Hash(Le32(input, src + 3)) := Entry(src + 3, input[src + 3])]
  {
    hide Hash, Le32, Entry;
  }

  lemma FoundIs(t: Table, input: seq<byte>, last: nat, src: nat)
    requires last <= src && src + 12 < |input| && Matches(t, input, src)
    ensures var find := Place(t, input, src);
      && find < src && Found(t, input, last, src) == Command(input[last..src], src - find, MatchLen(input, src, find))
      && Found(t, input, last, src).len == MatchLen(input, src, find)
  {
    hide MatchLen;
  }

  /** shrinker_compress, into out from at on, with a table that holds anything at first. It fails
      exactly when the size is out of range or the stream does not save twelve bytes; top is how
      far it has written. */
  method Compress(input: seq<byte>, out: array<byte>, at: nat, held: Table) returns (r: int, top: nat)
    requires at + ReachOf(input, held) <= out.Length
    modifies out
    ensures top == at + ReachOf(input, held) && out[..at] == old(out[..at]) && out[top..] == old(out[top..])
    ensures |input| < MIN_SIZE || |input| > MAX_SIZE ==> r == -1
    ensures MIN_SIZE <= |input| <= MAX_SIZE ==>
      && r == Gain(Commands(input, held), input)
      && (!GivesUp(Commands(input, held), |input|) ==> out[at..top] == Stream(Commands(input, held), input))
  {
    hide *;
    Constants();
    ReachIs(input, held);
    var size := |input|;
    if size < MIN_SIZE || size > MAX_SIZE {
      return -1, at;
    }
    ghost var before, cs, was := out[..at], [], out[..];
    var ht := new u32[HASHES](i requires 0 <= i < |held| => held[i]);
    assert ht[..] == held;
    var src: nat, dst: nat, last: nat := 0, at, 0;
    var srcEnd, dstEnd := size - MINMATCH - 8, at + size - MINMATCH - 8;
    top := at;
    GoingStarts(out[..], at, before, input, held);
    RoomOfNone();
    while src < srcEnd && dst < dstEnd
      invariant Going(out[..], at, dst, before, cs, input, last, src, ht[..], held)
      invariant AllFit(cs) && top == at + Room(cs) <= out.Length && out[top..] == was[top..]
      decreases size - src
    {
      ghost var mid, up := out[..], top;
      src, last, dst, top, cs := SearchOne(input, out, ht, src, last, dst, top, at, before, cs, held);
      SameTail(was, mid, up, top);
    }
    GoingEnds(out[..], at, dst, before, cs, input, last, src, ht[..], held);
    RoomWithin(cs, input);
    EndSize(input[last..]);
    WrittenBefore(out[..], at, dst, before, cs, input, last);
    if dst - at + 3 >= src {
      return -1, top;
    }
    ghost var mid, dst0, up := out[..], dst, top;
    dst := WriteEnd(input, last, out, dst);
    top := dst;
    SameTail(was, mid, up, top);
    WrittenEnd(mid, at, dst0, before, cs, input, last, out[..]);
    if dst > dstEnd {
      return -1, top;
    }
    return dst - at, top;
  }

  lemma ReachIs(input: seq<byte>, held: Table)
    ensures |held| == HASHES
    ensures MIN_SIZE <= |input| <= MAX_SIZE ==>
      var cs := Commands(input, held);
      AllFit(cs) && EndOf(cs, 0) + 8 <= |input| && ReachOf(input, held) == Reach(cs, input)
    ensures !(MIN_SIZE <= |input| <= MAX_SIZE) ==> ReachOf(input, held) == 0
  {
    hide Commands, Spells, Fits;
  }

  lemma RoomOfNone()
    ensures AllFit([]) && Room([]) == 0
  {
  }

  lemma Constants()
    ensures MINMATCH == 4 && MIN_SIZE == 32 && MAX_SIZE == 0x7ff_ffff && HASHES == 0x8000
  {
  }

  // ---- The decompressor

  ghost predicate Has(s: seq<byte>, p: nat, b: seq<byte>) {
    p + |b| <= |s| && s[p..p + |b|] == b
  }

  lemma HasSplit(s: seq<byte>, p: nat, a: seq<byte>, b: seq<byte>)
    requires Has(s, p, a + b)
    ensures Has(s, p, a) && Has(s, p + |a|, b)
  {
    var all := s[p..p + |a + b|];
    assert s[p..p + |a|] == all[..|a|] == a;
    assert s[p + |a|..p + |a| + |b|] == all[|a|..] == b;
  }

  lemma HasFirst(s: seq<byte>, p: nat, b: seq<byte>)
    requires Has(s, p, b) && b != []
    ensures p < |s| && s[p] == b[0] && Has(s, p + 1, b[1..])
  {
    assert s[p] == s[p..p + |b|][0];
    assert s[p + 1..p + |b|] == s[p..p + |b|][1..];
  }

  lemma TailFirst(n: nat)
    ensures n >= 255 ==> Tail(n)[0] == 255 && Tail(n)[1..] == Tail(n - 255)
    ensures n < 255 ==> Tail(n)[0] == n && Tail(n)[1..] == []
  {
  }

  /** A length whose field in the flag byte may be full. */
  method ReadLength(s: seq<byte>, p: nat, field: nat, full: nat, ghost n: nat) returns (len: nat, p': nat)
    requires field == Least(n, full) && Has(s, p, Extension(n, full))
    ensures len == n && p' == p + |Extension(n, full)|
  {
    hide Has, Tail;
    len, p' := field, p;
    if len == full {
      ghost var left: nat := n - full;
      HasFirst(s, p', Tail(left));
      TailFirst(left);
      while s[p'] == 255
        invariant len + left == n && Has(s, p', Tail(left)) && p' + |Tail(left)| == p + |Tail(n - full)|
        invariant p' < |s| && s[p'] == Tail(left)[0]
        decreases left
      {
        TailFirst(left);
        HasFirst(s, p', Tail(left));
        len, p' := len + 255, p' + 1;
        left := left - 255;
        HasFirst(s, p', Tail(left));
      }
      TailFirst(left);
      len, p' := len + s[p'], p' + 1;
    }
  }

  /** Flag, lengths and distance; the literals come behind. */
  function Head(l: nat, m: nat, d: seq<byte>): seq<byte>
    requires 1 <= |d| <= 2
  {
    [Flag(l, Least(m, 15) + if |d| == 2 then 16 else 0)] + Extension(l, 7) + Extension(m, 15) + d
  }

  lemma CommandHead(c: Command)
    requires Fits(c)
    ensures CommandBytes(c) == Head(|c.literals|, c.len - MINMATCH, DistanceBytes(c.distance)) + c.literals
  {
    hide Extension, Flag;
  }

  lemma EndHead(literals: seq<byte>)
    ensures EndBytes(literals) == Head(|literals|, 7, [0xff, 0xff]) + literals
  {
    hide Flag;
    var e := Extension(|literals|, 7);
    assert Extension(7, 15) == [] && e + [] == e;
  }

  lemma HeadParts(s: seq<byte>, p: nat, l: nat, m: nat, d: seq<byte>)
    requires 1 <= |d| <= 2 && Has(s, p, Head(l, m, d))
    ensures var e1, e2 := Extension(l, 7), Extension(m, 15);
      && p < |s| && s[p] == Flag(l, Least(m, 15) + if |d| == 2 then 16 else 0)
      && Has(s, p + 1, e1) && Has(s, p + 1 + |e1|, e2) && Has(s, p + 1 + |e1| + |e2|, d)
      && |Head(l, m, d)| == 1 + |e1| + |e2| + |d|
  {
    hide Extension, Flag, Has;
    var e1, e2 := Extension(l, 7), Extension(m, 15);
    var f := [Flag(l, Least(m, 15) + if |d| == 2 then 16 else 0)];
    HasSplit(s, p, f + e1 + e2, d);
    HasSplit(s, p, f + e1, e2);
    HasSplit(s, p, f, e1);
    HasFirst(s, p, f);
  }

  /** The fields of a flag byte. */
  lemma FlagFields(literals: nat, low: nat)
    requires low < 32
    ensures var f := Flag(literals, low);
      f / 32 == Least(literals, 7) && f % 16 == low % 16 && (f / 16 % 2 == 1 <==> low >= 16)
  {
  }

  lemma HeadFields(s: seq<byte>, p: nat, l: nat, m: nat, d: seq<byte>)
    requires 1 <= |d| <= 2 && p < |s| && s[p] == Flag(l, Least(m, 15) + if |d| == 2 then 16 else 0)
    ensures s[p] / 32 == Least(l, 7) && s[p] % 16 == Least(m, 15) && (s[p] / 16 % 2 == 1 <==> |d| == 2)
  {
    hide Flag;
    FlagFields(l, Least(m, 15) + if |d| == 2 then 16 else 0);
  }

  method ReadHead(s: seq<byte>, p: nat, ghost l: nat, ghost m: nat, ghost d: seq<byte>)
    returns (literals: nat, len: nat, distance: nat, long: bool, p': nat)
    requires 1 <= |d| <= 2 && Has(s, p, Head(l, m, d))
    ensures literals == l && len == m && p' == p + |Head(l, m, d)| <= |s|
    ensures long == (|d| == 2) && distance == d[0] as nat + if long then d[1] as nat * 256 else 0
  {
    hide Extension, Flag, Head, Least, Has;
    HeadParts(s, p, l, m, d);
    HeadFields(s, p, l, m, d);
    var flag := s[p];
    long := flag / 16 % 2 == 1;
    literals, p' := ReadLength(s, p + 1, flag / 32, 7, l);
    len, p' := ReadLength(s, p', flag % 16, 15, m);
    ghost var q := p';
    HasFirst(s, q, d);
    distance := s[p'];
    p' := p' + 1;
    if long {
      HasFirst(s, q + 1, d[1..]);
      distance := distance + s[p'] as nat * 256;
      p' := p' + 1;
    }
  }

  /** What lies ahead in the stream stands for the data from i on. */
  ghost predicate Ahead(s: seq<byte>, p: nat, cs: seq<Command>, data: seq<byte>, i: nat) {
    && AllFit(cs) && Spells(cs, data, i) && EndOf(cs, i) + 8 <= |data|
    && Has(s, p, Bytes(cs) + EndBytes(data[EndOf(cs, i)..]))
  }

  lemma AheadCommand(s: seq<byte>, p: nat, cs: seq<Command>, data: seq<byte>, i: nat)
    requires Ahead(s, p, cs, data, i) && cs != []
    ensures var c := cs[0];
      && Fits(c) && CommandAt(c, data, i)
      && var h := Head(|c.literals|, c.len - MINMATCH, DistanceBytes(c.distance));
      && Has(s, p, h) && Has(s, p + |h|, c.literals) && p + |h| + |c.literals| + 8 <= |s|
      && i + |c.literals| + c.len + 8 <= |data|
      && Ahead(s, p + |h| + |c.literals|, cs[1..], data, i + |c.literals| + c.len)
  {
    hide Head, DistanceBytes, EndBytes, CommandBytes, Has, Agrees, Bytes;
    var c := cs[0];
    assert Fits(c);
    FitsRest(cs);
    CommandHead(c);
    var h := Head(|c.literals|, c.len - MINMATCH, DistanceBytes(c.distance));
    var e := EndBytes(data[EndOf(cs, i)..]);
    BytesFirst(cs, e);
    HasSplit(s, p, CommandBytes(c), Bytes(cs[1..]) + e);
    HasSplit(s, p, h, c.literals);
    HasBound(s, p + |h| + |c.literals|, Bytes(cs[1..]) + e);
    EndSize(data[EndOf(cs, i)..]);
  }

  lemma BytesFirst(cs: seq<Command>, more: seq<byte>)
    requires AllFit(cs) && cs != [] && AllFit(cs[1..])
    ensures Bytes(cs) + more == CommandBytes(cs[0]) + (Bytes(cs[1..]) + more)
  {
    hide CommandBytes;
  }

  lemma FitsRest(cs: seq<Command>)
    requires AllFit(cs) && cs != []
    ensures AllFit(cs[1..])
  {
  }

  lemma HasBound(s: seq<byte>, p: nat, b: seq<byte>)
    requires Has(s, p, b)
    ensures p + |b| <= |s|
  {
  }

  lemma AheadEnd(s: seq<byte>, p: nat, cs: seq<Command>, data: seq<byte>, i: nat)
    requires Ahead(s, p, cs, data, i) && cs == []
    ensures i + 8 <= |data| && Has(s, p, Head(|data| - i, 7, [0xff, 0xff]))
    ensures Has(s, p + |Head(|data| - i, 7, [0xff, 0xff])|, data[i..])
  {
    hide Head, EndBytes, Has;
    EndHead(data[i..]);
    assert [] + EndBytes(data[i..]) == EndBytes(data[i..]);
    HasSplit(s, p, Head(|data| - i, 7, [0xff, 0xff]), data[i..]);
  }

  /** The distance read is one less than the true one, and never that of the end. */
  lemma DistanceRead(d: nat)
    requires 1 <= d <= 0xffff
    ensures var b := DistanceBytes(d);
      b[0] as nat + (if |b| == 2 then b[1] as nat * 256 else 0) == d - 1 < 0xffff
  {
  }

  /** Literals and match of a command. */
  method CopyCommand(s: seq<byte>, p: nat, literals: nat, out: array<byte>, dst: nat, distance: nat, len: nat,
                     ghost c: Command, ghost before: seq<byte>, ghost data: seq<byte>, ghost i: nat)
    requires Has(s, p, c.literals) && literals == |c.literals| && distance == c.distance && len == c.len && CommandAt(c, data, i)
    requires p + literals + 8 <= |s| && dst + literals + len + 8 <= out.Length && dst == |before| + i
    requires out[..dst] == before + data[..i]
    modifies out
    ensures out[..dst + literals + len] == before + data[..i + literals + len]
    ensures out[dst + literals + len + 8..] == old(out[dst + literals + len + 8..])
  {
    hide CopyBytes, Has, CommandAt;
    ghost var j := i + literals;
    LiteralsAt(s, p, c, data, i, before);
    ghost var was := out[..];
    var end := CopyWords(s, p, p + literals, out, dst);
    SameTail(was, out[..], end, dst + literals + len + 8);
    assert out[..dst + literals] == before + data[..j];
    CopyWithin(out, dst + literals, dst + literals - distance, len);
    CopyBehind(before, data, j, distance, len);
  }

  lemma LiteralsAt(s: seq<byte>, p: nat, c: Command, data: seq<byte>, i: nat, before: seq<byte>)
    requires CommandAt(c, data, i) && Has(s, p, c.literals)
    ensures var j := i + |c.literals|;
      && p + |c.literals| <= |s| && s[p..p + |c.literals|] == c.literals && j <= |data|
      && before + data[..i] + c.literals == before + data[..j] && Agrees(data, j, c.distance, c.len)
      && c.distance >= 1 && c.distance <= j && c.len > 0
  {
    var j := i + |c.literals|;
    assert data[..i] + data[i..j] == data[..j];
  }

  lemma CopyBehind(before: seq<byte>, data: seq<byte>, i: nat, d: nat, n: nat)
    requires Agrees(data, i, d, n)
    ensures CopyBytes(before + data[..i], d, n) == before + data[..i + n]
  {
    var all := before + data;
    assert all[..|before| + i] == before + data[..i] && all[..|before| + i + n] == before + data[..i + n];
    forall k | |before| + i <= k < |before| + i + n ensures all[k] == all[k - d] {
      assert data[k - |before|] == data[k - |before| - d];
    }
    CopyOfMatch(all, |before| + i, d, n);
  }

  lemma AheadStart(s: seq<byte>, cs: seq<Command>, data: seq<byte>)
    requires Packs(s, cs, data)
    ensures Ahead(s, 0, cs, data, 0)
  {
    hide Bytes, EndBytes, Spells, EndOf;
    assert s[0..|s|] == s;
  }

  lemma CommandRoom(c: Command, data: seq<byte>, i: nat)
    requires CommandAt(c, data, i)
    ensures Fits(c) && c.len >= MINMATCH == 4 && 1 <= c.distance <= 0xffff && c.distance <= i + |c.literals|
  {
  }

  lemma Last(s: seq<byte>, p: nat, data: seq<byte>, i: nat)
    requires i <= |data| && Has(s, p, data[i..])
    ensures p + (|data| - i) <= |s| && s[p..p + (|data| - i)] == data[i..]
  {
  }

  /** shrinker_decompress, into out from at on. It fails exactly when the data is longer
      than size; words written too far never leave the place of the data. */
  method Decompress(s: seq<byte>, out: array<byte>, at: nat, size: nat, ghost cs: seq<Command>, ghost data: seq<byte>) returns (r: int)
    requires Packs(s, cs, data) && at + |data| <= out.Length
    modifies out
    ensures r == if |data| <= size then |data| else -1
    ensures out[at + |data|..] == old(out[at + |data|..])
    ensures r >= 0 ==> out[..at + |data|] == old(out[..at]) + data
  {
    hide *;
    ghost var before, after := out[..at], out[at + |data|..];
    var p: nat, dst: nat := 0, at;
    var end := at + size;
    ghost var ds, i: nat := cs, 0;
    AheadStart(s, cs, data);
    assert before + data[..0] == before;
    while true
      invariant Ahead(s, p, ds, data, i) && dst == at + i && i <= |data| && i <= size
      invariant out[..dst] == before + data[..i] && out[at + |data|..] == after
      decreases |ds|
    {
      ghost var l, m, d;
      if ds == [] {
        AheadEnd(s, p, ds, data, i);
        l, m, d := |data| - i, 7, [0xff, 0xff];
      } else {
        AheadCommand(s, p, ds, data, i);
        CommandRoom(ds[0], data, i);
        DistanceRead(ds[0].distance);
        l, m, d := |ds[0].literals|, ds[0].len - MINMATCH, DistanceBytes(ds[0].distance);
      }
      var literals, len, distance, long;
      literals, len, distance, long, p := ReadHead(s, p, l, m, d);
      if long && distance == 0xffff {
        if dst + literals > end {
          return -1;
        }
        Last(s, p, data, i);
        CopyExactly(s, p, p + literals, out, dst);
        assert s[p..p + literals] == data[i..];
        dst := dst + literals;
        assert data[..i] + data[i..] == data && (before + data[..i]) + data[i..] == before + data;
        break;
      }
      if dst + literals > end || dst + literals < at + distance + 1 || dst + literals + len + 4 > end {
        return -1;
      }
      ghost var was := out[..];
      CopyCommand(s, p, literals, out, dst, distance + 1, len + 4, ds[0], before, data, i);
      SameTail(was, out[..], dst + literals + len + 4 + 8, at + |data|);
      p, dst := p + literals, dst + literals + len + 4;
      ds, i := ds[1..], i + literals + len + 4;
    }
    return dst - at;
  }

  // ---- Chunks

  /** get_next_shrinker_chunk_size. */
  function ChunkSize(left: nat): (n: nat)
    ensures n <= left
  {
    if left >= MAX_SIZE + MIN_SIZE then MAX_SIZE
    else if left > MAX_SIZE then left / 2
    else left
  }

  /** Input of at least 32 bytes is only ever cut into chunks that the coder takes. */
  lemma ChunkSizesFit(left: nat)
    ensures left > 0 ==> 0 < ChunkSize(left) <= left && ChunkSize(left) <= MAX_SIZE
    ensures left >= MIN_SIZE ==>
      && MIN_SIZE <= ChunkSize(left)
      && (left == ChunkSize(left) || left - ChunkSize(left) >= MIN_SIZE)
  {
  }

  datatype Part = Part(bytes: seq<byte>, cs: seq<Command>)

  function Le32Bytes(n: nat): (b: seq<byte>)
    requires n < 0x8000_0000
    ensures |b| == 4
  {
    [n % 0x100, n / 0x100 % 0x100, n / 0x1_0000 % 0x100, n / 0x100_0000]
  }

  lemma Le32Back(n: nat)
    requires n < 0x8000_0000
    ensures Le32(Le32Bytes(n), 0) == n
  {
    assert n == n % 0x100 + 0x100 * (n / 0x100);
    assert n / 0x100 == n / 0x100 % 0x100 + 0x100 * (n / 0x100 / 0x100) && n / 0x100 / 0x100 == n / 0x1_0000;
    assert n / 0x1_0000 == n / 0x1_0000 % 0x100 + 0x100 * (n / 0x1_0000 / 0x100) && n / 0x1_0000 / 0x100 == n / 0x100_0000;
  }

  /** The parts of s, each behind its size, stand for data from i to j. */
  ghost predicate Chunked(s: seq<byte>, parts: seq<Part>, data: seq<byte>, i: nat, j: nat)
    decreases |parts|
  {
    if parts == [] then s == [] && i == j && j <= |data| else
      var k := |parts[0].bytes|;
      && i < |data| && i + ChunkSize(|data| - i) <= |data| && k < 0x8000_0000 && 4 + k <= |s|
      && s[..4] == Le32Bytes(k) && s[4..4 + k] == parts[0].bytes
      && Packs(parts[0].bytes, parts[0].cs, data[i..i + ChunkSize(|data| - i)])
      && Chunked(s[4 + k..], parts[1..], data, i + ChunkSize(|data| - i), j)
  }

  lemma OneChunk(data: seq<byte>, i: nat, part: Part)
    requires i < |data| && |part.bytes| < 0x8000_0000 && i + ChunkSize(|data| - i) <= |data|
    requires Packs(part.bytes, part.cs, data[i..i + ChunkSize(|data| - i)])
    ensures Chunked(Le32Bytes(|part.bytes|) + part.bytes, [part], data, i, i + ChunkSize(|data| - i))
  {
    hide ChunkSize, Packs, Le32Bytes;
    var s := Le32Bytes(|part.bytes|) + part.bytes;
    assert [part][1..] == [] && s[4 + |part.bytes|..] == [];
    assert s[..4] == Le32Bytes(|part.bytes|) && s[4..4 + |part.bytes|] == part.bytes;
    assert Chunked([], [], data, i + ChunkSize(|data| - i), i + ChunkSize(|data| - i));
  }

  lemma SliceOfSum(s: seq<byte>, more: seq<byte>, k: nat)
    requires 4 + k <= |s|
    ensures (s + more)[4 + k..] == s[4 + k..] + more && (s + more)[..4] == s[..4] && (s + more)[4..4 + k] == s[4..4 + k]
  {
  }

  lemma {:induction false} ChunkedAppend(s: seq<byte>, parts: seq<Part>, data: seq<byte>, i: nat, j: nat, part: Part)
    requires Chunked(s, parts, data, i, j) && j < |data| && |part.bytes| < 0x8000_0000
    requires j + ChunkSize(|data| - j) <= |data| && Packs(part.bytes, part.cs, data[j..j + ChunkSize(|data| - j)])
    ensures Chunked(s + (Le32Bytes(|part.bytes|) + part.bytes), parts + [part], data, i, j + ChunkSize(|data| - j))
    decreases |parts|
  {
    hide ChunkSize, Packs, Le32Bytes;
    var more := Le32Bytes(|part.bytes|) + part.bytes;
    if parts == [] {
      OneChunk(data, i, part);
      assert s + more == more && parts + [part] == [part];
    } else {
      var k := |parts[0].bytes|;
      ChunkedAppend(s[4 + k..], parts[1..], data, i + ChunkSize(|data| - i), j, part);
      SliceOfSum(s, more, k);
      assert (parts + [part])[1..] == parts[1..] + [part];
    }
  }

  method WriteSize(out: array<byte>, at: nat, n: nat)
    requires at + 4 <= out.Length && n < 0x8000_0000
    modifies out
    ensures out[at..at + 4] == Le32Bytes(n)
    ensures out[..at] == old(out[..at]) && out[at + 4..] == old(out[at + 4..])
  {
    out[at], out[at + 1], out[at + 2], out[at + 3] := n % 0x100, n / 0x100 % 0x100, n / 0x1_0000 % 0x100, n / 0x100_0000;
  }

  // ---- What becomes of the chunks

  /** The chunk that begins at place i. */
  function Chunk(input: seq<byte>, i: nat): (c: seq<byte>)
    requires i <= |input|
    ensures |c| == ChunkSize(|input| - i)
  {
    input[i..i + ChunkSize(|input| - i)]
  }

  /** The size of the chunks from place i on, each behind its own size, or -1 if one of them
      cannot be packed; held says what the table holds at first in each. */
  function PackedSize(input: seq<byte>, held: nat -> Table, i: nat): (n: int)
    requires i <= |input|
    ensures n >= -1
    decreases |input| - i
  {
    ChunkSizesFit(|input| - i);
    var chunk := Chunk(input, i);
    if i == |input| then 0
    else if |chunk| < MIN_SIZE then -1
    else
      var n := Gain(Commands(chunk, held(i)), chunk);
      var more := PackedSize(input, held, i + |chunk|);
      if n == -1 || more == -1 then -1 else 4 + n + more
  }

  /** How far packing them from pos on writes, or sets space aside for a size. */
  function Top(input: seq<byte>, held: nat -> Table, i: nat, pos: nat): (top: nat)
    requires i <= |input|
    ensures top >= pos
    decreases |input| - i
  {
    ChunkSizesFit(|input| - i);
    var chunk := Chunk(input, i);
    if i == |input| then pos
    else if |chunk| < MIN_SIZE || Gain(Commands(chunk, held(i)), chunk) == -1 then pos + 4 + ReachOf(chunk, held(i))
    else Top(input, held, i + |chunk|, pos + 4 + Gain(Commands(chunk, held(i)), chunk))
  }

  /** What is packed: the streams of the chunks. */
  function Parts(input: seq<byte>, held: nat -> Table, i: nat): seq<Part>
    requires i <= |input|
    decreases |input| - i
  {
    ChunkSizesFit(|input| - i);
    if i == |input| || |Chunk(input, i)| < MIN_SIZE then [] else
      var cs := Commands(Chunk(input, i), held(i));
      [Part(Stream(cs, Chunk(input, i)), cs)] + Parts(input, held, i + |Chunk(input, i)|)
  }

  lemma GainIs(cs: seq<Command>, data: seq<byte>)
    requires AllFit(cs) && EndOf(cs, 0) <= |data|
    ensures Gain(cs, data) == -1 || 0 < Gain(cs, data) == |Stream(cs, data)| <= |data| - 12
    ensures |data| >= 12 && EndOf(cs, 0) + 8 <= |data| && Gain(cs, data) != -1 ==> !GivesUp(cs, |data|) && Reach(cs, data) == Gain(cs, data)
  {
    hide Bytes, EndBytes, GivesUp;
    EndSize(data[EndOf(cs, 0)..]);
    if |data| >= 12 && EndOf(cs, 0) + 8 <= |data| && GivesUp(cs, |data|) {
      GivingUpFails(cs, data);
    }
  }

  /** Where all is packed, nothing is written behind it. */
  lemma {:induction false} TopOfPacked(input: seq<byte>, held: nat -> Table, i: nat, pos: nat)
    requires i <= |input| && PackedSize(input, held, i) != -1
    ensures Top(input, held, i, pos) == pos + PackedSize(input, held, i) <= pos + |input| - i
    decreases |input| - i
  {
    hide Commands, Gain, ReachOf, Chunk;
    ChunkSizesFit(|input| - i);
    var chunk := Chunk(input, i);
    if i < |input| {
      var n := Gain(Commands(chunk, held(i)), chunk);
      GainIs(Commands(chunk, held(i)), chunk);
      TopOfPacked(input, held, i + |chunk|, pos + 4 + n);
    }
  }

  /** So there is room for it in the buffer that the program allots: it is left only where the
      result is -1. */
  lemma PackedStaysWithin(input: seq<byte>, held: nat -> Table)
    requires PackedSize(input, held, 0) != -1
    ensures Top(input, held, 0, 0) <= |input| < BufferSize(|input|)
  {
    hide Top, PackedSize;
    TopOfPacked(input, held, 0, 0);
  }

  /** Shrinker_m: the size of the buffer the program has for the output. */
  function BufferSize(n: nat): nat {
    n + (n / MAX_SIZE + 1) * 4
  }

  /** A single chunk is written behind its size, as far as it goes. */
  lemma SingleChunk(input: seq<byte>, held: nat -> Table)
    requires MIN_SIZE <= |input| <= MAX_SIZE
    ensures var cs := Commands(input, held(0));
      && AllFit(cs) && EndOf(cs, 0) + 8 <= |input|
      && Top(input, held, 0, 0) == 4 + Reach(cs, input)
      && (PackedSize(input, held, 0) == -1 <==> Gain(cs, input) == -1)
  {
    hide Commands, Gain, Reach, Spells, Fits;
    ChunkSizesFit(|input|);
    assert input[0..|input|] == input && Chunk(input, 0) == input;
    var cs := Commands(input, held(0));
    GainIs(cs, input);
    assert PackedSize(input, held, |input|) == 0;
    if Gain(cs, input) != -1 {
      assert Top(input, held, |input|, 4 + Gain(cs, input)) == 4 + Gain(cs, input);
    }
  }

  /** A single chunk stays within it exactly if its stream, or what there is of it, is no longer
      than the chunk. */
  lemma StaysWithin(input: seq<byte>, held: nat -> Table)
    requires MIN_SIZE <= |input| < MAX_SIZE
    ensures Top(input, held, 0, 0) <= BufferSize(|input|) <==> Reach(Commands(input, held(0)), input) <= |input|
  {
    hide Commands, Gain, Reach, Top, PackedSize, Spells, Fits;
    SingleChunk(input, held);
    assert |input| / MAX_SIZE == 0;
  }

  lemma {:induction false} BytesBound(cs: seq<Command>, i: nat)
    requires AllFit(cs)
    ensures 255 * |Bytes(cs)| <= 256 * (EndOf(cs, i) - i)
    decreases |cs|
  {
    hide CommandBytes;
    if cs != [] {
      CommandSize(cs[0]);
      BytesBound(cs[1..], i + |cs[0].literals| + cs[0].len);
    }
  }

  lemma ReachBound(input: seq<byte>, held: Table)
    ensures 255 * ReachOf(input, held) <= 256 * |input| + 2040
  {
    hide Commands, Bytes, EndBytes, EndOf, GivesUp, Fits, Words, Spells;
    if MIN_SIZE <= |input| <= MAX_SIZE {
      var cs := Commands(input, held);
      BytesBound(cs, 0);
      EndSize(input[EndOf(cs, 0)..]);
      if GivesUp(cs, |input|) && cs != [] {
        RoomIs(cs);
      }
    }
  }

  lemma RoomIs(cs: seq<Command>)
    requires AllFit(cs)
    ensures Room(cs) <= |Bytes(cs)| + 8
  {
    hide Bytes, Words, Fits;
  }

  /** Whatever the table holds, a byte for every 255 and 20 more than the input are enough. */
  lemma {:induction false} EnoughRoom(input: seq<byte>, held: nat -> Table, i: nat, pos: nat)
    requires pos <= i <= |input|
    ensures Top(input, held, i, pos) <= |input| + |input| / 255 + 20
    decreases |input| - i
  {
    hide Commands, Gain, ReachOf;
    ChunkSizesFit(|input| - i);
    var chunk := Chunk(input, i);
    ReachBound(chunk, held(i));
    if i < |input| && |chunk| >= MIN_SIZE && Gain(Commands(chunk, held(i)), chunk) != -1 {
      GainIs(Commands(chunk, held(i)), chunk);
      EnoughRoom(input, held, i + |chunk|, pos + 4 + Gain(Commands(chunk, held(i)), chunk));
    }
  }

  /** Where no four bytes recur there are no commands, */
  lemma NothingToSend(input: seq<byte>, cs: seq<Command>)
    requires NoFourTwice(input) && Chosen(cs, input)
    ensures cs == []
  {
    hide NoFourTwice, Agrees;
    if cs != [] {
      NothingAgrees(input, |cs[0].literals|, cs[0].distance, cs[0].len);
    }
  }

  lemma StreamOfNone(input: seq<byte>)
    requires |input| >= MIN_SIZE
    ensures AllFit([]) && EndOf([], 0) == 0 && !GivesUp([], |input|)
    ensures |Stream([], input)| == |input| + (|input| - 7) / 255 + 4
  {
    EndSize(input);
    assert input[0..] == input && [] + EndBytes(input) == EndBytes(input);
  }

  /** and the buffer is left, whatever the table holds: with the size in front, the stream is
      longer by a byte for every 255 and three. */
  lemma BufferTooSmall(input: seq<byte>, held: nat -> Table)
    requires MIN_SIZE <= |input| < MAX_SIZE && NoFourTwice(input)
    ensures PackedSize(input, held, 0) == -1
    ensures Top(input, held, 0, 0) == 4 + |input| + (|input| - 7) / 255 + 4 > BufferSize(|input|)
  {
    hide Commands, NoFourTwice, Chosen, Top, PackedSize, EndBytes, Spells, Fits;
    SingleChunk(input, held);
    NothingToSend(input, Commands(input, held(0)));
    StreamOfNone(input);
    assert |input| / MAX_SIZE == 0;
  }

  // ---- The whole program

  /** One chunk behind its size. */
  method PackOne(input: seq<byte>, out: array<byte>, pos: nat, held: Table) returns (ret: int, top: nat)
    requires pos + 4 + ReachOf(input, held) <= out.Length
    modifies out
    ensures top == pos + 4 + ReachOf(input, held) && out[..pos] == old(out[..pos]) && out[top..] == old(out[top..])
    ensures |input| < MIN_SIZE || |input| > MAX_SIZE ==> ret == -1
    ensures MIN_SIZE <= |input| <= MAX_SIZE ==> ret == Gain(Commands(input, held), input)
    ensures MIN_SIZE <= |input| <= MAX_SIZE && ret >= 0 ==>
      && 0 < ret < 0x8000_0000 && |Stream(Commands(input, held), input)| == ret && top == pos + 4 + ret
      && out[..top] == old(out[..pos]) + (Le32Bytes(ret) + Stream(Commands(input, held), input))
  {
    hide *;
    Constants();
    ReachIs(input, held);
    ghost var before, was := out[..pos], out[..];
    ret, top := Compress(input, out, pos + 4, held);
    assert out[..pos] == out[..pos + 4][..pos] == before;
    if MIN_SIZE <= |input| <= MAX_SIZE {
      ghost var cs := Commands(input, held);
      GainIs(cs, input);
      if ret >= 0 {
        ghost var after := out[pos + 4..];
        PrefixOfTail(out[..], pos + 4, ret);
        WriteSize(out, pos, ret);
        PartStays(out[..], Stream(cs, input), pos + 4, ret, after);
        WrittenPart(out[..], pos, before, ret, Stream(cs, input));
        TailOfTail(out[..], was, after, pos + 4, top);
      }
    }
  }

  lemma TailOfTail(out: seq<byte>, was: seq<byte>, after: seq<byte>, at: nat, top: nat)
    requires at <= top <= |out| == |was| && out[at..] == after && |after| == |was| - at && after[top - at..] == was[top..]
    ensures out[top..] == was[top..]
  {
    assert out[top..] == out[at..][top - at..];
  }

  /** A chunk that is too short. */
  lemma ShortChunk(input: seq<byte>, held: nat -> Table, i: nat, pos: nat)
    requires i < |input| && |Chunk(input, i)| < MIN_SIZE
    ensures PackedSize(input, held, i) == -1 && Top(input, held, i, pos) == pos + 4 + ReachOf(Chunk(input, i), held(i))
  {
    hide Commands, Gain, Reach;
    ChunkSizesFit(|input| - i);
  }

  /** A chunk that is not, as the three functions see it. */
  lemma NextChunk(input: seq<byte>, held: nat -> Table, i: nat, pos: nat, chunk: seq<byte>, cs: seq<Command>)
    requires i < |input| && chunk == Chunk(input, i) && MIN_SIZE <= |chunk| <= MAX_SIZE && cs == Commands(chunk, held(i))
    ensures i + |chunk| <= |input| && AllFit(cs) && EndOf(cs, 0) <= |chunk| && Chosen(cs, chunk)
    ensures pos + 4 + ReachOf(chunk, held(i)) <= Top(input, held, i, pos)
    ensures Gain(cs, chunk) == -1 ==> PackedSize(input, held, i) == -1 && Top(input, held, i, pos) == pos + 4 + ReachOf(chunk, held(i))
    ensures Gain(cs, chunk) != -1 ==>
      var n, more := Gain(cs, chunk), PackedSize(input, held, i + |chunk|);
      && n == |Stream(cs, chunk)| && PackedSize(input, held, i) == (if more == -1 then -1 else 4 + n + more)
      && Top(input, held, i, pos) == Top(input, held, i + |chunk|, pos + 4 + n)
    ensures Parts(input, held, i) == [Part(Stream(cs, chunk), cs)] + Parts(input, held, i + |chunk|)
  {
    hide Commands, Gain, Reach, Stream;
    ChunkSizesFit(|input| - i);
    GainIs(cs, chunk);
  }

  /** Shrinker_c: the whole input, chunk by chunk, or -1 if a chunk cannot be packed; top is how
      far it has written or set space aside. */
  method PackAll(input: seq<byte>, out: array<byte>, held: nat -> Table) returns (r: int, top: nat)
    requires Top(input, held, 0, 0) <= out.Length
    modifies out
    ensures r == PackedSize(input, held, 0)
    ensures top == Top(input, held, 0, 0) && out[top..] == old(out[top..])
    ensures r >= 0 ==> top == r && Chunked(out[..r], Parts(input, held, 0), input, 0, |input|)
  {
    hide *;
    Constants();
    var done: nat, pos: nat := 0, 0;
    ghost var parts, was := [], out[..];
    ChunkedStart(out[..0], input);
    SoonStarts(input, held);
    top := 0;
    while done < |input|
      invariant pos <= out.Length && done <= |input| && Chunked(out[..pos], parts, input, 0, done)
      invariant Soon(input, held, done, pos, parts) && top == pos && out[top..] == was[top..]
      decreases |input| - done
    {
      SoonNext(input, held, done, pos, parts);
      var n := ChunkSize(|input| - done);
      ghost var before, mid, chunk := out[..pos], out[..], input[done..done + n];
      var ret;
      ret, top := PackOne(input[done..done + n], out, pos, held(done));
      SameTail(mid, was, pos, top);
      if ret == -1 {
        return -1, top;
      }
      ghost var cs := Commands(chunk, held(done));
      ChunkedAppend(before, parts, input, 0, done, Part(Stream(cs, chunk), cs));
      parts := parts + [Part(Stream(cs, chunk), cs)];
      pos, done := pos + 4 + ret, done + n;
    }
    SoonEnds(input, held, pos, parts);
    return pos, pos;
  }

  /** What has been packed, with what is still to come, is what the whole input becomes. */
  ghost predicate Soon(input: seq<byte>, held: nat -> Table, i: nat, pos: nat, parts: seq<Part>) {
    && i <= |input| && Top(input, held, i, pos) == Top(input, held, 0, 0)
    && var more := PackedSize(input, held, i);
    && PackedSize(input, held, 0) == (if more == -1 then -1 else pos + more)
    && Parts(input, held, 0) == parts + Parts(input, held, i)
  }

  lemma SoonStarts(input: seq<byte>, held: nat -> Table)
    ensures Soon(input, held, 0, 0, [])
  {
    hide PackedSize, Top, Parts;
    assert [] + Parts(input, held, 0) == Parts(input, held, 0);
  }

  lemma SoonNext(input: seq<byte>, held: nat -> Table, i: nat, pos: nat, parts: seq<Part>)
    requires Soon(input, held, i, pos, parts) && i < |input|
    ensures var chunk := input[i..i + ChunkSize(|input| - i)];
      && 0 < |chunk| == ChunkSize(|input| - i) <= MAX_SIZE
      && pos + 4 + ReachOf(chunk, held(i)) <= Top(input, held, 0, 0)
      && (|chunk| < MIN_SIZE ==> PackedSize(input, held, 0) == -1 && Top(input, held, 0, 0) == pos + 4 + ReachOf(chunk, held(i)))
      && (|chunk| >= MIN_SIZE ==>
            var cs := Commands(chunk, held(i));
            && AllFit(cs) && EndOf(cs, 0) <= |chunk| && Chosen(cs, chunk)
            && (Gain(cs, chunk) == -1 ==> PackedSize(input, held, 0) == -1 && Top(input, held, 0, 0) == pos + 4 + ReachOf(chunk, held(i)))
            && (Gain(cs, chunk) != -1 ==>
                  && Packs(Stream(cs, chunk), cs, chunk) && Gain(cs, chunk) >= 0
                  && Soon(input, held, i + |chunk|, pos + 4 + Gain(cs, chunk), parts + [Part(Stream(cs, chunk), cs)])))
  {
    hide Commands, Gain, Stream, Top, PackedSize, Parts, ReachOf, Chosen;
    var chunk := input[i..i + ChunkSize(|input| - i)];
    assert chunk == Chunk(input, i);
    ChunkSizesFit(|input| - i);
    if |chunk| < MIN_SIZE {
      ShortChunk(input, held, i, pos);
    } else {
      var cs := Commands(chunk, held(i));
      NextChunk(input, held, i, pos, chunk, cs);
      GainIs(cs, chunk);
      if Gain(cs, chunk) != -1 {
        assert parts + ([Part(Stream(cs, chunk), cs)] + Parts(input, held, i + |chunk|))
          == parts + [Part(Stream(cs, chunk), cs)] + Parts(input, held, i + |chunk|);
      }
    }
  }

  lemma SoonEnds(input: seq<byte>, held: nat -> Table, pos: nat, parts: seq<Part>)
    requires Soon(input, held, |input|, pos, parts)
    ensures PackedSize(input, held, 0) == Top(input, held, 0, 0) == pos && Parts(input, held, 0) == parts
  {
    assert parts + [] == parts;
  }

  lemma PrefixOfTail(out: seq<byte>, at: nat, n: nat)
    requires at + n <= |out|
    ensures out[at..][..n] == out[at..at + n]
  {
  }

  lemma PartStays(out: seq<byte>, part: seq<byte>, at: nat, n: nat, after: seq<byte>)
    requires at + n <= |out| && out[at..] == after && n <= |after| && after[..n] == part
    ensures out[at..at + n] == part
  {
    assert out[at..at + n] == out[at..][..n];
  }

  lemma ChunkedStart(s: seq<byte>, data: seq<byte>)
    requires s == []
    ensures Chunked(s, [], data, 0, 0)
  {
  }

  lemma WrittenPart(out: seq<byte>, pos: nat, before: seq<byte>, n: nat, part: seq<byte>)
    requires n < 0x8000_0000 && pos + 4 + n <= |out| && out[..pos] == before && out[pos..pos + 4] == Le32Bytes(n)
    requires |part| == n && out[pos + 4..pos + 4 + n] == part
    ensures out[..pos + 4 + n] == before + (Le32Bytes(n) + part)
  {
    hide Le32Bytes;
    assert out[..pos + 4 + n] == out[..pos] + (out[pos..pos + 4] + out[pos + 4..pos + 4 + n]);
  }

  lemma ChunkedOne(s: seq<byte>, parts: seq<Part>, data: seq<byte>, i: nat)
    requires Chunked(s, parts, data, i, |data|) && i < |data|
    ensures parts != [] && 0 < ChunkSize(|data| - i) && i + ChunkSize(|data| - i) <= |data|
    ensures var k := |parts[0].bytes|;
      && k < 0x8000_0000 && 4 + k <= |s| && s[..4] == Le32Bytes(k) && s[4..4 + k] == parts[0].bytes
      && Packs(parts[0].bytes, parts[0].cs, data[i..i + ChunkSize(|data| - i)])
      && Chunked(s[4 + k..], parts[1..], data, i + ChunkSize(|data| - i), |data|)
  {
    ChunkSizesFit(|data| - i);
  }

  /** Shrinker_d: as many chunks as the size of the data asks for. */
  method UnpackAll(s: seq<byte>, out: array<byte>, size: nat, ghost parts: seq<Part>, ghost data: seq<byte>) returns (r: int)
    requires Chunked(s, parts, data, 0, |data|) && size == |data| <= out.Length
    modifies out
    ensures r == size && out[..size] == data
  {
    hide *;
    var left: nat, at: nat, p: nat := size, 0, 0;
    ghost var ps := parts;
    assert s[0..] == s;
    while left > 0
      invariant at + left == size && p <= |s| && out[..at] == data[..at] && Chunked(s[p..], ps, data, at, |data|)
      decreases left
    {
      ChunkedOne(s[p..], ps, data, at);
      var n := ChunkSize(left);
      ghost var k := |ps[0].bytes|;
      var compressed := Le32(s, p);
      SizeRead(s, p, k);
      p := p + 4;
      PartRead(s, p, k);
      r := Decompress(s[p..p + compressed], out, at, n, ps[0].cs, data[at..at + n]);
      assert data[..at] + data[at..at + n] == data[..at + n];
      p, at, left := p + compressed, at + n, left - n;
      ps := ps[1..];
    }
    assert data[..at] == data;
    r := size;
  }

  lemma SizeRead(s: seq<byte>, p: nat, k: nat)
    requires p + 4 <= |s| && k < 0x8000_0000 && s[p..][..4] == Le32Bytes(k)
    ensures Le32(s, p) == k
  {
    Le32Back(k);
    hide Le32Bytes;
    var b := s[p..][..4];
    assert s[p] == b[0] && s[p + 1] == b[1] && s[p + 2] == b[2] && s[p + 3] == b[3];
  }

  lemma PartRead(s: seq<byte>, p: nat, k: nat)
    requires 4 <= p && p + k <= |s|
    ensures s[p - 4..][4..4 + k] == s[p..p + k] && s[p - 4..][4 + k..] == s[p + k..]
  {
  }

  /** What was packed unpacks to the input; it is packed exactly if every chunk can be. */
  method ThereAndBack(input: seq<byte>, packed: array<byte>, plain: array<byte>, held: nat -> Table) returns (r: int)
    requires Top(input, held, 0, 0) <= packed.Length && |input| <= plain.Length && packed != plain
    modifies packed, plain
    ensures r == -1 <==> PackedSize(input, held, 0) == -1
    ensures r != -1 ==> r == |input| && plain[..|input|] == input
  {
    hide *;
    var top;
    r, top := PackAll(input, packed, held);
    if r >= 0 {
      r := UnpackAll(packed[..r], plain, |input|, Parts(input, held, 0), input);
    }
  }
}

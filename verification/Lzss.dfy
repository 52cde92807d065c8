/** LZSS: exact three-byte chains, a cheapest parse, and items in groups of eight. */
module Lzss {
  import opened Bits
  import opened Tokens

  const MINMATCH: nat := 3
  const MAXMATCH: nat := 66
  const N: nat := 0x200_0000
  const W: nat := 0x4_0000
  const HASHSIZE: nat := 0x100_0000

  // ---- The format

  predicate Fits(t: Token) {
    t.Copy? ==> 1 <= t.distance <= W && MINMATCH <= t.len <= MAXMATCH
  }

  predicate AllFit(ts: seq<Token>) {
    forall j :: 0 <= j < |ts| ==> Fits(ts[j])
  }

  /** A literal as it is; a match in three bytes. */
  function ItemBytes(t: Token): (b: seq<byte>)
    requires Fits(t)
    ensures |b| == if t.Copy? then 3 else 1
  {
    if t.Literal? then [t.c] else
      var offset := t.distance - 1;
      [offset % 4 * 64 + (t.len - MINMATCH), offset / 4 % 256, offset / 1024]
  }

  function Payload(ts: seq<Token>): seq<byte>
    requires AllFit(ts)
  {
    if ts == [] then [] else ItemBytes(ts[0]) + Payload(ts[1..])
  }

  /** Bit j tells whether item j is a match. */
  function FlagBits(ts: seq<Token>): nat {
    if ts == [] then 0 else (if ts[0].Copy? then 1 else 0) + 2 * FlagBits(ts[1..])
  }

  lemma {:induction false} FlagBitsSmall(ts: seq<Token>)
    ensures FlagBits(ts) < Pow2(|ts|)
  {
    if ts != [] {
      FlagBitsSmall(ts[1..]);
    }
  }

  lemma FlagsInByte(ts: seq<Token>)
    requires |ts| <= 8
    ensures FlagBits(ts) < 256
  {
    FlagBitsSmall(ts);
    PowMono(|ts|, 8);
    assert Pow2(8) == 256;
  }

  /** Up to eight items behind their flags. */
  function Group(ts: seq<Token>): seq<byte>
    requires AllFit(ts) && |ts| <= 8
  {
    FlagsInByte(ts);
    [FlagBits(ts)] + Payload(ts)
  }

  function Groups(ts: seq<Token>): seq<byte>
    requires AllFit(ts)
    decreases |ts|
  {
    if ts == [] then []
    else if |ts| <= 8 then Group(ts)
    else Group(ts[..8]) + Groups(ts[8..])
  }

  function LengthOf(t: Token): nat {
    if t.Copy? then t.len else 1
  }

  /** The items spell data from i on. */
  ghost predicate Spells(ts: seq<Token>, data: seq<byte>, i: nat)
    decreases |ts|
  {
    if ts == [] then i == |data|
    else ItemAt(ts[0], data, i) && Spells(ts[1..], data, i + LengthOf(ts[0]))
  }

  ghost predicate ItemAt(t: Token, data: seq<byte>, i: nat) {
    && Fits(t)
    && (t.Literal? ==> i < |data| && data[i] == t.c)
    && (t.Copy? ==> Agrees(data, i, t.distance, t.len))
  }

  lemma {:induction false} SpellsFits(ts: seq<Token>, data: seq<byte>, i: nat)
    requires Spells(ts, data, i)
    ensures AllFit(ts) && i <= |data|
    decreases |ts|
  {
    hide Agrees;
    if ts != [] {
      SpellsFits(ts[1..], data, i + LengthOf(ts[0]));
      forall j | 0 <= j < |ts| ensures Fits(ts[j]) {
        if j > 0 {
          assert ts[j] == ts[1..][j - 1];
        }
      }
    }
  }

  lemma {:induction false} PayloadSize(ts: seq<Token>, data: seq<byte>, i: nat)
    requires Spells(ts, data, i) && AllFit(ts)
    ensures i <= |data| && |Payload(ts)| <= |data| - i && |ts| <= |data| - i
    decreases |ts|
  {
    hide Agrees;
    if ts != [] {
      PayloadSize(ts[1..], data, i + LengthOf(ts[0]));
    }
  }

  lemma {:induction false} PayloadAppend(a: seq<Token>, b: seq<Token>)
    requires AllFit(a) && AllFit(b)
    ensures AllFit(a + b) && Payload(a + b) == Payload(a) + Payload(b)
  {
    hide ItemBytes, Fits;
    if a == [] {
      assert a + b == b;
    } else {
      PayloadAppend(a[1..], b);
      assert (a + b)[1..] == a[1..] + b;
    }
  }

  lemma EmptyPayload(ts: seq<Token>)
    requires ts == []
    ensures AllFit(ts) && Payload(ts) == []
  {
  }

  lemma {:induction false} GroupsSize(ts: seq<Token>)
    requires AllFit(ts)
    ensures |Groups(ts)| == |Payload(ts)| + (|ts| + 7) / 8
    decreases |ts|
  {
    hide Payload, FlagBits, Fits;
    if ts == [] {
      EmptyPayload(ts);
    } else if |ts| > 8 {
      GroupsSize(ts[8..]);
      PayloadAppend(ts[..8], ts[8..]);
      assert ts[..8] + ts[8..] == ts;
    }
  }

  /** A block of n bytes never takes more than n bytes and one for each eight. */
  lemma BlockSize(ts: seq<Token>, data: seq<byte>)
    requires Spells(ts, data, 0) && AllFit(ts)
    ensures |Groups(ts)| <= |data| + (|data| + 7) / 8
  {
    GroupsSize(ts);
    PayloadSize(ts, data, 0);
  }

  /** What a whole stream stands for: blocks of N bytes, the last one shorter. */
  ghost predicate Stream(s: seq<byte>, data: seq<byte>, blocks: seq<seq<Token>>)
    decreases |blocks|
  {
    if blocks == [] then data == [] && s == [] else
      var n := if |data| < N then |data| else N;
      && data != [] && AllFit(blocks[0]) && Spells(blocks[0], data[..n], 0)
      && Groups(blocks[0]) <= s && Stream(s[|Groups(blocks[0])|..], data[n..], blocks[1..])
  }

  lemma StreamOfOne(ts: seq<Token>, data: seq<byte>)
    requires data != [] && |data| <= N && Spells(ts, data, 0) && AllFit(ts)
    ensures Stream(Groups(ts), data, [ts])
  {
    hide Groups, Spells, AllFit;
    var g := Groups(ts);
    assert g[|g|..] == [] && data[..|data|] == data && data[|data|..] == [] && [ts][1..] == [];
    assert Stream([], [], []);
  }

  /** A block behind whole blocks. */
  lemma {:induction false} StreamAppend(s: seq<byte>, data: seq<byte>, blocks: seq<seq<Token>>, ts: seq<Token>, more: seq<byte>)
    requires Stream(s, data, blocks) && |data| % N == 0
    requires more != [] && |more| <= N && Spells(ts, more, 0) && AllFit(ts)
    ensures Stream(s + Groups(ts), data + more, blocks + [ts])
    decreases |blocks|
  {
    hide Groups, Spells, AllFit;
    var g := Groups(ts);
    if blocks == [] {
      StreamOfOne(ts, more);
      assert s + g == g && data + more == more && blocks + [ts] == [ts];
    } else {
      assert |data| >= N;
      var k := |Groups(blocks[0])|;
      StreamAppend(s[k..], data[N..], blocks[1..], ts, more);
      assert (s + g)[k..] == s[k..] + g && (data + more)[N..] == data[N..] + more && (data + more)[..N] == data[..N];
      assert (blocks + [ts])[1..] == blocks[1..] + [ts];
    }
  }

  // ---- The parse

  /** An entry of path: a match, its place, and the cost from here to the end of the block. */
  datatype Cell = Cell(len: nat, offset: nat, cost: nat)

  /** Every recorded match is one. */
  ghost predicate Recorded(path: seq<Cell>, data: seq<byte>) {
    |path| == |data| && forall i :: 0 <= i < |path| ==> MatchAt(path[i], data, i)
  }

  ghost predicate MatchAt(c: Cell, data: seq<byte>, i: nat) {
    c.len >= MINMATCH ==> c.len <= MAXMATCH && c.offset < W && Agrees(data, i, c.offset + 1, c.len)
  }

  /** The items met when path is followed from i. */
  function Follow(path: seq<Cell>, data: seq<byte>, i: nat): (ts: seq<Token>)
    requires |path| == |data|
    decreases |data| - i
  {
    if i >= |data| then []
    else if path[i].len >= MINMATCH then [Copy(path[i].offset + 1, path[i].len)] + Follow(path, data, i + path[i].len)
    else [Literal(data[i])] + Follow(path, data, i + 1)
  }

  lemma {:induction false} FollowSpells(path: seq<Cell>, data: seq<byte>, i: nat)
    requires Recorded(path, data) && i <= |data|
    ensures Spells(Follow(path, data, i), data, i)
    decreases |data| - i
  {
    hide Agrees;
    if i < |data| {
      assert MatchAt(path[i], data, i);
      if path[i].len >= MINMATCH {
        MatchInside(data, i, path[i].offset + 1, path[i].len);
        FollowSpells(path, data, i + path[i].len);
      } else {
        FollowSpells(path, data, i + 1);
      }
    }
  }

  lemma MatchInside(data: seq<byte>, i: nat, d: nat, n: nat)
    requires Agrees(data, i, d, n)
    ensures i + n <= |data|
  {
  }

  /** What following the matches in path costs: 25 bits a match, 9 bits a literal; the
      last byte, as a literal, is free. */
  function Cost(path: seq<Cell>, i: nat): nat
    decreases |path| - i
  {
    if i >= |path| then 0
    else if path[i].len >= MINMATCH then 25 + Cost(path, i + path[i].len)
    else if i == |path| - 1 then 0
    else 9 + Cost(path, i + 1)
  }

  /** The least a literal or the recorded match at every place can cost. */
  function Least(found: seq<Cell>, i: nat): nat
    decreases |found| - i
  {
    if i >= |found| then 0 else
      var literal := if i == |found| - 1 then 0 else 9 + Least(found, i + 1);
      if found[i].len >= MINMATCH then
        var matched := 25 + Least(found, i + found[i].len);
        if literal < matched then literal else matched
      else literal
  }

  /** One of the parses there are: at each place the recorded match or none. */
  predicate ParseOf(path: seq<Cell>, found: seq<Cell>) {
    |path| == |found| && forall i :: 0 <= i < |path| ==> Chooses(path[i], found[i])
  }

  predicate Chooses(c: Cell, found: Cell) {
    c.len < MINMATCH || (c.len == found.len && c.offset == found.offset)
  }

  lemma {:induction false} NoParseIsCheaper(path: seq<Cell>, found: seq<Cell>, i: nat)
    requires ParseOf(path, found)
    ensures Least(found, i) <= Cost(path, i)
    decreases |path| - i
  {
    if i < |path| {
      assert Chooses(path[i], found[i]);
      if path[i].len >= MINMATCH {
        NoParseIsCheaper(path, found, i + path[i].len);
      } else if i < |path| - 1 {
        NoParseIsCheaper(path, found, i + 1);
      }
    }
  }

  /** Place i has been decided as it should be. */
  predicate Decided(c: Cell, found: seq<Cell>, i: nat)
    requires i < |found|
  {
    && c.cost == Least(found, i)
    && Chooses(c, found[i])
    && (c.len >= MINMATCH ==> Least(found, i) == 25 + Least(found, i + found[i].len))
    && (c.len < MINMATCH && i < |found| - 1 ==> Least(found, i) == 9 + Least(found, i + 1))
    && (c.len < MINMATCH && i == |found| - 1 ==> Least(found, i) == 0)
  }

  lemma {:induction false} DecidedIsLeast(path: seq<Cell>, found: seq<Cell>, from: nat, i: nat)
    requires |path| == |found| && from <= i
    requires forall j :: from <= j < |path| ==> Decided(path[j], found, j)
    ensures Cost(path, i) == Least(found, i)
    decreases |path| - i
  {
    hide Least;
    if i < |path| {
      assert Decided(path[i], found, i);
      if path[i].len >= MINMATCH {
        DecidedIsLeast(path, found, from, i + path[i].len);
      } else if i < |path| - 1 {
        DecidedIsLeast(path, found, from, i + 1);
      }
    } else {
      LeastAtEnd(found, i);
    }
  }

  /** Neither the first nor the last place has a match. */
  lemma EndsAreLiterals(found: seq<Cell>, data: seq<byte>)
    requires Recorded(found, data) && |data| > 0
    ensures found[0].len < MINMATCH && found[|found| - 1].len < MINMATCH
  {
    assert MatchAt(found[0], data, 0) && MatchAt(found[|found| - 1], data, |found| - 1);
  }

  lemma LastIsDecided(found: seq<Cell>)
    requires |found| > 0 && found[|found| - 1].len < MINMATCH && found[|found| - 1].cost == 0
    ensures Decided(found[|found| - 1], found, |found| - 1)
  {
  }

  /** The choice made at place i, from the costs behind it. */
  lemma ChoiceDecides(c: Cell, found: seq<Cell>, i: nat, c1: nat, c2: nat)
    requires i < |found| - 1 && c1 == 9 + Least(found, i + 1)
    requires found[i].len >= MINMATCH ==> c2 == 25 + Least(found, i + found[i].len)
    requires c == if found[i].len >= MINMATCH then if c1 < c2 then found[i].(len := 0, cost := c1) else found[i].(cost := c2) else found[i].(cost := c1)
    ensures Decided(c, found, i)
  {
  }

  /** Every place but the first having been decided, the parse from the first is a least one. */
  lemma FirstPlace(path: seq<Cell>, found: seq<Cell>, data: seq<byte>)
    requires Recorded(found, data) && |path| == |data| > 0 && path[0] == found[0]
    requires forall j :: 1 <= j < |path| ==> Decided(path[j], found, j)
    ensures Recorded(path, data) && ParseOf(path, found) && Cost(path, 0) == Least(found, 0)
  {
    hide Agrees;
    EndsAreLiterals(found, data);
    if |path| > 1 {
      DecidedIsLeast(path, found, 1, 1);
    }
    forall j | 0 <= j < |path| ensures Chooses(path[j], found[j]) && MatchAt(path[j], data, j) {
      assert MatchAt(found[j], data, j);
      if j > 0 {
        assert Decided(path[j], found, j);
      }
    }
  }

  lemma LeastAtEnd(found: seq<Cell>, i: nat)
    requires i >= |found|
    ensures Least(found, i) == 0
  {
  }

  /** The cost is the number of bits the items take, but for the last byte. */
  lemma {:induction false} CostIsBits(path: seq<Cell>, data: seq<byte>, i: nat)
    requires Recorded(path, data) && i <= |data| && AllFit(Follow(path, data, i))
    ensures var ts := Follow(path, data, i);
      8 * |Payload(ts)| + |ts| == Cost(path, i) + if ts != [] && ts[|ts| - 1].Literal? then 9 else 0
    decreases |data| - i
  {
    hide Agrees, AllFit;
    if i < |data| {
      assert MatchAt(path[i], data, i);
      var ts := Follow(path, data, i);
      var next := if path[i].len >= MINMATCH then i + path[i].len else i + 1;
      if path[i].len >= MINMATCH {
        MatchInside(data, i, path[i].offset + 1, path[i].len);
      }
      FollowSpells(path, data, next);
      SpellsFits(ts[1..], data, next);
      CostIsBits(path, data, next);
      FitsFirst(ts);
      if next < |data| {
        assert ts[1..] != [];
      }
    }
  }

  lemma FitsFirst(ts: seq<Token>)
    requires ts != [] && AllFit(ts) && AllFit(ts[1..])
    ensures |Payload(ts)| == |Payload(ts[1..])| + if ts[0].Copy? then 3 else 1
  {
  }

  // ---- The match finder

  /** The hash is the three bytes themselves; behind the end of the block it is made of whatever the buffer holds. */
  function Hash(buf: seq<byte>, i: nat): (h: nat)
    requires i + 3 <= |buf|
    ensures h < HASHSIZE
  {
    buf[i] as nat + 0x100 * buf[i + 1] as nat + 0x1_0000 * buf[i + 2] as nat
  }

  /** r is the last place below i with hash h, or 0; place 0 itself is never found. */
  ghost predicate IsLast(buf: seq<byte>, h: nat, i: nat, r: int)
    requires i + 2 <= |buf|
  {
    && 0 <= r && (r == 0 || (r < i && Hash(buf, r) == h))
    && forall q :: 1 <= q < i && q > r ==> Hash(buf, q) != h
  }

  /** No match at q is longer than len. */
  ghost predicate NoLonger(data: seq<byte>, i: nat, q: nat, len: nat) {
    q < i ==> !Agrees(data, i, i - q, len + 1)
  }

  /** No place in the window and behind from holds a match longer than len. */
  ghost predicate Searched(data: seq<byte>, i: nat, from: int, len: nat) {
    forall q :: 1 <= q < i && q > from && i - q <= W ==> NoLonger(data, i, q, len)
  }

  lemma TooLong(data: seq<byte>, i: nat, q: nat, len: nat)
    requires q < i && i + len >= |data|
    ensures NoLonger(data, i, q, len)
  {
  }

  lemma Stops(data: seq<byte>, i: nat, q: nat, j: nat, len: nat)
    requires q < i && i + j < |data| && data[q + j] != data[i + j] && j <= len
    ensures NoLonger(data, i, q, len)
  {
    assert data[i + j - (i - q)] == data[q + j];
  }

  lemma SameHash(b: seq<byte>, n: nat, i: nat, q: nat, len: nat)
    requires q < i < n && n + 3 <= |b| && 2 <= len && Agrees(b[..n], i, i - q, len + 1)
    ensures Hash(b, q) == Hash(b, i)
  {
    assert b[i] == b[..n][i] && b[i + 1] == b[..n][i + 1] && b[i + 2] == b[..n][i + 2];
    assert b[q] == b[..n][i - (i - q)] && b[q + 1] == b[..n][i + 1 - (i - q)] && b[q + 2] == b[..n][i + 2 - (i - q)];
  }

  lemma SearchStart(b: seq<byte>, n: nat, i: nat, r: int)
    requires i < n && n + 3 <= |b| && IsLast(b, Hash(b, i), i, r)
    ensures Searched(b[..n], i, r, 2)
  {
    hide Hash, Agrees;
    forall q | 1 <= q < i && q > r ensures NoLonger(b[..n], i, q, 2) {
      if Agrees(b[..n], i, i - q, 3) {
        SameHash(b, n, i, q, 2);
      }
    }
  }

  lemma NoLongerUp(data: seq<byte>, i: nat, q: nat, len: nat, len': nat)
    requires NoLonger(data, i, q, len) && len <= len'
    ensures NoLonger(data, i, q, len')
  {
  }

  lemma SearchNext(b: seq<byte>, n: nat, i: nat, pos: nat, len: nat, len': nat, r: int)
    requires 1 <= pos < i < n && n + 3 <= |b| && Searched(b[..n], i, pos, len) && 2 <= len <= len'
    requires NoLonger(b[..n], i, pos, len') && Hash(b, pos) == Hash(b, i) && IsLast(b, Hash(b, pos), pos, r)
    ensures Searched(b[..n], i, r, len')
  {
    hide Hash;
    forall q | 1 <= q < i && q > r && i - q <= W ensures NoLonger(b[..n], i, q, len') {
      if q > pos {
        NoLongerUp(b[..n], i, q, len, len');
      } else if q < pos && Agrees(b[..n], i, i - q, len' + 1) {
        SameHash(b, n, i, q, len');
      }
    }
  }

  /** The places behind q at which the next three bytes have occurred. */
  ghost function Nearer(data: seq<byte>, i: nat, q: nat): set<nat> {
    set p: nat | q < p < i && ThreeAt(data, i, p)
  }

  ghost predicate ThreeAt(data: seq<byte>, i: nat, p: nat) {
    p < i && Agrees(data, i, i - p, 3)
  }

  /** One of the tries nearest places, but for the very first, at which they have, 0x40000 bytes back at most. */
  ghost predicate Tried(data: seq<byte>, i: nat, q: nat, tries: nat) {
    1 <= q < i && i - q <= 0x40000 && ThreeAt(data, i, q) && |Nearer(data, i, q)| < tries
  }

  /** At no place tried is there a longer match of up to 66 bytes, and at none that is nearer is there one as long. */
  ghost predicate Best(c: Cell, data: seq<byte>, i: nat, tries: nat) {
    && (c.len >= 3 ==> c.offset + 1 < i && Tried(data, i, i - c.offset - 1, tries))
    && forall q: nat :: Tried(data, i, q, tries) ==>
         && (c.len < 66 ==> !Agrees(data, i, i - q, c.len + 1))
         && (c.len >= 3 && Agrees(data, i, i - q, c.len) ==> c.offset + 1 <= i - q)
  }

  /** The places behind from that are in the chain of i. */
  ghost function Behind(b: seq<byte>, i: nat, from: nat): set<nat>
    requires i + 3 <= |b|
  {
    set p: nat | from < p < i && Hash(b, p) == Hash(b, i)
  }

  /** Of the places behind from, none nearer holds a match as long. */
  ghost predicate Nearest(data: seq<byte>, i: nat, from: int, len: nat, offset: nat) {
    len >= 3 ==> forall q: nat :: q > from ==> NotNearer(data, i, q, len, offset)
  }

  ghost predicate NotNearer(data: seq<byte>, i: nat, q: nat, len: nat, offset: nat) {
    1 <= q < i && i - q <= W && Agrees(data, i, i - q, len) ==> offset + 1 <= i - q
  }

  lemma BehindIsNearer(b: seq<byte>, n: nat, i: nat, q: nat)
    requires i < n && n + 3 <= |b| && q < i && Agrees(b[..n], i, i - q, 3)
    ensures q in Behind(b, i, 0) || q == 0
    ensures forall from: nat :: Behind(b, i, from) == Nearer(b[..n], i, from)
  {
    hide Hash, Agrees;
    SameHash(b, n, i, q, 2);
    Fits3(b, n, i, q);
    forall p: nat | p < i ensures Hash(b, p) == Hash(b, i) <==> Agrees(b[..n], i, i - p, 3) {
      if Agrees(b[..n], i, i - p, 3) {
        SameHash(b, n, i, p, 2);
      } else if Hash(b, p) == Hash(b, i) {
        SameThree(b, n, i, p);
      }
    }
  }

  lemma Fits3(b: seq<byte>, n: nat, i: nat, q: nat)
    requires n <= |b| && q < i && Agrees(b[..n], i, i - q, 3)
    ensures i + 3 <= n
  {
  }

  /** The hash is the three bytes. */
  lemma SameThree(b: seq<byte>, n: nat, i: nat, q: nat)
    requires q < i && i + 3 <= n <= |b| && Hash(b, q) == Hash(b, i)
    ensures Agrees(b[..n], i, i - q, 3)
  {
    assert b[q] == b[i] && b[q + 1] == b[i + 1] && b[q + 2] == b[i + 2];
  }

  lemma BehindMore(b: seq<byte>, i: nat, from: nat, q: nat)
    requires i + 3 <= |b| && from <= q
    ensures |Behind(b, i, q)| <= |Behind(b, i, from)|
    ensures from < q < i && Hash(b, q) == Hash(b, i) ==> |Behind(b, i, q)| < |Behind(b, i, from)|
  {
    hide Hash;
    var a, c := Behind(b, i, q), Behind(b, i, from);
    assert c == a + (c - a);
    if from < q < i && Hash(b, q) == Hash(b, i) {
      assert q in c - a;
    }
  }

  /** One step along the chain. */
  lemma BehindStep(b: seq<byte>, i: nat, pos: nat, r: nat)
    requires i + 3 <= |b| && pos < i && Hash(b, pos) == Hash(b, i) && IsLast(b, Hash(b, i), pos, r) && r < pos
    ensures |Behind(b, i, r)| == |Behind(b, i, pos)| + 1
  {
    hide Hash;
    assert Behind(b, i, r) == Behind(b, i, pos) + {pos};
  }

  lemma BehindNone(b: seq<byte>, i: nat, r: nat)
    requires i + 3 <= |b| && IsLast(b, Hash(b, i), i, r)
    ensures Behind(b, i, r) == {}
  {
    hide Hash;
  }

  lemma CellIs(c: Cell, b: seq<byte>, n: nat, i: nat, len: nat, offset: nat, rest: nat, tries: nat)
    requires i < n && n + 3 <= |b| && c.len == len && c.offset == offset && MatchAt(Cell(len, offset, 0), b[..n], i) && 2 <= len
    requires len < MAXMATCH ==> Searched(b[..n], i, rest, len)
    requires Nearest(b[..n], i, rest, len, offset)
    requires rest > 0 ==> |Behind(b, i, rest)| >= tries
    requires len >= MINMATCH ==> offset + 1 < i && |Behind(b, i, i - offset - 1)| < tries
    ensures MatchAt(c, b[..n], i) && Best(c, b[..n], i, tries)
  {
    hide Hash, Agrees, Behind, Nearer;
    var data := b[..n];
    if len >= MINMATCH {
      AgreesThree(data, i, offset + 1, len);
      BehindIsNearer(b, n, i, i - offset - 1);
    }
    forall q: nat | Tried(data, i, q, tries)
      ensures len < 66 ==> !Agrees(data, i, i - q, len + 1)
      ensures len >= 3 && Agrees(data, i, i - q, len) ==> offset + 1 <= i - q
    {
      BehindIsNearer(b, n, i, q);
      if q <= rest {
        BehindMore(b, i, q, rest);
      } else {
        assert len < MAXMATCH ==> NoLonger(data, i, q, len);
        assert len >= 3 ==> NotNearer(data, i, q, len, offset);
      }
    }
  }

  lemma AgreesThree(data: seq<byte>, i: nat, d: nat, len: nat)
    requires Agrees(data, i, d, len) && len >= 3
    ensures Agrees(data, i, d, 3)
  {
  }

  /** The place tried last holds a longer match, or it does not. */
  lemma NearestNext(b: seq<byte>, n: nat, i: nat, pos: nat, len: nat, offset: nat, len': nat, offset': nat, r: int)
    requires 1 <= pos < i < n && n + 3 <= |b| && 2 <= len <= len' && r < pos
    requires Searched(b[..n], i, pos, len) && Nearest(b[..n], i, pos, len, offset)
    requires if len' > len then offset' == i - pos - 1 else offset' == offset
    requires len >= 3 ==> offset + 1 < i - pos
    requires forall q :: 1 <= q < pos && q > r ==> Hash(b, q) != Hash(b, i)
    ensures Nearest(b[..n], i, r, len', offset')
  {
    hide Hash, Agrees;
    if len' >= 3 {
      forall q: nat | q > r ensures NotNearer(b[..n], i, q, len', offset') {
        if 1 <= q < i && i - q <= W && Agrees(b[..n], i, i - q, len') {
          if q > pos {
            assert NoLonger(b[..n], i, q, len);
            if len' > len {
              AgreesUpTo(b[..n], i, i - q, len', len + 1);
            } else {
              assert NotNearer(b[..n], i, q, len, offset);
            }
          } else if q < pos {
            AgreesThree(b[..n], i, i - q, len');
            SameHash(b, n, i, q, 2);
          }
        }
      }
    }
  }

  lemma AgreesUpTo(data: seq<byte>, i: nat, d: nat, n: nat, k: nat)
    requires Agrees(data, i, d, n) && k <= n
    ensures Agrees(data, i, d, k)
  {
  }

  /** A match that reaches the end of what is compared: all other places are further away. */
  lemma NearestFull(b: seq<byte>, n: nat, i: nat, pos: nat, len: nat, len': nat, offset': nat)
    requires 1 <= pos < i < n && n + 3 <= |b| && Searched(b[..n], i, pos, len) && len < len' && offset' == i - pos - 1
    ensures Nearest(b[..n], i, 0, len', offset')
  {
    hide Hash, Agrees;
    forall q: nat | q > 0 ensures NotNearer(b[..n], i, q, len', offset') {
      if q > pos && q < i && i - q <= W && Agrees(b[..n], i, i - q, len') {
        assert NoLonger(b[..n], i, q, len);
        AgreesUpTo(b[..n], i, i - q, len', len + 1);
      }
    }
  }

  lemma NearestFar(data: seq<byte>, i: nat, pos: nat, len: nat, offset: nat)
    requires pos < i && i - pos > W && Nearest(data, i, pos, len, offset)
    ensures Nearest(data, i, 0, len, offset)
  {
  }

  lemma SearchFar(data: seq<byte>, i: nat, pos: nat, len: nat)
    requires pos < i && i - pos > W && Searched(data, i, pos, len)
    ensures Searched(data, i, 0, len)
  {
  }

  lemma SearchFull(data: seq<byte>, i: nat, len: nat)
    requires i + len >= |data|
    ensures Searched(data, i, 0, len)
  {
  }

  ghost predicate Links(b: seq<byte>, i: nat, head: seq<int>, prev: seq<int>)
    requires i + 2 <= |b| && |head| == HASHSIZE && i <= |prev|
  {
    && (forall h :: 0 <= h < HASHSIZE ==> IsLast(b, h, i, head[h]))
    && forall p :: 0 <= p < i ==> LinkAt(b, p, prev[p])
  }

  ghost predicate LinkAt(b: seq<byte>, p: nat, r: int)
    requires p + 3 <= |b|
  {
    IsLast(b, Hash(b, p), p, r)
  }

  lemma LastUp(b: seq<byte>, h: nat, i: nat, r: int)
    requires i + 3 <= |b| && IsLast(b, h, i, r)
    ensures IsLast(b, h, i + 1, if h == Hash(b, i) then i else r)
  {
    hide Hash;
  }

  lemma LinkStep(b: seq<byte>, i: nat, head: seq<int>, prev: seq<int>, h: nat)
    requires i + 3 <= |b| && |head| == HASHSIZE && i < |prev| && Links(b, i, head, prev) && h == Hash(b, i)
    ensures Links(b, i + 1, head[h := i], prev[i := head[h]])
  {
    hide Hash, IsLast;
    var head', prev' := head[h := i], prev[i := head[h]];
    forall h' | 0 <= h' < HASHSIZE ensures IsLast(b, h', i + 1, head'[h']) {
      LastUp(b, h', i, head[h']);
    }
    forall p | 0 <= p < i + 1 ensures LinkAt(b, p, prev'[p]) {
      if p < i {
        assert LinkAt(b, p, prev[p]);
      }
    }
  }

  class Lzssim {
    const head: array<int>
    const prev: array<int>
    const path: array<Cell>

    constructor ()
      ensures Valid() && fresh(head) && fresh(prev) && fresh(path)
    {
      head := new int[HASHSIZE](_ => 0);
      prev := new int[N](_ => 0);
      path := new Cell[N](_ => Cell(0, 0, 0));
    }

    predicate Valid() {
      head.Length == HASHSIZE && prev.Length == N && path.Length == N && head != prev
    }

    /** The chains hold, for each place and each hash, the last place before. */
    ghost predicate Chained(buf: seq<byte>, i: nat)
      requires Valid() && i <= N && i + 2 <= |buf|
      reads head, prev
    {
      Links(buf, i, head[..], prev[..])
    }

    /** How far buf agrees with itself from p and from i on, below end. */
    method Common(buf: array<byte>, p: nat, i: nat, end: nat) returns (j: nat)
      requires p < i < end <= buf.Length
      ensures i <= j <= end && (j > i ==> Agrees(buf[..], i, i - p, j - i))
      ensures j < end ==> buf[j] != buf[j - (i - p)]
    {
      j := i;
      while j < end && buf[p + (j - i)] == buf[j]
        invariant i <= j <= end && forall k :: i <= k < j ==> buf[k] == buf[k - (i - p)]
      {
        j := j + 1;
      }
    }

    /** The match at pos, if it is longer than the one already known; full when it
        reaches end. */
    method TryMatch(buf: array<byte>, n: nat, end: nat, pos: nat, i: nat, len: nat, offset: nat)
      returns (len': nat, offset': nat, full: bool)
      requires pos < i < end <= n <= N && buf.Length == N + MINMATCH && i - pos <= W
      requires end == if i + MAXMATCH > n then n else i + MAXMATCH
      requires MatchAt(Cell(len, offset, 0), buf[..n], i) && 2 <= len && (i + len < end || len == 2)
      ensures MatchAt(Cell(len', offset', 0), buf[..n], i) && len <= len'
      ensures full ==> i + len' == end && len' > len
      ensures if len' > len then offset' == i - pos - 1 else offset' == offset
      ensures !full ==> NoLonger(buf[..n], i, pos, len') && (i + len' < end || len' == 2)
    {
      len', offset', full := len, offset, false;
      ghost var data := buf[..n];
      if buf[pos + len] == buf[i + len] {
        var j := Common(buf, pos, i, end);
        if j - i > len {
          len', offset' := j - i, i - pos - 1;
          assert Agrees(data, i, offset' + 1, len');
          full := i + len' == end;
        }
        if j < end {
          Stops(data, i, pos, j - i, len');
        } else if !full {
          TooLong(data, i, pos, len');
        }
      } else if i + len < n {
        Stops(data, i, pos, len, len);
      } else {
        TooLong(data, i, pos, len);
      }
    }

    lemma ChainedHead(b: seq<byte>, i: nat, h: nat)
      requires Valid() && i <= N && i + 3 <= |b| && Chained(b, i) && h < HASHSIZE
      ensures head.Length == HASHSIZE && IsLast(b, h, i, head[h]) && 0 <= head[h] && (head[h] > 0 ==> head[h] < i && Hash(b, head[h]) == h)
    {
      hide Hash;
    }

    lemma ChainedPrev(b: seq<byte>, i: nat, p: nat)
      requires Valid() && i <= N && i + 3 <= |b| && Chained(b, i) && p < i
      ensures prev.Length == N && IsLast(b, Hash(b, p), p, prev[p]) && 0 <= prev[p]
      ensures prev[p] > 0 ==> prev[p] < p && Hash(b, prev[p]) == Hash(b, p)
    {
      assert LinkAt(b, p, prev[..][p]);
      hide Hash;
    }

    /** The longest match at i, the nearest of these, among those tried. rest is the place
        where the tries ran out, or 0. */
    method BestMatch(buf: array<byte>, n: nat, i: nat, tries: nat) returns (len: nat, offset: nat, ghost rest: nat)
      requires Valid() && i < n <= N && buf.Length == N + MINMATCH && Chained(buf[..], i)
      ensures MatchAt(Cell(len, offset, 0), buf[..n], i) && 2 <= len
      ensures len < MAXMATCH ==> Searched(buf[..n], i, rest, len)
      ensures Nearest(buf[..n], i, rest, len, offset)
      ensures rest > 0 ==> |Behind(buf[..], i, rest)| >= tries
      ensures len >= MINMATCH ==> offset + 1 < i && |Behind(buf[..], i, i - offset - 1)| < tries
    {
      hide *;
      Sizes(buf[..n], i);
      ghost var b, data := buf[..], buf[..n];
      assert data == b[..n];
      len, offset, rest := 2, W, 0;
      var end := if i + MAXMATCH > n then n else i + MAXMATCH;
      var h := Hash(buf[..], i);
      ChainedHead(b, i, h);
      var pos := head[h];
      var k: nat := tries;
      SearchStart(b, n, i, pos);
      BehindNone(b, i, pos);
      NearestNone(data, i, pos, 2, W);
      while pos != 0 && k != 0
        invariant pos >= 0 && k <= tries && (pos > 0 ==> pos < i && Hash(b, pos) == h)
        invariant MatchAt(Cell(len, offset, 0), data, i) && 2 <= len && (i + len < end || len == 2)
        invariant Searched(data, i, pos, len) && Nearest(data, i, pos, len, offset) && |Behind(b, i, pos)| == tries - k
        invariant len >= 3 ==> offset + 1 < i - pos && |Behind(b, i, i - offset - 1)| < tries
        decreases k
      {
        k := k - 1;
        var x := i - pos;
        if x > W {
          SearchFar(data, i, pos, len);
          NearestFar(data, i, pos, len, offset);
          return;
        }
        ghost var len0, offset0 := len, offset;
        var full;
        len, offset, full := TryMatch(buf, n, end, pos, i, len, offset);
        if full {
          if end == n {
            SearchFull(data, i, len);
          }
          NearestFull(b, n, i, pos, len0, len, offset);
          return;
        }
        ChainedPrev(b, i, pos);
        SearchNext(b, n, i, pos, len0, len, prev[pos]);
        LastIs(b, h, pos, prev[pos]);
        NearestNext(b, n, i, pos, len0, offset0, len, offset, prev[pos]);
        BehindStep(b, i, pos, prev[pos]);
        pos := prev[pos];
      }
      rest := pos;
    }

    lemma NearestNone(data: seq<byte>, i: nat, from: int, len: nat, offset: nat)
      requires len < 3
      ensures Nearest(data, i, from, len, offset)
    {
    }

    lemma LastIs(b: seq<byte>, h: nat, i: nat, r: int)
      requires i + 2 <= |b| && i > 0 && IsLast(b, h, i, r)
      ensures 0 <= r < i && forall q :: 1 <= q < i && q > r ==> Hash(b, q) != h
    {
    }

    lemma Sizes(data: seq<byte>, i: nat)
      requires Valid()
      ensures head.Length == HASHSIZE && prev.Length == N && path.Length == N == 0x200_0000 && MINMATCH == 3 && MAXMATCH == 66
      ensures MatchAt(Cell(2, W, 0), data, i)
    {
    }

    /** memset. */
    method Clear()
      requires Valid()
      modifies head, path
      ensures forall h :: 0 <= h < HASHSIZE ==> head[h] == 0
      ensures forall i :: 0 <= i < N ==> path[i] == Cell(0, 0, 0)
    {
      forall h | 0 <= h < HASHSIZE {
        head[h] := 0;
      }
      forall i | 0 <= i < N {
        path[i] := Cell(0, 0, 0);
      }
    }

    /** Place i becomes the last one with its hash. */
    method Link(ghost b: seq<byte>, i: nat, h: nat)
      requires Valid() && i < N && i + 3 <= |b| && Chained(b, i) && h == Hash(b, i)
      modifies head, prev
      ensures Chained(b, i + 1)
    {
      hide Links;
      LinkStep(b, i, head[..], prev[..], h);
      ghost var hd, pv := head[..], prev[..];
      prev[i] := head[h];
      head[h] := i;
      assert head[..] == hd[h := i] && prev[..] == pv[i := hd[h]];
    }

    /** The best match at each place. */
    method FindMatches(buf: array<byte>, n: nat, tries: nat)
      requires Valid() && n <= N && buf.Length == N + MINMATCH
      modifies head, prev, path
      ensures Recorded(path[..n], buf[..n])
      ensures forall i :: 0 <= i < n ==> path[i].cost == 0 && Best(path[i], buf[..n], i, tries)
    {
      hide MatchAt, Best, Hash, Searched, IsLast, Links, Behind, Nearest;
      Clear();
      ghost var b, data := buf[..], buf[..n];
      assert data == b[..n];
      ChainedStart(b);
      for i := 0 to n
        invariant buf[..] == b && Chained(b, i)
        invariant forall j :: 0 <= j < i ==> MatchAt(path[j], data, j) && path[j].cost == 0 && Best(path[j], data, j, tries)
        invariant forall j :: i <= j < n ==> path[j].cost == 0
      {
        var len, offset, rest := BestMatch(buf, n, i, tries);
        path[i] := path[i].(len := len, offset := offset);
        CellIs(path[i], b, n, i, len, offset, rest, tries);
        Link(b, i, Hash(buf[..], i));
      }
    }

    lemma ChainedStart(b: seq<byte>)
      requires Valid() && 2 <= |b| && forall h :: 0 <= h < HASHSIZE ==> head[h] == 0
      ensures Chained(b, 0)
    {
    }

    /** The dynamic program, backward from the last place but one. */
    method Parse(n: nat, ghost data: seq<byte>)
      requires Valid() && 1 <= n <= N && Recorded(path[..n], data)
      requires forall i :: 0 <= i < n ==> path[i].cost == 0
      modifies path
      ensures ParseOf(path[..n], old(path[..n])) && Recorded(path[..n], data)
      ensures Cost(path[..n], 0) == Least(old(path[..n]), 0)
    {
      hide Least, Cost, Recorded, ParseOf, Decided, MatchAt;
      ghost var found := path[..n];
      Sizes(data, 0);
      RecordedSize(found, data);
      EndsAreLiterals(found, data);
      LastIsDecided(found);
      var i: int := n - 2;
      while i > 0
        invariant i < n - 1
        invariant forall j :: 0 <= j < n && (j <= i || j == 0) ==> path[j] == found[j]
        invariant forall j :: 1 <= j < n && j > i ==> Decided(path[j], found, j)
        decreases i
      {
        DecidedCost(path[i + 1], found, i + 1);
        var len := path[i].len;
        var c1 := path[i + 1].cost + 1 + 8;
        var c2 := 1 + 6 + 18;
        if len >= MINMATCH {
          var p := i + len;
          if p < n {
            DecidedCost(path[p], found, p);
            c2 := c2 + path[p].cost;
          } else {
            LeastAtEnd(found, p);
          }
          if c1 < c2 {
            path[i] := path[i].(len := 0, cost := c1);
          } else {
            path[i] := path[i].(cost := c2);
          }
        } else {
          path[i] := path[i].(cost := c1);
        }
        ChoiceDecides(path[i], found, i, c1, c2);
        i := i - 1;
      }
      FirstPlace(path[..n], found, data);
    }

    /** One item: its flag and its bytes go to the buffer t. */
    method PutItem(t: array<byte>, ptr: nat, cnt: nat, i: nat, data: seq<byte>, ghost g: seq<Token>) returns (ptr': nat, i': nat, ghost item: Token)
      requires Valid() && |data| <= N && i < |data| && MatchAt(path[i], data, i)
      requires cnt == |g| < 8 && AllFit(g) && t.Length == 25 && ptr == 1 + |Payload(g)| <= 1 + 3 * cnt
      requires t[0] == FlagBits(g) && t[1..ptr] == Payload(g)
      modifies t
      ensures AllFit(g + [item]) && ptr' == 1 + |Payload(g + [item])| <= 4 + 3 * cnt
      ensures t[0] == FlagBits(g + [item]) && t[1..ptr'] == Payload(g + [item])
      ensures i < i' <= |data| && Follow(path[..|data|], data, i) == [item] + Follow(path[..|data|], data, i')
    {
      hide Follow, Agrees, FlagBits, Payload;
      var len, offset := path[i].len, path[i].offset;
      ptr', i' := ptr, i;
      item := if len >= MINMATCH then Copy(offset + 1, len) else Literal(data[i]);
      FlagAdded(g, item);
      FlagsInByte(g + [item]);
      OneMoreItem(g, item);
      FollowOne(path[..|data|], data, i);
      ghost var was := t[1..ptr];
      if len >= MINMATCH {
        MatchInside(data, i, offset + 1, len);
        t[0] := t[0] + Pow2(cnt);
        t[ptr'] := offset % 4 * 64 + (len - MINMATCH);
        t[ptr' + 1] := offset / 4 % 256;
        t[ptr' + 2] := offset / 1024;
        ptr', i' := ptr' + 3, i + len;
      } else {
        t[ptr'] := data[i];
        ptr', i' := ptr' + 1, i + 1;
      }
      assert t[1..ptr'] == was + ItemBytes(item);
    }

    /** The items met when path is followed, in groups of eight. */
    method EncodeItems(data: seq<byte>, out: array<byte>, at: nat) returns (at': nat)
      requires Valid() && |data| <= N && Recorded(path[..|data|], data) && AllFit(Follow(path[..|data|], data, 0))
      requires at + |Groups(Follow(path[..|data|], data, 0))| <= out.Length
      modifies out
      ensures at' == at + |Groups(Follow(path[..|data|], data, 0))|
      ensures out[..at'] == old(out[..at]) + Groups(Follow(path[..|data|], data, 0))
    {
      hide *;
      Sizes(data, 0);
      ghost var p, n := path[..|data|], |data|;
      ghost var ts := Follow(p, data, 0);
      ghost var before := out[..at];
      var t := new byte[25](_ => 0);
      var ptr: nat, cnt: nat, i: nat := 1, 0, 0;
      at' := at;
      ghost var g: seq<Token>, rest := [], ts;
      ghost var done: seq<byte> := [];
      NoItems(g, ts);
      while i < |data|
        invariant i <= n && rest == Follow(p, data, i) && cnt == |g| < 8 && path[..n] == p
        invariant AllFit(g) && AllFit(rest) && AllFit(g + rest) && ptr == 1 + |Payload(g)| <= 1 + 3 * cnt
        invariant t[0] == FlagBits(g) && t[1..ptr] == Payload(g)
        invariant at' == at + |done| <= out.Length && out[..at'] == before + done
        invariant done + Groups(g + rest) == Groups(ts)
        decreases n - i
      {
        RecordedAt(p, data, i);
        ghost var item;
        ptr, i, item := PutItem(t, ptr, cnt, i, data, g);
        Regroup(g, item, rest);
        g, rest := g + [item], rest[1..];
        cnt := cnt + 1;
        if cnt == 8 {
          FullGroup(done, g, rest);
          at' := FlushGroup(t, ptr, out, at', g);
          done := done + Group(g);
          t[0] := 0;
          ptr, cnt := 1, 0;
          g := [];
          NoItems(g, rest);
        }
      }
      FollowEnds(p, data, i);
      assert g + rest == g;
      if cnt != 0 {
        LastGroup(g);
        at' := FlushGroup(t, ptr, out, at', g);
      } else {
        NoGroups(g);
      }
    }

    method FlushGroup(t: array<byte>, ptr: nat, out: array<byte>, at: nat, ghost g: seq<Token>) returns (at': nat)
      requires AllFit(g) && |g| <= 8 && 1 <= ptr <= t.Length && t[0] == FlagBits(g) && t[1..ptr] == Payload(g)
      requires at + |Group(g)| <= out.Length && t != out
      modifies out
      ensures at' == at + |Group(g)| && out[..at'] == old(out[..at]) + Group(g)
    {
      GroupIs(t[..ptr], g);
      CopyOut(t, ptr, out, at);
      at' := at + ptr;
    }

    method CopyOut(t: array<byte>, ptr: nat, out: array<byte>, at: nat)
      requires ptr <= t.Length && at + ptr <= out.Length && t != out
      modifies out
      ensures out[..at + ptr] == old(out[..at]) + t[..ptr]
    {
      for k := 0 to ptr
        invariant out[..at + k] == old(out[..at]) + t[..k]
      {
        out[at + k] := t[k];
      }
    }

    /** One block: the items of a cheapest parse of the matches found. */
    method EncodeBlock(buf: array<byte>, n: nat, out: array<byte>, at: nat, tries: nat)
      returns (at': nat, ghost ts: seq<Token>, ghost found: seq<Cell>, ghost parse: seq<Cell>)
      requires Valid() && 1 <= n <= N && buf.Length == N + MINMATCH && buf != out && at + n + (n + 7) / 8 <= out.Length
      modifies head, prev, path, out
      ensures AllFit(ts) && Spells(ts, buf[..n], 0) && at' == at + |Groups(ts)| <= at + n + (n + 7) / 8
      ensures out[..at'] == old(out[..at]) + Groups(ts) && |parse| == n && ts == Follow(parse, buf[..n], 0)
      ensures Cheapest(buf[..n], tries, found, parse)
    {
      hide *;
      Sizes(buf[..n], 0);
      ghost var data, before := buf[..n], out[..at];
      FindMatches(buf, n, tries);
      found := path[..n];
      AllBest(found, data, tries);
      Parse(n, data);
      parse := path[..n];
      CheapestIs(data, tries, found, parse);
      FollowSpells(parse, data, 0);
      ts := Follow(parse, data, 0);
      SpellsFits(ts, data, 0);
      BlockSize(ts, data);
      at' := EncodeItems(buf[..n], out, at);
    }

    /** lzssim_encode: block by block, each as the items of a cheapest parse. The buffer need not
        be larger than the input and an eighth of it. */
    method Encode(input: seq<byte>, out: array<byte>, max: bool) returns (r: nat, ghost blocks: seq<seq<Token>>)
      requires Valid() && out.Length >= |input| + (|input| + 7) / 8
      modifies head, prev, path, out
      ensures r <= |input| + (|input| + 7) / 8 && Stream(out[..r], input, blocks)
      ensures AllCheapest(blocks, input, if max then 0x4000 else 4)
      ensures (|blocks| - 1) * N < |input| <= |blocks| * N
    {
      hide *;
      Sizes(input, 0);
      ghost var tries := if max then 0x4000 else 4;
      var buf := new byte[N + MINMATCH];
      var done: nat := 0;
      r, blocks := 0, [];
      EmptyStream(out[..0], input[..0]);
      NoneCheapest(input, tries);
      while done < |input|
        invariant done <= |input| && (done % N == 0 || done == |input|)
        invariant r <= done + (done + 7) / 8 && Stream(out[..r], input[..done], blocks)
        invariant AllCheapest(blocks, input, tries) && done == (if |blocks| * N < |input| then |blocks| * N else |input|)
        invariant (|blocks| - 1) * N < |input|
      {
        var n := if N < |input| - done then N else |input| - done;
        CopyIn(input, done, n, buf);
        ghost var before := out[..r];
        BlocksFit(done, n, |input|);
        BlockIs(input, |blocks|, n);
        ghost var ts, found, parse;
        r, ts, found, parse := EncodeBlock(buf, n, out, r, if max then 0x4000 else 4);
        StreamAppend(before, input[..done], blocks, ts, input[done..done + n]);
        OneMoreCheapest(blocks, input, tries, ts, found, parse);
        assert input[..done] + input[done..done + n] == input[..done + n];
        blocks := blocks + [ts];
        done := done + n;
      }
      assert input[..done] == input;
    }

    method CopyIn(input: seq<byte>, at: nat, n: nat, buf: array<byte>)
      requires at + n <= |input| && n <= buf.Length
      modifies buf
      ensures buf[..n] == input[at..at + n]
    {
      for k := 0 to n
        invariant buf[..k] == input[at..at + k]
      {
        buf[k] := input[at + k];
      }
    }
  }

  /** The matches found are the best within reach, and no choice among them costs less
      than this parse. */
  ghost predicate Cheapest(data: seq<byte>, tries: nat, found: seq<Cell>, parse: seq<Cell>) {
    && Recorded(found, data) && BestAll(found, data, tries)
    && ParseOf(parse, found) && Recorded(parse, data)
    && forall other :: ParseOf(other, found) ==> Cost(parse, 0) <= Cost(other, 0)
  }

  /** The items of a cheapest parse of this data. */
  ghost predicate CheapestItems(ts: seq<Token>, data: seq<byte>, tries: nat) {
    exists found, parse :: Cheapest(data, tries, found, parse) && ts == Follow(parse, data, 0)
  }

  /** Block k of the input. */
  function BlockOf(input: seq<byte>, k: nat): seq<byte>
    requires k * N <= |input|
  {
    input[k * N..if N < |input| - k * N then k * N + N else |input|]
  }

  /** Every block is sent as such items. */
  ghost predicate AllCheapest(blocks: seq<seq<Token>>, input: seq<byte>, tries: nat) {
    forall k :: 0 <= k < |blocks| ==> k * N <= |input| && CheapestItems(blocks[k], BlockOf(input, k), tries)
  }

  lemma NoneCheapest(input: seq<byte>, tries: nat)
    ensures AllCheapest([], input, tries)
  {
  }

  lemma OneMoreCheapest(blocks: seq<seq<Token>>, input: seq<byte>, tries: nat, ts: seq<Token>, found: seq<Cell>, parse: seq<Cell>)
    requires AllCheapest(blocks, input, tries) && |blocks| * N <= |input|
    requires var data := BlockOf(input, |blocks|); |parse| == |data| && Cheapest(data, tries, found, parse) && ts == Follow(parse, data, 0)
    ensures AllCheapest(blocks + [ts], input, tries)
  {
    hide Cheapest, Follow;
    assert CheapestItems(ts, BlockOf(input, |blocks|), tries);
    hide CheapestItems, BlockOf;
    forall k | 0 <= k < |blocks + [ts]| ensures k * N <= |input| && CheapestItems((blocks + [ts])[k], BlockOf(input, k), tries) {
      if k < |blocks| {
        assert k * N <= |input| && CheapestItems(blocks[k], BlockOf(input, k), tries);
      }
    }
  }

  lemma BlockIs(input: seq<byte>, k: nat, n: nat)
    requires k * N < |input| && n == (if N < |input| - k * N then N else |input| - k * N)
    ensures BlockOf(input, k) == input[k * N..k * N + n]
  {
  }

  ghost predicate BestAll(found: seq<Cell>, data: seq<byte>, tries: nat) {
    forall i :: 0 <= i < |found| ==> Best(found[i], data, i, tries)
  }

  lemma AllBest(found: seq<Cell>, data: seq<byte>, tries: nat)
    requires forall i :: 0 <= i < |found| ==> Best(found[i], data, i, tries)
    ensures BestAll(found, data, tries)
  {
    hide Best;
  }

  lemma CheapestIs(data: seq<byte>, tries: nat, found: seq<Cell>, parse: seq<Cell>)
    requires Recorded(found, data) && BestAll(found, data, tries) && ParseOf(parse, found) && Recorded(parse, data)
    requires Cost(parse, 0) == Least(found, 0)
    ensures Cheapest(data, tries, found, parse)
  {
    hide Recorded, BestAll, ParseOf, Cost, Least;
    forall other | ParseOf(other, found) ensures Cost(parse, 0) <= Cost(other, 0) {
      NoParseIsCheaper(other, found, 0);
    }
  }

  lemma EmptyStream(s: seq<byte>, data: seq<byte>)
    requires s == [] && data == []
    ensures Stream(s, data, [])
  {
  }

  lemma BlocksFit(done: nat, n: nat, size: nat)
    requires done % N == 0 && done + n <= size && n == (if N < size - done then N else size - done)
    ensures done + (done + 7) / 8 + n + (n + 7) / 8 == done + n + (done + n + 7) / 8 <= size + (size + 7) / 8
    ensures (done + n) % N == 0 || done + n == size
  {
    assert done % 8 == 0;
  }

  lemma {:induction false} FlagAdded(g: seq<Token>, t: Token)
    ensures FlagBits(g + [t]) == FlagBits(g) + if t.Copy? then Pow2(|g|) else 0
    ensures FlagBits([]) == 0
  {
    if g == [] {
      assert g + [t] == [t] && [t][1..] == [];
    } else {
      assert (g + [t])[1..] == g[1..] + [t];
      FlagAdded(g[1..], t);
    }
  }

  lemma OneMoreItem(g: seq<Token>, t: Token)
    requires AllFit(g) && Fits(t)
    ensures AllFit(g + [t]) && Payload(g + [t]) == Payload(g) + ItemBytes(t)
  {
    hide ItemBytes;
    PayloadAppend(g, [t]);
    assert [t][1..] == [] && ItemBytes(t) + [] == ItemBytes(t);
    assert Payload([t]) == ItemBytes(t) + Payload([]);
  }

  lemma FollowOne(path: seq<Cell>, data: seq<byte>, i: nat)
    requires |path| == |data| && i < |data|
    ensures Follow(path, data, i) ==
      if path[i].len >= MINMATCH then [Copy(path[i].offset + 1, path[i].len)] + Follow(path, data, i + path[i].len)
      else [Literal(data[i])] + Follow(path, data, i + 1)
  {
  }

  lemma FollowEnds(path: seq<Cell>, data: seq<byte>, i: nat)
    requires |path| == |data| && i >= |data|
    ensures Follow(path, data, i) == []
  {
  }

  lemma NoItems(g: seq<Token>, rest: seq<Token>)
    requires g == []
    ensures AllFit(g) && Payload(g) == [] && FlagBits(g) == 0 && g + rest == rest
  {
  }

  lemma RecordedAt(path: seq<Cell>, data: seq<byte>, i: nat)
    requires Recorded(path, data) && i < |data|
    ensures |path| == |data| && MatchAt(path[i], data, i)
  {
  }

  lemma FitsSplit(a: seq<Token>, b: seq<Token>)
    requires AllFit(a + b)
    ensures AllFit(a) && AllFit(b)
  {
    forall j | 0 <= j < |b| ensures Fits(b[j]) {
      assert (a + b)[|a| + j] == b[j];
    }
    forall j | 0 <= j < |a| ensures Fits(a[j]) {
      assert (a + b)[j] == a[j];
    }
  }

  lemma FullGroup(done: seq<byte>, g: seq<Token>, rest: seq<Token>)
    requires |g| == 8 && AllFit(g) && AllFit(rest) && AllFit(g + rest)
    ensures done + Groups(g + rest) == done + Group(g) + Groups(rest)
    ensures |done + Groups(g + rest)| >= |done| + |Group(g)|
  {
    hide Group, AllFit;
    assert (g + rest)[..8] == g && (g + rest)[8..] == rest;
    if rest == [] {
      assert g + rest == g && Group(g) + [] == Group(g);
    }
  }

  lemma GroupIs(t: seq<byte>, g: seq<Token>)
    requires AllFit(g) && |g| <= 8 && t != [] && t[0] == FlagBits(g) && t[1..] == Payload(g)
    ensures t == Group(g)
  {
  }

  lemma Regroup(g: seq<Token>, item: Token, rest: seq<Token>)
    requires rest != [] && rest[0] == item && AllFit(g + rest)
    ensures g + rest == (g + [item]) + rest[1..] && AllFit(g + [item]) && AllFit(rest[1..])
  {
    assert g + rest == (g + [item]) + rest[1..];
    FitsSplit(g + [item], rest[1..]);
  }

  lemma LastGroup(g: seq<Token>)
    requires AllFit(g) && 0 < |g| < 8
    ensures Groups(g) == Group(g)
  {
  }

  lemma NoGroups(g: seq<Token>)
    requires g == []
    ensures AllFit(g) && Groups(g) == []
  {
  }

  lemma RecordedSize(path: seq<Cell>, data: seq<byte>)
    requires Recorded(path, data)
    ensures |path| == |data| && MINMATCH == 3
  {
  }

  lemma DecidedCost(c: Cell, found: seq<Cell>, i: nat)
    requires i < |found| && Decided(c, found, i)
    ensures c.cost == Least(found, i)
  {
  }

  // ---- The decoder

  /** The distance as the decoder computes it. */
  lemma ItemBack(t: Token)
    requires t.Copy? && Fits(t)
    ensures var b := ItemBytes(t);
      |b| == 3 && (b[0] / 64) as nat + 4 * b[1] as nat + 1024 * b[2] as nat + 1 == t.distance && b[0] % 64 == t.len - MINMATCH
  {
    var offset := t.distance - 1;
    assert offset / 4 / 256 == offset / 1024;
    assert offset / 4 == offset / 4 % 256 + 256 * (offset / 4 / 256);
  }

  /** Between items: the flags still to come, in front of a marker bit. */
  ghost predicate Pending(tag: nat, s: seq<byte>, ip: nat, end: nat, g: seq<Token>, later: seq<Token>, m: nat) {
    && AllFit(g) && AllFit(later) && |g| <= m <= 8 && (later != [] ==> m == |g|)
    && tag == FlagBits(g) + Pow2(m)
    && ip <= end <= |s| && s[ip..end] == Payload(g) + Groups(later)
  }

  /** The marker has come down: a group of up to eight items follows. */
  lemma NextGroup(tag: nat, s: seq<byte>, ip: nat, end: nat, later: seq<Token>)
    requires Pending(tag, s, ip, end, [], later, 0) && later != []
    ensures var k := if |later| <= 8 then |later| else 8;
      ip < end && Pending(256 + s[ip] as nat, s, ip + 1, end, later[..k], later[k..], 8)
  {
    hide FlagBits, Payload, Groups, AllFit;
    var k := if |later| <= 8 then |later| else 8;
    NoItems([], later);
    var g, rest := later[..k], later[k..];
    assert g + rest == later;
    FitsSplit(g, rest);
    GroupsSplit(later, k);
    var all, tail := s[ip..end], Payload(g) + Groups(rest);
    assert all == [FlagBits(g)] + tail;
    assert s[ip] == all[0] && s[ip + 1..end] == all[1..] == tail;
    assert Pow2(8) == 256;
  }

  lemma GroupsSplit(ts: seq<Token>, k: nat)
    requires AllFit(ts) && ts != [] && k == (if |ts| <= 8 then |ts| else 8) && AllFit(ts[..k]) && AllFit(ts[k..])
    ensures Groups(ts) == [FlagBits(ts[..k])] + Payload(ts[..k]) + Groups(ts[k..])
  {
    hide FlagBits, Payload, AllFit;
    if |ts| <= 8 {
      assert ts[..k] == ts && ts[k..] == [];
      assert Group(ts) == Group(ts) + [];
    }
  }

  /** A tag of 1 means that the group is used up. */
  lemma TagIsOne(tag: nat, s: seq<byte>, ip: nat, end: nat, g: seq<Token>, later: seq<Token>, m: nat)
    requires Pending(tag, s, ip, end, g, later, m) && g + later != []
    ensures tag == 1 <==> m == 0
    ensures m == 0 ==> g == [] && later != []
    ensures m != 0 ==> g != []
  {
    hide Payload, Groups, AllFit;
    if m > 0 {
      assert Pow2(m) == 2 * Pow2(m - 1);
    }
  }

  lemma Between(s: seq<byte>, at: nat, end: nat, k: nat)
    requires at + k <= end <= |s|
    ensures s[at..end][..k] == s[at..at + k] && s[at..end][k..] == s[at + k..end]
  {
  }

  /** The first item of a group: its flag is the lowest bit, its bytes come next. */
  lemma FirstItem(tag: nat, s: seq<byte>, ip: nat, end: nat, g: seq<Token>, later: seq<Token>, m: nat)
    requires Pending(tag, s, ip, end, g, later, m) && g != []
    ensures Fits(g[0]) && (tag % 2 == 1 <==> g[0].Copy?)
    ensures var k := |ItemBytes(g[0])|;
      ip + k <= end && s[ip..ip + k] == ItemBytes(g[0]) && Pending(tag / 2, s, ip + k, end, g[1..], later, m - 1)
  {
    hide ItemBytes, Groups, Fits;
    assert Fits(g[0]);
    assert g == [g[0]] + g[1..];
    FitsSplit([g[0]], g[1..]);
    var b := ItemBytes(g[0]);
    var k := |b|;
    assert s[ip..end] == b + (Payload(g[1..]) + Groups(later));
    Between(s, ip, end, k);
    FlagBitsSmall(g[1..]);
  }

  method CopyMatch(buf: array<byte>, i: nat, d: nat, len: nat, ghost data: seq<byte>)
    requires Agrees(data, i, d, len) && |data| <= buf.Length && buf[..i] == data[..i]
    modifies buf
    ensures buf[..i + len] == data[..i + len]
  {
    for k := 0 to len
      invariant buf[..i + k] == data[..i + k]
    {
      assert buf[..i + k][i + k - d] == data[i + k - d] == data[i + k];
      buf[i + k] := buf[i + k - d];
    }
  }

  method DecodeCopy(packed: seq<byte>, ip: nat, buf: array<byte>, i: nat, ghost t: Token, ghost data: seq<byte>) returns (len: nat)
    requires t.Copy? && Fits(t) && ip + 3 <= |packed| && packed[ip..ip + 3] == ItemBytes(t)
    requires Agrees(data, i, t.distance, t.len) && |data| <= buf.Length && buf[..i] == data[..i]
    modifies buf
    ensures len == t.len && buf[..i + len] == data[..i + len]
  {
    hide Agrees, ItemBytes;
    ItemBack(t);
    var b0, b1, b2 := packed[ip], packed[ip + 1], packed[ip + 2];
    assert b0 == packed[ip..ip + 3][0] && b1 == packed[ip..ip + 3][1] && b2 == packed[ip..ip + 3][2];
    var d := (b0 / 64) as nat + b1 as nat * 4 + b2 as nat * 1024 + 1;
    len := MINMATCH + b0 % 64;
    CopyMatch(buf, i, d, len, data);
  }

  lemma SpellsOne(ts: seq<Token>, data: seq<byte>, i: nat)
    requires Spells(ts, data, i)
    ensures ts == [] <==> i >= |data|
    ensures ts != [] ==> ItemAt(ts[0], data, i) && Spells(ts[1..], data, i + LengthOf(ts[0])) && i + LengthOf(ts[0]) <= |data|
  {
    hide Agrees;
    if ts != [] {
      SpellsFits(ts[1..], data, i + LengthOf(ts[0]));
    } else {
      assert i == |data|;
    }
  }

  /** One block. */
  method DecodeBlock(packed: seq<byte>, ip: nat, buf: array<byte>, size: nat, ghost ts: seq<Token>, ghost data: seq<byte>) returns (ip': nat)
    requires AllFit(ts) && Spells(ts, data, 0) && |data| == if size < N then size else N
    requires ip + |Groups(ts)| <= |packed| && packed[ip..ip + |Groups(ts)|] == Groups(ts) && buf.Length == N + MINMATCH
    modifies buf
    ensures ip' == ip + |Groups(ts)| && buf[..|data|] == data
  {
    hide *;
    ghost var end := ip + |Groups(ts)|;
    ip' := ip;
    var i: nat, tag: nat := 0, 2;
    ghost var g: seq<Token>, later, m: nat := [], ts, 0;
    StartsPending(packed, ip, end, ts);
    BufferSize();
    while i < N && i < size
      invariant i <= |data| && buf[..i] == data[..i] && Spells(g + later, data, i)
      invariant Pending(tag / 2, packed, ip', end, g, later, m)
      decreases |data| - i
    {
      SpellsOne(g + later, data, i);
      tag := tag / 2;
      TagIsOne(tag, packed, ip', end, g, later, m);
      if tag == 1 {
        NextGroup(tag, packed, ip', end, later);
        tag := 256 + packed[ip'] as nat;
        ip' := ip' + 1;
        SplitOff(g, later);
        g, later, m := later[..if |later| <= 8 then |later| else 8], later[if |later| <= 8 then |later| else 8..], 8;
      }
      FirstItem(tag, packed, ip', end, g, later, m);
      ghost var t := g[0];
      assert (g + later)[0] == t && (g + later)[1..] == g[1..] + later;
      ItemIs(t, data, i);
      if tag % 2 == 1 {
        var len := DecodeCopy(packed, ip', buf, i, t, data);
        ip' := ip' + 3;
        i := i + len;
      } else {
        assert packed[ip'] == packed[ip'..ip' + |ItemBytes(t)|][0];
        buf[i] := packed[ip'];
        ip' := ip' + 1;
        i := i + 1;
      }
      g, m := g[1..], m - 1;
    }
    SpellsOne(g + later, data, i);
    AllRead(tag / 2, packed, ip', end, g, later, m);
    assert data[..i] == data;
  }

  lemma BufferSize()
    ensures MINMATCH == 3 && N > 0
  {
  }

  lemma StartsPending(s: seq<byte>, ip: nat, end: nat, ts: seq<Token>)
    requires AllFit(ts) && ip <= end <= |s| && s[ip..end] == Groups(ts)
    ensures Pending(1, s, ip, end, [], ts, 0) && [] + ts == ts
  {
    assert Payload([]) + Groups(ts) == Groups(ts);
  }

  lemma SplitOff(g: seq<Token>, later: seq<Token>)
    requires g == []
    ensures var k := if |later| <= 8 then |later| else 8; g + later == later[..k] + later[k..]
  {
  }

  lemma ItemIs(t: Token, data: seq<byte>, i: nat)
    requires ItemAt(t, data, i)
    ensures |ItemBytes(t)| == if t.Copy? then 3 else 1
    ensures t.Copy? ==> Agrees(data, i, t.distance, t.len) && LengthOf(t) == t.len >= 3
    ensures t.Literal? ==> i < |data| && ItemBytes(t) == [data[i]] && LengthOf(t) == 1
  {
  }

  lemma AllRead(tag: nat, s: seq<byte>, ip: nat, end: nat, g: seq<Token>, later: seq<Token>, m: nat)
    requires Pending(tag, s, ip, end, g, later, m) && g + later == []
    ensures ip == end
  {
    assert g == [] && later == [];
  }

  lemma StreamOne(s: seq<byte>, data: seq<byte>, blocks: seq<seq<Token>>)
    requires Stream(s, data, blocks)
    ensures data == [] ==> s == []
    ensures data != [] ==>
      var n := if |data| < N then |data| else N;
      && blocks != [] && AllFit(blocks[0]) && Spells(blocks[0], data[..n], 0)
      && |Groups(blocks[0])| <= |s| && s[..|Groups(blocks[0])|] == Groups(blocks[0])
      && Stream(s[|Groups(blocks[0])|..], data[n..], blocks[1..])
  {
  }

  lemma Slices(s: seq<byte>, at: nat, n: nat)
    requires at + n <= |s|
    ensures s[at..][..n] == s[at..at + n] && s[at..][n..] == s[at + n..]
  {
  }

  /** lzssim_decode on a stream of the encoder's format; size is that of the data. */
  method Decode(packed: seq<byte>, out: array<byte>, size: nat, ghost data: seq<byte>, ghost blocks: seq<seq<Token>>)
    requires Stream(packed, data, blocks) && |data| == size <= out.Length
    modifies out
    ensures out[..size] == data
  {
    hide *;
    BufferSize();
    var buf := new byte[N + MINMATCH];
    var left: nat, at: nat, ip: nat := size, 0, 0;
    ghost var bs := blocks;
    assert packed[0..] == packed && data[0..] == data;
    while left > 0
      invariant at + left == size && ip <= |packed| && out[..at] == data[..at]
      invariant Stream(packed[ip..], data[at..], bs)
      decreases left
    {
      StreamOne(packed[ip..], data[at..], bs);
      ghost var k, n := |Groups(bs[0])|, if |data[at..]| < N then |data[at..]| else N;
      Slices(packed, ip, k);
      Slices(data, at, n);
      ip := DecodeBlock(packed, ip, buf, left, bs[0], data[at..at + n]);
      var i := if left < N then left else N;
      CopyBack(buf, i, out, at);
      assert data[..at + i] == data[..at] + data[at..at + i];
      at, left := at + i, left - i;
      bs := bs[1..];
    }
    assert data[..at] == data;
  }

  method CopyBack(buf: array<byte>, n: nat, out: array<byte>, at: nat)
    requires n <= buf.Length && at + n <= out.Length && buf != out
    modifies out
    ensures out[..at + n] == old(out[..at]) + buf[..n]
  {
    for k := 0 to n
      invariant out[..at + k] == old(out[..at]) + buf[..k]
    {
      out[at + k] := buf[k];
    }
  }

  /** What was packed unpacks to the input. */
  method ThereAndBack(coder: Lzssim, input: seq<byte>, packed: array<byte>, plain: array<byte>, max: bool)
    requires coder.Valid() && packed.Length >= |input| + (|input| + 7) / 8 && |input| <= plain.Length && packed != plain
    modifies coder.head, coder.prev, coder.path, packed, plain
    ensures plain[..|input|] == input
  {
    hide Stream;
    ghost var blocks;
    var r;
    r, blocks := coder.Encode(input, packed, max);
    Decode(packed[..r], plain, |input|, input, blocks);
  }
}

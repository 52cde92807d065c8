/** What Shrinker finds: the table holds the place last entered, whatever it held at first, and
    equal bytes become one match. */
module ShrinkerFinds {
  import opened Bits
  import opened Lengths
  import opened Places
  import opened Repeats
  import opened Shrinker
  import opened Tokens

  // ---- The table

  /** Where the search stands: the place, where the literals begin, the bytes written so far, and the table. */
  datatype Stand = Stand(at: nat, last: nat, n: nat, table: Table)

  ghost predicate Searching(input: seq<byte>, s: Stand) {
    s.last <= s.at && s.at + 12 < |input| <= MAX_SIZE && s.n + 12 < |input|
  }

  ghost function NextStand(input: seq<byte>, s: Stand): Stand
    requires Searching(input, s)
  {
    if Matches(s.table, input, s.at) then
      FoundFits(s.table, input, s.last, s.at);
      var c := Found(s.table, input, s.last, s.at);
      Stand(s.at + c.len, s.at + c.len, s.n + |CommandBytes(c)|, LearnMatch(s.table, input, s.at))
    else Stand(s.at + 1, s.last, s.n, Learn(s.table, input, s.at))
  }

  /** From s the search goes on to t, having found the commands cs. */
  ghost predicate Finds(input: seq<byte>, s: Stand, cs: seq<Command>, t: Stand) {
    && Searching(input, s) && t == NextStand(input, s) && t.last <= t.at && t.at + 8 <= |input|
    && Search(s.table, input, s.last, s.at, s.n) == cs + Search(t.table, input, t.last, t.at, t.n)
    && |cs| == if t.last > s.last then 1 else 0
  }

  lemma FindsNext(input: seq<byte>, s: Stand) returns (cs: seq<Command>)
    requires Searching(input, s)
    ensures Finds(input, s, cs, NextStand(input, s))
  {
    hide Matches, Found, Learn, LearnMatch, CommandBytes;
    if Matches(s.table, input, s.at) {
      FoundFits(s.table, input, s.last, s.at);
      cs := [Found(s.table, input, s.last, s.at)];
    } else {
      cs := [];
      var more := Search(Learn(s.table, input, s.at), input, s.last, s.at + 1, s.n);
      assert cs + more == more;
    }
  }

  /** The way of the search from the start, with the table as it happens to be. */
  ghost predicate Way(input: seq<byte>, held: Table, ss: seq<Stand>, found: seq<seq<Command>>) {
    && |ss| == |found| + 1 && ss[0] == Stand(0, 0, 0, held)
    && forall i :: 0 <= i < |found| ==> Finds(input, ss[i], found[i], ss[i + 1])
  }

  /** The places entered: each one looked at, and behind a match two more. */
  function PlacesEntered(ss: seq<Stand>): seq<nat> {
    if |ss| <= 1 then [] else
      var n := |ss| - 1;
      PlacesEntered(ss[..n]) + EnteredAt(ss[n - 1], ss[n])
  }

  function EnteredAt(s: Stand, t: Stand): seq<nat> {
    if t.last > s.last then [s.at, s.at + 1, s.at + 3] else [s.at]
  }

  ghost function Slots(input: seq<byte>): nat -> nat {
    (q: nat) => if q + 4 <= |input| then Slot(input, q) else 0
  }

  /** What slot h holds when p is the last place entered in it, or -1 if there is none. */
  ghost predicate HoldsPlace(input: seq<byte>, held: Table, h: nat, p: int, now: u32) {
    && h < 0x8000
    && (p == -1 ==> now == held[h])
    && (p != -1 ==> 0 <= p < |input| <= 0x7ff_ffff && now == p + input[p] as nat % 32 * 0x800_0000)
  }

  lemma LearnHolds(input: seq<byte>, held: Table, t: Table, at: nat, h: nat, qs: seq<nat>, p: int) returns (p': int)
    requires at + 4 <= |input| <= MAX_SIZE && h < 0x8000
    requires LastIn(qs, Slots(input), h, -1, p) && HoldsPlace(input, held, h, p, t[h])
    ensures LastIn(qs + [at], Slots(input), h, -1, p') && HoldsPlace(input, held, h, p', Learn(t, input, at)[h])
  {
    hide Slot, LastIn;
    LastMore(qs, Slots(input), h, -1, p, at);
    p' := if Slot(input, at) == h then at else p;
  }

  lemma NextHolds(input: seq<byte>, held: Table, s: Stand, cs: seq<Command>, t: Stand, h: nat, qs: seq<nat>, p: int) returns (p': int)
    requires Finds(input, s, cs, t) && h < 0x8000
    requires LastIn(qs, Slots(input), h, -1, p) && HoldsPlace(input, held, h, p, s.table[h])
    ensures LastIn(qs + EnteredAt(s, t), Slots(input), h, -1, p') && HoldsPlace(input, held, h, p', t.table[h])
  {
    hide LastIn, HoldsPlace, Slots, Finds;
    NextTable(input, s, cs, t);
    p' := LearnHolds(input, held, s.table, s.at, h, qs, p);
    if t.last > s.last {
      p' := LearnHolds(input, held, Learn(s.table, input, s.at), s.at + 1, h, qs + [s.at], p');
      p' := LearnHolds(input, held, Learn(Learn(s.table, input, s.at), input, s.at + 1), s.at + 3, h, qs + [s.at] + [s.at + 1], p');
      assert qs + [s.at] + [s.at + 1] + [s.at + 3] == qs + EnteredAt(s, t);
    }
  }

  lemma NextTable(input: seq<byte>, s: Stand, cs: seq<Command>, t: Stand)
    requires Finds(input, s, cs, t)
    ensures s.at + 7 <= |input| <= MAX_SIZE
    ensures t.table == if t.last > s.last then Learn(Learn(Learn(s.table, input, s.at), input, s.at + 1), input, s.at + 3) else Learn(s.table, input, s.at)
  {
    hide Search, Matches, Found, Learn, CommandBytes;
    if Matches(s.table, input, s.at) {
      FoundFits(s.table, input, s.last, s.at);
    }
  }

  /** Every slot holds the last place entered in it, with five bits of the byte there, or what it held at first. */
  lemma {:induction false} ShrinkerLearns(input: seq<byte>, held: Table, ss: seq<Stand>, found: seq<seq<Command>>, h: nat) returns (p: int)
    requires Way(input, held, ss, found) && h < 0x8000
    ensures LastIn(PlacesEntered(ss), Slots(input), h, -1, p) && HoldsPlace(input, held, h, p, ss[|found|].table[h])
    decreases |found|
  {
    hide Finds, LastIn, EnteredAt, Slots;
    if found == [] {
      p := -1;
      NoneYet(Slots(input), h, -1);
    } else {
      var n := |found| - 1;
      var before := ss[..n + 1];
      assert forall i :: 0 <= i <= n ==> before[i] == ss[i];
      assert forall i :: 0 <= i < n ==> found[..n][i] == found[i];
      p := ShrinkerLearns(input, held, before, found[..n], h);
      assert Finds(input, ss[n], found[n], ss[n + 1]);
      p := NextHolds(input, held, ss[n], found[n], ss[n + 1], h, PlacesEntered(before), p);
    }
  }

  // ---- Equal bytes

  ghost predicate SameBytes(input: seq<byte>, z: byte) {
    forall i :: 0 <= i < |input| ==> input[i] == z
  }

  lemma SameSlots(input: seq<byte>, z: byte, p: nat, q: nat)
    requires SameBytes(input, z) && p + 4 <= |input| && q + 4 <= |input|
    ensures Slot(input, p) == Slot(input, q)
  {
    hide Hash;
    assert Le32(input, p) == Le32(input, q);
  }

  /** At the first place there is nothing to find, whatever the table holds; at the second, everything. */
  lemma FirstTwo(input: seq<byte>, z: byte, held: Table)
    requires SameBytes(input, z) && 32 <= |input| <= MAX_SIZE
    ensures !Matches(held, input, 0)
    ensures var t := Learn(held, input, 0);
      Matches(t, input, 1) && Place(t, input, 1) == 0 && MatchLen(input, 1, 0) == (|input| - 10) / 4 * 4 + 1
  {
    hide Slot, Common;
    SameSlots(input, z, 0, 1);
    assert input[0..4] == input[1..5];
    CommonIs(input, 1, 0, |input| - 1);
  }

  /** One literal and one match, up to the last eight to eleven bytes. */
  lemma EqualBytesFound(input: seq<byte>, z: byte, held: Table)
    requires SameBytes(input, z) && 32 <= |input| <= 0x7ff_ffff
    ensures Commands(input, held) == [Command([z], 1, (|input| - 10) / 4 * 4 + 1)]
  {
    hide Matches, Place, MatchLen, Learn, LearnMatch, CommandBytes;
    FirstTwo(input, z, held);
    var t := Learn(held, input, 0);
    SearchOn(held, input);
    FoundFits(t, input, 0, 1);
    assert input[0..1] == [z];
    var c := Found(t, input, 0, 1);
    SearchEnds(LearnMatch(t, input, 1), input, 1 + c.len, |CommandBytes(c)|);
    assert [c] + [] == [c];
  }

  lemma SearchOn(held: Table, input: seq<byte>)
    requires 32 <= |input| <= MAX_SIZE && !Matches(held, input, 0) && Matches(Learn(held, input, 0), input, 1)
    ensures var t := Learn(held, input, 0); var c := Found(t, input, 0, 1);
      && Fits(c) && 1 + c.len + 8 <= |input|
      && Commands(input, held) == [c] + Search(LearnMatch(t, input, 1), input, 1 + c.len, 1 + c.len, |CommandBytes(c)|)
  {
    hide Matches, Found, Learn, LearnMatch, CommandBytes, Fits;
    FoundFits(Learn(held, input, 0), input, 0, 1);
    assert Search(held, input, 0, 0, 0) == Search(Learn(held, input, 0), input, 0, 1, 0);
  }

  lemma SearchEnds(t: Table, input: seq<byte>, at: nat, n: nat)
    requires at + 8 <= |input| <= MAX_SIZE && at + 12 >= |input|
    ensures Search(t, input, at, at, n) == []
  {
  }

  lemma CommandsSize(c: Command, data: seq<byte>)
    requires Fits(c) && |c.literals| == 1 && c.distance == 1 && c.len >= 19
    ensures |CommandBytes(c)| == 3 + (c.len - 19) / 255 + 1
    ensures 7 <= |data| < 262 ==> |EndBytes(data)| == 4 + |data|
  {
  }

  /** What equal bytes are packed into: sixteen to nineteen bytes and one for every 255. */
  lemma EqualBytesPacked(input: seq<byte>, z: byte, held: Table)
    requires SameBytes(input, z) && 32 <= |input| <= 0x7ff_ffff
    ensures var len := (|input| - 10) / 4 * 4 + 1;
      Gain(Commands(input, held), input) == 3 + ((len - 19) / 255 + 1) + 4 + (|input| - 1 - len)
  {
    var len := (|input| - 10) / 4 * 4 + 1;
    var c := Command([z], 1, len);
    EqualBytesFound(input, z, held);
    BytesOne(c);
    var cs := [c];
    assert EndOf(cs, 0) == 1 + len by {
      assert cs[1..] == [];
    }
    hide Commands, CommandBytes, Bytes, EndBytes, EndOf;
    CommandsSize(c, input[1 + len..]);
  }
}

/** Data that the compressor fails on. Any bytes with the frequencies of NoTrees do it when
    they come one or two at a time, and in a single call if no three of them recur; and
    there is such a text. */
module FailingData {
  import opened Bits
  import opened Canonical
  import opened Inflate
  import opened Symbols
  import opened BlockTrees
  import opened Runs
  import opened NoTrees
  import opened Encoding
  import opened Outcomes
  import BlockChoice
  import DeflateHuffman

  // ---- All such data fail

  lemma {:induction false} LiteralTotal(data: seq<byte>)
    ensures BlockChoice.Total(LitFreqs(Literals(data))) == 1 + |data|
  {
    if data == [] {
      BlockChoice.EstimateStarts();
    } else {
      var n := |data| - 1;
      LiteralTotal(data[..n]);
      BlockChoice.TotalsStep(Literals(data[..n]), LitLenSym(data[n]));
      hide LitFreqs, BlockChoice.Total;
    }
  }

  /** The frequencies say how many bytes there are. */
  lemma AsksSize(data: seq<byte>)
    requires Asks(data)
    ensures |data| == 511
  {
    FreqsAre(data);
    LiteralTotal(data);
    hide *;
    LitLens();
    AskingNatural(Lens(), 9, 286);
    NoTrees.LensAre();
    AskingSum(LitRuns(), 9, 286);
    FullSpace();
    SizeAndRoom();
    BlockChoice.TotalIsSum(Asking(Lens(), 9, 286));
  }

  /** In pieces of one or two bytes, whatever the order of the bytes. */
  lemma FailsInPieces(calls: seq<Call>, last: seq<byte>)
    requires Unflushed(calls) && Tiny(calls) && |last| < 3 && Asks(DataOf(calls) + last)
    ensures Fails(calls, last)
  {
    hide Asks, Plannable, Literals, SYMLIMIT;
    var all, data := calls + [Call(last, false)], DataOf(calls) + last;
    assert all[..|calls|] == calls;
    AsksSize(data);
    TinyCalls(all);
    LiteralsWithoutTrees(data);
    LimitIs();
    SingleBlock(calls, last);
  }

  lemma LimitIs()
    ensures SYMLIMIT == 65536
  {
  }

  /** In a single call, if no three bytes stand together twice. */
  lemma FailsAtOnce(data: seq<byte>)
    requires Asks(data) && NoThreeTwice(data)
    ensures Fails([], data)
  {
    hide Asks, Plannable, Literals, SYMLIMIT, NoThreeTwice;
    AsksSize(data);
    AllLiteral(data);
    LiteralsWithoutTrees(data);
    LimitIs();
    assert [] + [Call(data, false)] == [Call(data, false)];
    SingleBlock([], data);
  }

  /** As one piece, with the end of the data in a call of its own. */
  lemma FailsAsOnePiece(data: seq<byte>)
    requires Asks(data) && NoThreeTwice(data)
    ensures Fails([Call(data, false)], [])
  {
    AsksSize(data);
    AllLiteral(data);
    LiteralsWithoutTrees(data);
    LimitIs();
    TwoCalls(data);
    hide *;
    SingleBlock([Call(data, false)], []);
  }

  lemma TwoCalls(data: seq<byte>)
    requires AllSyms([Call(data, false)]) == Literals(data)
    ensures var all := [Call(data, false)] + [Call([], false)]; Unflushed(all) && AllSyms(all) == Literals(data)
  {
    hide SymsFrom, Literals;
    var one := [Call(data, false)];
    var all := one + [Call([], false)];
    assert all[..1] == one && one[..0] == [] && [] + data == data && data + [] == data;
    assert DataOf(one) == data && DataOf(all) == data;
    TinyBlock(data, []);
    NoSyms([]);
    assert Literals(data) + [] == Literals(data);
  }

  // ---- A text

  /** Letters: one that stands at every fourth place, five, three and 21 more common ones,
      and four rare ones. */
  function Letter(id: nat): byte {
    if id == 0 then 156
    else if id < 3 then 97 + id
    else if id < 5 then 107 + id
    else if id == 5 then 122
    else if id < 8 then 127 + id
    else if id == 8 then 145
    else if id < 16 then 2 * (id - 9)
    else if id < 30 then 14 + 12 * ((id - 16) / 2) + id % 2
    else if id == 30 then 167
    else if id < 34 then 222 + id
    else 255
  }

  /** How often each is to occur. */
  function Wanted(id: nat): nat {
    if id == 0 then 128 else if id < 6 then 32 else if id < 9 then 16 else if id < 30 then 8 else if id == 30 then 4 else 1
  }

  /** The second, third and fourth letter of group t. */
  function X(t: nat): nat {
    if t / 16 < 5 then 1 + t / 16 else 9 + 2 * (t / 16 - 5) + t % 16 / 8
  }

  function Y(t: nat): nat {
    if t % 16 < 5 then 1 + t % 16 else if t % 16 < 8 then 1 + t % 16 else 7 + t % 16
  }

  function Slot(u: nat): nat {
    (u / 16 + u % 16) % 16
  }

  function Z(t: nat): nat {
    var u := t + 1;
    if Slot(u) == 0 then (if u / 16 <= 4 then 30 else 26 + u / 16)
    else if Slot(u) < 9 then Slot(u) else 14 + Slot(u)
  }

  function IdAt(i: nat): nat {
    if i % 4 == 0 then 0 else if i % 4 == 1 then X(i / 4) else if i % 4 == 2 then Y(i / 4) else Z(i / 4)
  }

  // ---- No three letters recur

  lemma Range(t: nat)
    requires t < 128
    ensures 1 <= X(t) < 15 && 1 <= Y(t) < 23 && (t < 127 ==> 1 <= Z(t) < 34)
  {
  }

  lemma PairXY(t: nat, u: nat)
    requires t < 128 && u < 128 && X(t) == X(u) && Y(t) == Y(u)
    ensures t == u
  {
  }

  lemma SlotOf(t: nat, u: nat)
    requires t < 127 && u < 127 && Z(t) == Z(u)
    ensures Slot(t + 1) == Slot(u + 1)
  {
  }

  lemma SameY(t: nat, u: nat)
    requires Y(t) == Y(u)
    ensures t % 16 == u % 16
  {
  }

  lemma Rotated(a: nat, b: nat, l: nat)
    requires a < 8 && b < 8 && (a + l) % 16 == (b + l) % 16
    ensures a == b
  {
  }

  lemma NextPlace(t: nat, u: nat)
    requires t % 16 == u % 16
    ensures (t + 1) % 16 == (u + 1) % 16
  {
    assert (t + 1) % 16 == if t % 16 == 15 then 0 else t % 16 + 1;
    assert (u + 1) % 16 == if u % 16 == 15 then 0 else u % 16 + 1;
  }

  lemma SlotTells(a: nat, b: nat)
    requires a < 128 && b < 128 && a % 16 == b % 16 && Slot(a) == Slot(b)
    ensures a == b
  {
    Rotated(a / 16, b / 16, a % 16);
  }

  lemma PairYZ(t: nat, u: nat)
    requires t < 127 && u < 127 && Y(t) == Y(u) && Z(t) == Z(u)
    ensures t == u
  {
    hide *;
    SlotOf(t, u);
    SameY(t, u);
    NextPlace(t, u);
    SlotTells(t + 1, u + 1);
  }

  lemma SameRow(a: nat, b: nat)
    requires a < 128 && b < 128 && X(a) == X(b)
    ensures a / 16 == b / 16
  {
  }

  lemma RotatedBack(h: nat, l: nat, m: nat)
    requires l < 16 && m < 16 && (h + l) % 16 == (h + m) % 16
    ensures l == m
  {
  }

  lemma RowTells(a: nat, b: nat)
    requires a < 128 && b < 128 && a / 16 == b / 16 && Slot(a) == Slot(b)
    ensures a == b
  {
    RotatedBack(a / 16, a % 16, b % 16);
  }

  lemma PairZX(t: nat, u: nat)
    requires t < 127 && u < 127 && Z(t) == Z(u) && X(t + 1) == X(u + 1)
    ensures t == u
  {
    hide *;
    SlotOf(t, u);
    SameRow(t + 1, u + 1);
    RowTells(t + 1, u + 1);
  }

  /** Of three letters in a row, the places and the letters tell where they stand. */
  lemma ThreeTell(i: nat, j: nat)
    requires i < 509 && j < 509 && IdAt(i) == IdAt(j) && IdAt(i + 1) == IdAt(j + 1) && IdAt(i + 2) == IdAt(j + 2)
    ensures i == j
  {
    SamePlace(i, j);
    var t, u := i / 4, j / 4;
    hide X, Y, Z;
    if i % 4 == 0 {
      assert (i + 1) / 4 == t && (i + 2) / 4 == t && (j + 1) / 4 == u && (j + 2) / 4 == u;
      PairXY(t, u);
    } else if i % 4 == 1 {
      assert (i + 1) / 4 == t && (j + 1) / 4 == u;
      PairXY(t, u);
    } else if i % 4 == 2 {
      assert (i + 1) / 4 == t && (j + 1) / 4 == u;
      PairYZ(t, u);
    } else {
      assert (i + 2) / 4 == t + 1 && (j + 2) / 4 == u + 1;
      PairZX(t, u);
    }
  }

  lemma OnlyFirst(i: nat)
    requires i < 511
    ensures IdAt(i) == 0 <==> i % 4 == 0
  {
    Range(i / 4);
    hide X, Y, Z;
  }

  lemma Places(i: nat)
    ensures ((i + 1) % 4 == 0 <==> i % 4 == 3) && ((i + 2) % 4 == 0 <==> i % 4 == 2)
  {
  }

  lemma SamePlace(i: nat, j: nat)
    requires i < 509 && j < 509 && IdAt(i) == IdAt(j) && IdAt(i + 1) == IdAt(j + 1) && IdAt(i + 2) == IdAt(j + 2)
    ensures i % 4 == j % 4
  {
    hide *;
    OnlyFirst(i);
    OnlyFirst(j);
    OnlyFirst(i + 1);
    OnlyFirst(j + 1);
    OnlyFirst(i + 2);
    OnlyFirst(j + 2);
    Places(i);
    Places(j);
  }

  lemma IdRange(i: nat)
    requires i < 511
    ensures IdAt(i) < 34
  {
    Range(i / 4);
    hide X, Y, Z;
  }

  /** Different ids are different letters. */
  lemma LettersDiffer(a: nat, b: nat)
    requires a < 34 && b < 34 && Letter(a) == Letter(b)
    ensures a == b
  {
  }

  /** The text. */
  function Text(): (s: seq<byte>)
    ensures |s| == 511
  {
    seq(511, i requires 0 <= i < 511 => Letter(IdAt(i)))
  }

  lemma TextNoThreeTwice()
    ensures NoThreeTwice(Text())
  {
    hide IdAt, Letter;
    forall i: nat, j: nat | i < j && j + 3 <= 511 ensures !ThreeSame(Text(), i, j) {
      if ThreeSame(Text(), i, j) {
        TextAt(i);
        TextAt(j);
        IdsSame(i, j);
        IdsSame(i + 1, j + 1);
        IdsSame(i + 2, j + 2);
        ThreeTell(i, j);
      }
    }
  }

  lemma TextAt(i: nat)
    requires i + 3 <= 511
    ensures Text()[i] == Letter(IdAt(i)) && Text()[i + 1] == Letter(IdAt(i + 1)) && Text()[i + 2] == Letter(IdAt(i + 2))
  {
  }

  lemma IdsSame(i: nat, j: nat)
    requires i < 511 && j < 511 && Letter(IdAt(i)) == Letter(IdAt(j))
    ensures IdAt(i) == IdAt(j)
  {
    IdRange(i);
    IdRange(j);
    LettersDiffer(IdAt(i), IdAt(j));
  }

  // ---- How often each letter occurs

  /** Among the first n groups. */
  function Count(f: nat -> nat, n: nat, id: nat): nat {
    if n == 0 then 0 else Count(f, n - 1, id) + if f(n - 1) == id then 1 else 0
  }

  function Clamp(n: int, most: nat): nat {
    if n < 0 then 0 else if n > most then most else n
  }

  lemma {:induction false} CountX(n: nat, id: nat)
    requires n <= 128
    ensures Count(X, n, id) ==
      if 1 <= id <= 5 then Clamp(n - 16 * (id - 1), 16) else if 9 <= id < 15 then Clamp(n - 80 - 8 * (id - 9), 8) else 0
  {
    if n > 0 {
      CountX(n - 1, id);
    }
  }

  /** The places that letter id takes in every row of sixteen. */
  function RowY(id: nat): nat {
    if 1 <= id < 9 then id - 1 else if 15 <= id < 23 then id - 7 else 16
  }

  lemma {:induction false} CountY(n: nat, id: nat)
    ensures Count(Y, n, id) == if RowY(id) < 16 then (n + 15 - RowY(id)) / 16 else 0
  {
    if n > 0 {
      CountY(n - 1, id);
      YIs(n - 1, id);
      hide Y, RowY;
      if RowY(id) < 16 {
        NextRow(n - 1, RowY(id));
      } else {
        assert (n - 1) % 16 < 16;
      }
    }
  }

  lemma NextRow(n: nat, r: nat)
    requires r < 16
    ensures (n + 1 + 15 - r) / 16 == (n + 15 - r) / 16 + if n % 16 == r then 1 else 0
  {
    var q, l := n / 16, n % 16;
    assert n == 16 * q + l;
    assert (n + 15 - r) / 16 == if l <= r then q else q + 1;
    assert (n + 16 - r) / 16 == if l < r then q else q + 1;
  }

  lemma YIs(t: nat, id: nat)
    ensures Y(t) == id <==> t % 16 == RowY(id)
  {
  }

  /** The slot that letter id takes. */
  function SlotZ(id: nat): nat {
    if 1 <= id < 9 then id else if 23 <= id < 30 then id - 14 else 16
  }

  /** Of n numbers, how many are in slot s: one in every full row, and perhaps one more. */
  function InSlot(n: nat, s: nat): nat {
    n / 16 + if (s - n / 16) % 16 < n % 16 then 1 else 0
  }

  lemma InSlotStep(n: nat, s: nat)
    requires s < 16
    ensures InSlot(n + 1, s) == InSlot(n, s) + if Slot(n) == s then 1 else 0
  {
    if n % 16 == 15 {
      assert (n + 1) / 16 == n / 16 + 1 && (n + 1) % 16 == 0;
    } else {
      assert (n + 1) / 16 == n / 16 && (n + 1) % 16 == n % 16 + 1;
    }
  }

  lemma ZIs(t: nat, id: nat)
    requires SlotZ(id) < 16
    ensures Z(t) == id <==> Slot(t + 1) == SlotZ(id)
  {
  }

  lemma {:induction false} CountZ(n: nat, id: nat)
    requires SlotZ(id) < 16
    ensures Count(Z, n, id) == InSlot(n + 1, SlotZ(id))
  {
    if n > 0 {
      CountZ(n - 1, id);
      ZIs(n - 1, id);
      InSlotStep(n, SlotZ(id));
      hide Z, Slot, SlotZ, InSlot;
    } else {
      NoneYet(SlotZ(id));
    }
  }

  lemma NoneYet(s: nat)
    requires 1 <= s < 16
    ensures InSlot(1, s) == 0
  {
  }

  /** The seven numbers in slot 0, but for 0 itself. */
  function RareAt(id: nat, u: nat): bool {
    if id == 30 then u == 31 || u == 46 || u == 61 || u == 76
    else if id == 31 then u == 91 else if id == 32 then u == 106 else u == 121
  }

  lemma RareIs(t: nat, id: nat)
    requires t < 127 && 30 <= id < 34
    ensures Z(t) == id <==> RareAt(id, t + 1)
  {
    var u := t + 1;
    assert Slot(u) == 0 <==> u == 31 || u == 46 || u == 61 || u == 76 || u == 91 || u == 106 || u == 121;
  }

  lemma {:induction false} CountRare(n: nat, id: nat)
    requires n <= 127 && 30 <= id < 34
    ensures Count(Z, n, id) ==
      if id == 30 then (if n < 31 then 0 else if n < 46 then 1 else if n < 61 then 2 else if n < 76 then 3 else 4)
      else if n < (if id == 31 then 91 else if id == 32 then 106 else 121) then 0 else 1
  {
    if n > 0 {
      CountRare(n - 1, id);
      RareIs(n - 1, id);
      hide Z;
    }
  }

  lemma {:induction false} CountNone(n: nat, id: nat)
    requires n <= 127 && (id == 0 || 9 <= id < 23)
    ensures Count(Z, n, id) == 0
  {
    if n > 0 {
      CountNone(n - 1, id);
      Range(n - 1);
      NotRare(n - 1, id);
    }
  }

  lemma NotRare(t: nat, id: nat)
    requires t < 127 && (id == 0 || 9 <= id < 23)
    ensures Z(t) != id
  {
  }

  /** All in all every letter occurs as often as it is to. */
  lemma Counts(id: nat)
    requires id < 34
    ensures (if id == 0 then 128 else 0) + Count(X, 128, id) + Count(Y, 128, id) + Count(Z, 127, id) == Wanted(id)
  {
    hide Count, X, Y, Z;
    CountX(128, id);
    CountY(128, id);
    if 30 <= id {
      CountRare(127, id);
    } else if SlotZ(id) < 16 {
      CountZ(127, id);
    } else {
      CountNone(127, id);
    }
  }

  /** The first n groups. */
  function Ids(n: nat): (s: seq<nat>)
    ensures |s| == 4 * n
  {
    if n == 0 then [] else Ids(n - 1) + [0, X(n - 1), Y(n - 1), Z(n - 1)]
  }

  lemma {:induction false} IdsAre(n: nat, i: nat)
    requires i < 4 * n
    ensures Ids(n)[i] == IdAt(i)
  {
    hide X, Y, Z;
    if i < 4 * (n - 1) {
      IdsAre(n - 1, i);
    } else {
      assert i / 4 == n - 1;
    }
  }

  lemma FourMore(s: seq<nat>, a: nat, b: nat, c: nat, d: nat, id: nat)
    ensures multiset(s + [a, b, c, d])[id] ==
      multiset(s)[id] + (if a == id then 1 else 0) + (if b == id then 1 else 0) + (if c == id then 1 else 0) + if d == id then 1 else 0
  {
  }

  lemma {:induction false} IdsCount(n: nat, id: nat)
    ensures multiset(Ids(n))[id] == (if id == 0 then n else 0) + Count(X, n, id) + Count(Y, n, id) + Count(Z, n, id)
  {
    hide *;
    if n > 0 {
      IdsCount(n - 1, id);
      IdsStep(n);
      CountOneMore(X, n - 1, id);
      CountOneMore(Y, n - 1, id);
      CountOneMore(Z, n - 1, id);
      FourMore(Ids(n - 1), 0, X(n - 1), Y(n - 1), Z(n - 1), id);
    } else {
      NoneCounted(id);
    }
  }

  lemma IdsStep(n: nat)
    requires n > 0
    ensures Ids(n) == Ids(n - 1) + [0, X(n - 1), Y(n - 1), Z(n - 1)]
  {
  }

  lemma NoneCounted(id: nat)
    ensures multiset(Ids(0))[id] == 0 == Count(X, 0, id) == Count(Y, 0, id) == Count(Z, 0, id)
  {
  }

  function TextIds(): (s: seq<nat>)
    ensures |s| == 511
  {
    Ids(127) + [0, X(127), Y(127)]
  }

  lemma TextIdsAre()
    ensures forall i :: 0 <= i < 511 ==> TextIds()[i] == IdAt(i) < 34
  {
    forall i | 0 <= i < 511 ensures TextIds()[i] == IdAt(i) < 34 {
      IdRange(i);
      if i < 508 {
        IdsAre(127, i);
      }
    }
  }

  lemma TextIdsCount(id: nat)
    requires id < 34
    ensures multiset(TextIds())[id] == Wanted(id)
  {
    hide *;
    Counts(id);
    IdsCount(127, id);
    CountOneMore(X, 127, id);
    CountOneMore(Y, 127, id);
    TextIdsEnd();
    ThreeMore(Ids(127), 0, X(127), Y(127), id);
  }

  lemma TextIdsEnd()
    ensures TextIds() == Ids(127) + [0, X(127), Y(127)]
  {
  }

  lemma ThreeMore(s: seq<nat>, a: nat, b: nat, c: nat, id: nat)
    ensures multiset(s + [a, b, c])[id] ==
      multiset(s)[id] + (if a == id then 1 else 0) + (if b == id then 1 else 0) + if c == id then 1 else 0
  {
  }

  lemma CountOneMore(f: nat -> nat, n: nat, id: nat)
    ensures Count(f, n + 1, id) == Count(f, n, id) + if f(n) == id then 1 else 0
  {
  }

  lemma LastCounts<T>(s: seq<T>, c: T)
    requires s != []
    ensures multiset(s)[c] == multiset(s[..|s| - 1])[c] + if s[|s| - 1] == c then 1 else 0
  {
    var n := |s| - 1;
    assert s == s[..n] + [s[n]];
  }

  /** The same for the letters themselves. */
  lemma {:induction false} LettersCount(ids: seq<nat>, s: seq<byte>, id: nat)
    requires |s| == |ids| && id < 34 && forall i :: 0 <= i < |s| ==> ids[i] < 34 && s[i] == Letter(ids[i])
    ensures multiset(s)[Letter(id)] == multiset(ids)[id]
    decreases |s|
  {
    hide Letter;
    if s != [] {
      var n := |s| - 1;
      LettersCount(ids[..n], s[..n], id);
      LastCounts(s, Letter(id));
      LastCounts(ids, id);
      if Letter(ids[n]) == Letter(id) {
        LettersDiffer(ids[n], id);
      }
    }
  }

  lemma {:induction false} OtherLetters(ids: seq<nat>, s: seq<byte>, c: byte)
    requires |s| == |ids| && forall i :: 0 <= i < |s| ==> ids[i] < 34 && s[i] == Letter(ids[i])
    requires forall id: nat :: id < 34 ==> Letter(id) != c
    ensures multiset(s)[c] == 0
    decreases |s|
  {
    hide Letter;
    if s != [] {
      var n := |s| - 1;
      OtherLetters(ids[..n], s[..n], c);
      assert s == s[..n] + [s[n]];
    }
  }

  /** The id of a letter, 34 if it is none. */
  function IdOf(c: nat): nat {
    if c < 14 then (if c % 2 == 0 then 9 + c / 2 else 34)
    else if c < 98 then (if (c - 14) % 12 < 2 then 16 + 2 * ((c - 14) / 12) + (c - 14) % 12 else 34)
    else if c < 122 then (if (c - 98) % 12 < 2 then 1 + 2 * ((c - 98) / 12) + (c - 98) % 12 else 34)
    else if c == 122 then 5 else if c == 133 then 6 else if c == 134 then 7 else if c == 145 then 8
    else if c == 156 then 0 else if c == 167 then 30 else if 253 <= c < 256 then c - 222 else 34
  }

  lemma IdOfLetter(id: nat)
    requires id < 34
    ensures IdOf(Letter(id)) == id
  {
  }

  lemma LetterOfId(c: byte)
    requires IdOf(c) < 34
    ensures Letter(IdOf(c)) == c
  {
  }

  lemma TextCounts(c: byte)
    ensures multiset(Text())[c] == if IdOf(c) < 34 then Wanted(IdOf(c)) else 0
  {
    TextIdsAre();
    hide Letter, IdOf, IdAt, TextIds, Wanted;
    if IdOf(c) < 34 {
      LettersCount(TextIds(), Text(), IdOf(c));
      LetterOfId(c);
      TextIdsCount(IdOf(c));
    } else {
      forall id: nat | id < 34 ensures Letter(id) != c {
        IdOfLetter(id);
      }
      OtherLetters(TextIds(), Text(), c);
    }
  }

  // ---- What their lengths ask for

  /** The length of c, place by place. */
  function LenAt(c: nat): CodeLen {
    if c < 14 then (if c % 2 == 0 then 6 else 0)
    else if c < 98 then (if (c - 14) % 12 < 2 then 6 else 0)
    else if c < 122 then (if (c - 98) % 12 < 2 then 4 else 0)
    else if c == 122 then 4 else if c == 133 || c == 134 || c == 145 then 5
    else if c == 156 then 2 else if c == 167 then 7 else if 253 <= c < 257 then 9 else 0
  }

  lemma PairLaid(v: CodeLen, k: nat, zeros: nat)
    ensures Laid(Pair(v, k, zeros)) == Repeat(v, k) + Repeat(0, zeros)
  {
    var p := Pair(v, k, zeros);
    assert p[1..] == [(0, zeros)];
    assert Laid([(0, zeros)]) == Repeat(0, zeros) + Laid([]);
  }

  lemma TimesStep(n: nat, v: CodeLen, k: nat, zeros: nat)
    requires n > 0
    ensures Laid(Times(n, Pair(v, k, zeros))) == (Repeat(v, k) + Repeat(0, zeros)) + Laid(Times(n - 1, Pair(v, k, zeros)))
  {
    PairLaid(v, k, zeros);
    LaidAppend(Pair(v, k, zeros), Times(n - 1, Pair(v, k, zeros)));
  }

  /** Lengths go round and round. */
  ghost predicate Round(ls: seq<CodeLen>, n: nat, v: CodeLen, k: nat, m: nat)
    requires m > 0
  {
    |ls| == n * m && forall i :: 0 <= i < |ls| ==> ls[i] == if i % m < k then v else 0
  }

  lemma RoundOnceMore(ls: seq<CodeLen>, n: nat, v: CodeLen, k: nat, zeros: nat)
    requires (k + zeros == 2 || k + zeros == 12) && Round(ls, n, v, k, k + zeros)
    ensures Round((Repeat(v, k) + Repeat(0, zeros)) + ls, n + 1, v, k, k + zeros)
  {
    var m, head := k + zeros, Repeat(v, k) + Repeat(0, zeros);
    assert (n + 1) * m == n * m + m by { Runs.OnceMoreOf(n, m); }
    forall i | 0 <= i < |head + ls| ensures (head + ls)[i] == if i % m < k then v else 0 {
      if i < m {
        Small(i, m);
      } else {
        Wraps(i, m);
        assert (head + ls)[i] == ls[i - m];
      }
    }
  }

  lemma {:induction false} TimesRound(n: nat, v: CodeLen, k: nat, zeros: nat)
    requires k + zeros == 2 || k + zeros == 12
    ensures Round(Laid(Times(n, Pair(v, k, zeros))), n, v, k, k + zeros)
  {
    if n == 0 {
      NoTimes(Pair(v, k, zeros));
    } else {
      hide *;
      TimesRound(n - 1, v, k, zeros);
      RoundOnceMore(Laid(Times(n - 1, Pair(v, k, zeros))), n - 1, v, k, zeros);
      TimesStep(n, v, k, zeros);
    }
  }

  lemma TimesLaid(n: nat, v: CodeLen, k: nat, zeros: nat, i: nat)
    requires (k + zeros == 2 || k + zeros == 12) && i < n * (k + zeros)
    ensures var ls := Laid(Times(n, Pair(v, k, zeros)));
      |ls| == n * (k + zeros) && ls[i] == if i % (k + zeros) < k then v else 0
  {
    TimesRound(n, v, k, zeros);
    hide Laid, Times, Pair;
  }

  lemma Wraps(i: nat, m: nat)
    requires (m == 2 || m == 12) && m <= i
    ensures i % m == (i - m) % m
  {
  }

  lemma Small(i: nat, m: nat)
    requires i < m
    ensures i % m == i
  {
  }

  lemma NoTimes(p: seq<Run>)
    ensures Laid(Times(0, p)) == []
  {
  }

  /** The runs behind the ones that are repeated. */
  function Behind(): seq<Run> {
    Pair(4, 1, 10) + (Pair(5, 2, 10) + (Pair(5, 1, 10) + (Pair(2, 1, 10) + (Pair(7, 1, 85) + [(9, 4)]))))
  }

  lemma LastLaid()
    ensures Laid([(9, 4)]) == Repeat(9, 4)
  {
    assert [(9, 4)][1..] == [];
    assert Laid([]) == [];
  }

  lemma LaidThen(v: CodeLen, k: nat, zeros: nat, rs: seq<Run>)
    ensures Laid(Pair(v, k, zeros) + rs) == Repeat(v, k) + Repeat(0, zeros) + Laid(rs)
  {
    PairLaid(v, k, zeros);
    LaidAppend(Pair(v, k, zeros), rs);
  }

  lemma BehindLaid()
    ensures var ls := Laid(Behind()); |ls| == 135 && forall j :: 0 <= j < 135 ==> ls[j] == LenAt(122 + j)
  {
    hide Laid, Pair;
    LastLaid();
    var r9 := [(9, 4)];
    LaidThen(7, 1, 85, r9);
    var r8 := Pair(7, 1, 85) + r9;
    LaidThen(2, 1, 10, r8);
    var r7 := Pair(2, 1, 10) + r8;
    LaidThen(5, 1, 10, r7);
    var r6 := Pair(5, 1, 10) + r7;
    LaidThen(5, 2, 10, r6);
    var r5 := Pair(5, 2, 10) + r6;
    LaidThen(4, 1, 10, r5);
    SixParts(Laid(Behind()), Laid(r5), Laid(r6), Laid(r7), Laid(r8), Laid(r9));
  }

  lemma SixParts(l4: seq<CodeLen>, l5: seq<CodeLen>, l6: seq<CodeLen>, l7: seq<CodeLen>, l8: seq<CodeLen>, l9: seq<CodeLen>)
    requires l9 == Repeat(9, 4) && l8 == Repeat(7, 1) + Repeat(0, 85) + l9 && l7 == Repeat(2, 1) + Repeat(0, 10) + l8
    requires l6 == Repeat(5, 1) + Repeat(0, 10) + l7 && l5 == Repeat(5, 2) + Repeat(0, 10) + l6
    requires l4 == Repeat(4, 1) + Repeat(0, 10) + l5
    ensures |l4| == 135 && forall j :: 0 <= j < 135 ==> l4[j] == LenAt(122 + j)
  {
    hide Repeat;
    assert |l9| == 4 && |l8| == 90 && |l7| == 101 && |l6| == 112 && |l5| == 124;
    assert forall j :: 0 <= j < 4 ==> l9[j] == 9;
    assert forall j :: 0 <= j < 90 ==> l8[j] == if j == 0 then 7 else if j < 86 then 0 else 9;
    assert forall j :: 0 <= j < 101 ==> l7[j] == if j == 0 then 2 else if j < 11 then 0 else l8[j - 11];
    assert forall j :: 0 <= j < 112 ==> l6[j] == if j == 0 then 5 else if j < 11 then 0 else l7[j - 11];
    assert forall j :: 0 <= j < 124 ==> l5[j] == if j < 2 then 5 else if j < 12 then 0 else l6[j - 12];
    assert forall j :: 0 <= j < 135 ==> l4[j] == if j == 0 then 4 else if j < 11 then 0 else l5[j - 11];
  }

  lemma RunsAre()
    ensures LitRuns() == Times(7, Pair(6, 1, 1)) + (Times(7, Pair(6, 2, 10)) + (Times(2, Pair(4, 2, 10)) + Behind()))
  {
  }

  lemma LensAt(c: nat)
    requires c < 257
    ensures |Lens()| == 257 && Lens()[c] == LenAt(c)
  {
    RunsAre();
    NoTrees.LensAre();
    hide *;
    BehindLaid();
    var a, b, d := Times(7, Pair(6, 1, 1)), Times(7, Pair(6, 2, 10)), Times(2, Pair(4, 2, 10));
    LaidAppend(d, Behind());
    LaidAppend(b, d + Behind());
    LaidAppend(a, b + (d + Behind()));
    TimesLaid(7, 6, 1, 1, if c < 14 then c else 0);
    TimesLaid(7, 6, 2, 10, if 14 <= c < 98 then c - 14 else 0);
    TimesLaid(2, 4, 2, 10, if 98 <= c < 122 then c - 98 else 0);
    FourParts(Laid(a), Laid(b), Laid(d), Laid(Behind()), Lens(), c);
  }

  lemma FourParts(a: seq<CodeLen>, b: seq<CodeLen>, d: seq<CodeLen>, e: seq<CodeLen>, all: seq<CodeLen>, c: nat)
    requires c < 257 && |a| == 14 && |b| == 84 && |d| == 24 && |e| == 135 && all == a + (b + (d + e))
    requires c < 14 ==> a[c] == if c % 2 < 1 then 6 else 0
    requires 14 <= c < 98 ==> b[c - 14] == if (c - 14) % 12 < 2 then 6 else 0
    requires 98 <= c < 122 ==> d[c - 98] == if (c - 98) % 12 < 2 then 4 else 0
    requires forall j :: 0 <= j < 135 ==> e[j] == LenAt(122 + j)
    ensures |all| == 257 && all[c] == LenAt(c)
  {
    assert all[c] == if c < 14 then a[c] else if c < 98 then b[c - 14] else if c < 122 then d[c - 98] else e[c - 122];
  }

  function LengthOf(id: nat): CodeLen {
    if id == 0 then 2 else if id < 6 then 4 else if id < 9 then 5 else if id < 30 then 6 else if id == 30 then 7
    else if id < 34 then 9 else 0
  }

  lemma LengthOfLetter(c: byte)
    ensures LenAt(c) == LengthOf(IdOf(c))
  {
  }

  lemma AskedForLength(id: nat)
    ensures AskedFor(9, LengthOf(id)) == if id < 34 then Wanted(id) else 0
  {
    assert Pow2(0) == 1 && Pow2(2) == 4 && Pow2(3) == 8 && Pow2(4) == 16 && Pow2(5) == 32 && Pow2(7) == 128;
    hide Pow2;
  }

  /** A letter is asked for as often as it occurs. */
  lemma AskedIs(c: byte)
    ensures Asked(Lens(), 9, c) == if IdOf(c) < 34 then Wanted(IdOf(c)) else 0
  {
    LensAt(c);
    LengthOfLetter(c);
    AskedForLength(IdOf(c));
    hide Lens, LenAt, LengthOf, IdOf, Wanted, AskedFor;
  }

  lemma TextAsks()
    ensures Asks(Text())
  {
    hide Asked, Text, IdOf, Wanted;
    forall c: nat | c < 256 ensures multiset(Text())[c] == Asked(Lens(), 9, c) {
      AskedIs(c);
      TextCounts(c);
    }
  }

  /** The text makes the compressor fail: in a single call, and in pieces of any kind up to
      two bytes. */
  lemma TheTextFails()
    ensures Fails([], Text()) && Fails([Call(Text(), false)], [])
    ensures forall calls :: Unflushed(calls) && Tiny(calls) && DataOf(calls) == Text() ==> Fails(calls, [])
  {
    hide *;
    TextAsks();
    TextNoThreeTwice();
    FailsAtOnce(Text());
    FailsAsOnePiece(Text());
    forall calls | Unflushed(calls) && Tiny(calls) && DataOf(calls) == Text() ensures Fails(calls, []) {
      NothingBehind(DataOf(calls));
      FailsInPieces(calls, []);
    }
  }

  lemma NothingBehind(s: seq<byte>)
    ensures s + [] == s
  {
  }
}

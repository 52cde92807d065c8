/** Symbols all of whose 316 code lengths are sent one by one: no three zeros and no four
    other equal lengths are adjacent, so nothing can be abbreviated, and the array of tree
    symbols overflows. */
module Unabridged {
  import opened Bits
  import opened Canonical
  import opened DeflateCodes
  import opened Inflate
  import opened Symbols
  import opened CodeLengths
  import opened BlockTrees
  import opened Runs
  import Tokens
  import DeflateHuffman
  import NoTrees

  // ---- The lengths

  /** Those of literals and the end of the block. */
  function ByteRuns(): seq<Run> {
    Times(25, [(8, 3), (9, 3), (7, 1)]) + (Times(13, [(8, 3), (9, 3)]) + [(8, 2), (9, 2)])
  }

  /** Those of match lengths. */
  function MatchRuns(): seq<Run> {
    Times(7, [(8, 2), (9, 1), (7, 1)]) + [(9, 1)]
  }

  function LitRuns(): seq<Run> {
    ByteRuns() + MatchRuns()
  }

  /** Those of distances. */
  function DistRuns(): seq<Run> {
    Times(4, [(5, 2), (6, 3), (4, 2)]) + [(5, 2)]
  }

  lemma TallyBytes(m: Measure)
    ensures Tally(m, ByteRuns()) ==
      25 * (Weigh(m, (8, 3)) + Weigh(m, (9, 3)) + Weigh(m, (7, 1))) + 13 * (Weigh(m, (8, 3)) + Weigh(m, (9, 3)))
      + (Weigh(m, (8, 2)) + Weigh(m, (9, 2)))
  {
    hide Times, Weigh, Tally;
    TallyThree(m, (8, 3), (9, 3), (7, 1));
    TallyTwo(m, (8, 3), (9, 3));
    TallyTwo(m, (8, 2), (9, 2));
    TallyTimesThen(m, 13, [(8, 3), (9, 3)], [(8, 2), (9, 2)]);
    TallyTimesThen(m, 25, [(8, 3), (9, 3), (7, 1)], Times(13, [(8, 3), (9, 3)]) + [(8, 2), (9, 2)]);
  }

  lemma TallyMatches(m: Measure)
    ensures Tally(m, MatchRuns()) == 7 * (Weigh(m, (8, 2)) + Weigh(m, (9, 1)) + Weigh(m, (7, 1))) + Weigh(m, (9, 1))
  {
    hide Times, Weigh, Tally;
    TallyThree(m, (8, 2), (9, 1), (7, 1));
    TallyOne(m, (9, 1));
    TallyTimesThen(m, 7, [(8, 2), (9, 1), (7, 1)], [(9, 1)]);
  }

  lemma TallyDists(m: Measure)
    ensures Tally(m, DistRuns()) == 4 * (Weigh(m, (5, 2)) + Weigh(m, (6, 3)) + Weigh(m, (4, 2))) + Weigh(m, (5, 2))
  {
    hide Times, Weigh, Tally;
    TallyThree(m, (5, 2), (6, 3), (4, 2));
    TallyOne(m, (5, 2));
    TallyTimesThen(m, 4, [(5, 2), (6, 3), (4, 2)], [(5, 2)]);
  }

  lemma TallyLits(m: Measure)
    ensures Tally(m, LitRuns()) == Tally(m, ByteRuns()) + Tally(m, MatchRuns())
  {
    hide ByteRuns, MatchRuns, Tally;
    TallyAppend(m, ByteRuns(), MatchRuns());
  }

  lemma Sizes()
    ensures Tally(Size, ByteRuns()) == 257 && Tally(Size, LitRuns()) == 286 && Tally(Size, DistRuns()) == 30
  {
    TallyBytes(Size);
    TallyMatches(Size);
    TallyDists(Size);
    TallyLits(Size);
    hide ByteRuns, MatchRuns, LitRuns, DistRuns, Tally;
  }

  /** They fill their code spaces, and matches have as many lengths as distances. */
  lemma Rooms()
    ensures Tally(Room(9), ByteRuns()) == 448 && Tally(Room(9), LitRuns()) == 512 == Pow2(9)
    ensures Tally(Room(6), DistRuns()) == 64 == Pow2(6)
  {
    TallyBytes(Room(9));
    TallyMatches(Room(9));
    TallyDists(Room(6));
    TallyLits(Room(9));
    assert Pow2(0) == 1 && Pow2(1) == 2 && Pow2(2) == 4 && Pow2(6) == 64 && Pow2(9) == 8 * Pow2(6);
    hide ByteRuns, MatchRuns, LitRuns, DistRuns, Tally, Pow2;
  }

  /** Up to three equal lengths take as many symbols. */
  lemma ShortRun(v: CodeLen, k: nat)
    requires v > 0 && 0 < k <= 3
    ensures Weigh(Spelled, (v, k)) == k
  {
  }

  lemma AllSpelled()
    ensures Tally(Spelled, LitRuns() + DistRuns()) == 316
  {
    hide *;
    TallyBytes(Spelled);
    TallyMatches(Spelled);
    TallyDists(Spelled);
    TallyLits(Spelled);
    TallyAppend(Spelled, LitRuns(), DistRuns());
    ShortRun(8, 3);
    ShortRun(9, 3);
    ShortRun(7, 1);
    ShortRun(8, 2);
    ShortRun(9, 2);
    ShortRun(9, 1);
    ShortRun(5, 2);
    ShortRun(6, 3);
    ShortRun(4, 2);
  }

  lemma ByteNeat()
    ensures Neat(ByteRuns(), 8, 9)
  {
    var t, u, w := [(8, 3), (9, 3), (7, 1)], [(8, 3), (9, 3)], [(8, 2), (9, 2)];
    assert Neat(t, 8, 7) && Neat(u, 8, 9) && Neat(w, 8, 9);
    hide Neat, Times;
    NeatTimes(25, t, 8, 7);
    NeatTimes(13, u, 8, 9);
    Joined(Times(13, u), 8, 9, 8, w, 9);
    Joined(Times(25, t), 8, 7, 8, Times(13, u) + w, 9);
  }

  lemma MatchNeat()
    ensures Neat(MatchRuns(), 8, 9)
  {
    var x := [(8, 2), (9, 1), (7, 1)];
    assert Neat(x, 8, 7) && Neat([(9, 1)], 9, 9);
    hide Neat, Times;
    NeatTimes(7, x, 8, 7);
    Joined(Times(7, x), 8, 7, 9, [(9, 1)], 9);
  }

  lemma LitNeat()
    ensures Neat(ByteRuns(), 8, 9) && Neat(LitRuns(), 8, 9)
  {
    LitRunsAre();
    hide *;
    ByteNeat();
    MatchNeat();
    Joined(ByteRuns(), 8, 9, 8, MatchRuns(), 9);
  }

  lemma DistNeat()
    ensures Neat(DistRuns(), 5, 5) && forall i :: 0 <= i < |DistRuns()| ==> DistRuns()[i].0 <= 6
  {
    var y := [(5, 2), (6, 3), (4, 2)];
    assert Neat(y, 5, 4) && Neat([(5, 2)], 5, 5);
    AtMostSix(4);
    hide Neat, Times;
    NeatTimes(4, y, 5, 4);
    Joined(Times(4, y), 5, 4, 5, [(5, 2)], 5);
  }

  lemma {:induction false} AtMostSix(n: nat)
    ensures var p := [(5, 2), (6, 3), (4, 2)];
      forall i :: 0 <= i < |Times(n, p)| ==> Times(n, p)[i].0 <= 6
  {
    if n > 0 {
      AtMostSix(n - 1);
    }
  }

  lemma AllNeat()
    ensures Neat(LitRuns(), 8, 9) && Neat(DistRuns(), 5, 5) && Neat(LitRuns() + DistRuns(), 8, 5)
  {
    hide *;
    LitNeat();
    DistNeat();
    Joined(LitRuns(), 8, 9, 5, DistRuns(), 5);
  }

  // ---- The symbols

  /** Each symbol occurs as often as its length asks for. */
  ghost predicate Asks(ss: seq<Sym>) {
    LitFreqs(ss) == Asking(Laid(LitRuns()), 9, 286) && DistFreqs(ss) == Asking(Laid(DistRuns()), 6, 30)
  }

  lemma LensAre(ss: seq<Sym>)
    requires Asks(ss)
    ensures LensFor(LitFreqs(ss), 286, 15) == Laid(LitRuns()) && LensFor(DistFreqs(ss), 30, 15) == Laid(DistRuns())
    ensures |Laid(LitRuns())| == 286 && |Laid(DistRuns())| == 30
  {
    AsksIs(ss);
    hide *;
    Sizes();
    Rooms();
    LaidSize(LitRuns());
    LaidSize(DistRuns());
    LitNeat();
    NoTrees.NeatIs(LitRuns(), 8, 9);
    DistNeat();
    Settled(LitRuns(), 9, 286);
    Settled(DistRuns(), 6, 30);
    NoZeros(Laid(LitRuns()));
    NoZeros(Laid(DistRuns()));
  }

  lemma AsksIs(ss: seq<Sym>)
    requires Asks(ss)
    ensures LitFreqs(ss) == Asking(Laid(LitRuns()), 9, 286) && DistFreqs(ss) == Asking(Laid(DistRuns()), 6, 30)
  {
  }

  lemma NoZeros(ls: seq<CodeLen>)
    ensures ls + Repeat(0, 0) == ls
  {
  }

  lemma AllSent(rs: seq<Run>, first: CodeLen, last: CodeLen, n: nat, least: nat)
    requires Neat(rs, first, last) && last != 0 && |Laid(rs)| == n >= least
    ensures SentOf(Laid(rs), n, least) == n && Laid(rs)[..n] == Laid(rs)
  {
    NoTrees.LaidLast(rs);
    hide Laid;
  }

  /** All 316 lengths are sent, each with a symbol of its own, and the assertion on the number
      of tree symbols fails. */
  lemma NothingAbridged(ss: seq<Sym>)
    requires Asks(ss)
    ensures |Spelling(SentLens(ss), 0)| == 316 && !Plannable(ss)
  {
    hide *;
    LensAre(ss);
    AllNeat();
    AllSent(LitRuns(), 8, 9, 286, 257);
    AllSent(DistRuns(), 5, 5, 30, 1);
    BlockTrees.SentAre(ss, Laid(LitRuns()), Laid(DistRuns()), 286, 30);
    LaidAppend(LitRuns(), DistRuns());
    NoTrees.NeatIs(LitRuns() + DistRuns(), 8, 5);
    NoTrees.WholeSlice(SentLens(ss));
    SpellingOfRuns(SentLens(ss), 0, LitRuns() + DistRuns());
    SpelledTally(LitRuns() + DistRuns());
    AllSpelled();
    PlannableIs(ss);
  }

  // ---- Data that leads there

  /** A shortest match for a length code and a distance code. */
  function MatchSyms(l: nat, d: nat): (ss: seq<Sym>)
    requires 257 <= l < 286 && d < 30
  {
    assert |LENCODES| == 29 && |DISTCODES| == 30;
    var r, q := LENCODES[l - 257], DISTCODES[d];
    [LitLenSym(l)] + (if r.extrabits > 0 then [ExtraBits(0, r.extrabits)] else [])
    + ([DistSym(d)] + if q.extrabits > 0 then [ExtraBits(0, q.extrabits)] else [])
  }

  predicate MatchCodes(ls: seq<nat>, ds: seq<nat>) {
    |ls| == |ds| && (forall i :: 0 <= i < |ls| ==> 257 <= ls[i] < 286) && forall i :: 0 <= i < |ds| ==> ds[i] < 30
  }

  function Matches(ls: seq<nat>, ds: seq<nat>): seq<Sym>
    requires MatchCodes(ls, ds)
  {
    if ls == [] then [] else
      var n := |ls| - 1;
      Matches(ls[..n], ds[..n]) + MatchSyms(ls[n], ds[n])
  }

  lemma MatchCounts(l: nat, d: nat, c: nat)
    requires 257 <= l < 286 && d < 30
    ensures Occurrences(MatchSyms(l, d), LitLenSym(c)) == if c == l then 1 else 0
    ensures Occurrences(MatchSyms(l, d), DistSym(c)) == if c == d then 1 else 0
  {
    CountedIn(MatchSyms(l, d), LitLenSym(c));
    CountedIn(MatchSyms(l, d), DistSym(c));
    hide LENCODES, DISTCODES, Occurrences;
  }

  lemma {:induction false} MatchesCount(ls: seq<nat>, ds: seq<nat>, c: nat)
    requires MatchCodes(ls, ds)
    ensures Occurrences(Matches(ls, ds), LitLenSym(c)) == multiset(ls)[c]
    ensures Occurrences(Matches(ls, ds), DistSym(c)) == multiset(ds)[c]
    decreases |ls|
  {
    hide Occurrences, MatchSyms;
    if ls == [] {
      NoneIn(LitLenSym(c));
      NoneIn(DistSym(c));
    } else {
      var n := |ls| - 1;
      MatchesCount(ls[..n], ds[..n], c);
      MatchCounts(ls[n], ds[n], c);
      CountedBoth(Matches(ls[..n], ds[..n]), MatchSyms(ls[n], ds[n]), LitLenSym(c));
      CountedBoth(Matches(ls[..n], ds[..n]), MatchSyms(ls[n], ds[n]), DistSym(c));
      assert ls == ls[..n] + [ls[n]] && ds == ds[..n] + [ds[n]];
    }
  }

  /** How far back the farthest distance code reaches at least. */
  const FAR: nat := 24577

  lemma OneMatch(p: Player, l: nat, d: nat)
    requires p.mode.AtSym? && |p.hist| >= FAR && 257 <= l < 286 && d < 30
    ensures var ss := MatchSyms(l, d); Playable(p, ss) && Played(p, ss).mode.AtSym? && |Played(p, ss).hist| >= FAR
  {
    assert |LENCODES| == 29 && |DISTCODES| == 30;
    var r, q := LENCODES[l - 257], DISTCODES[d];
    LengthRange(l - 257);
    DistanceRange(d);
    LengthFits(p, l - 257, r.min);
    NothingPlayed(p);
    hide LENCODES, DISTCODES, Fits, After, Playable, Played, Pow2;
    PlayOne(p, [], LitLenSym(l));
    var a := [LitLenSym(l)] + if r.extrabits > 0 then [ExtraBits(0, r.extrabits)] else [];
    assert [] + [LitLenSym(l)] == [LitLenSym(l)];
    if r.extrabits > 0 {
      PlayOne(p, [LitLenSym(l)], ExtraBits(0, r.extrabits));
    } else {
      assert a == [LitLenSym(l)];
    }
    DistanceFits(Played(p, a), d, q.min);
    PlayOne(p, a, DistSym(d));
    if q.extrabits > 0 {
      PlayOne(p, a + [DistSym(d)], ExtraBits(0, q.extrabits));
      assert MatchSyms(l, d) == (a + [DistSym(d)]) + [ExtraBits(0, q.extrabits)];
    } else {
      assert MatchSyms(l, d) == a + [DistSym(d)];
    }
  }

  lemma LengthRange(k: nat)
    requires k < 29
    ensures |LENCODES| == 29 && LENCODES[k].min <= LENCODES[k].max && LENCODES[k].code == 257 + k
  {
  }

  lemma DistanceRange(d: nat)
    requires d < 30
    ensures |DISTCODES| == 30 && 1 <= DISTCODES[d].min <= DISTCODES[d].max && DISTCODES[d].min <= FAR <= Tokens.WINSIZE
    ensures DISTCODES[d].code == d
  {
  }

  lemma NothingPlayed(p: Player)
    ensures Playable(p, []) && Played(p, []) == p
  {
  }

  lemma {:induction false} MatchesPlay(p: Player, ls: seq<nat>, ds: seq<nat>)
    requires MatchCodes(ls, ds) && p.mode.AtSym? && |p.hist| >= FAR
    ensures var ss := Matches(ls, ds); Playable(p, ss) && Played(p, ss).mode.AtSym? && |Played(p, ss).hist| >= FAR
    decreases |ls|
  {
    hide MatchSyms;
    if ls == [] {
      NothingPlayed(p);
    } else {
      var n := |ls| - 1;
      hide Playable, Played, FAR;
      MatchesPlay(p, ls[..n], ds[..n]);
      var a, b := Matches(ls[..n], ds[..n]), MatchSyms(ls[n], ds[n]);
      OneMatch(Played(p, a), ls[n], ds[n]);
      PlayAppend(p, a, b);
    }
  }

  /** Codes from a first one on, each as often as its frequency says. */
  lemma {:induction false} Codes(fs: seq<int>, first: nat, n: nat) returns (cs: seq<nat>)
    requires first <= n <= |fs| && forall i :: 0 <= i < n ==> fs[i] >= 0
    ensures |cs| == DeflateHuffman.Sum(fs, n) - DeflateHuffman.Sum(fs, first)
    ensures forall c: nat :: multiset(cs)[c] == if first <= c < n then fs[c] else 0
    ensures forall i :: 0 <= i < |cs| ==> first <= cs[i] < n
    decreases n
  {
    if n == first {
      cs := [];
    } else {
      var less := Codes(fs, first, n - 1);
      cs := less + Copies(n - 1, fs[n - 1]);
    }
  }

  /** n times the code c. */
  function Copies(c: nat, n: nat): (s: seq<nat>)
    ensures |s| == n && multiset(s)[c] == n && forall b: nat :: b != c ==> multiset(s)[b] == 0
    ensures forall i :: 0 <= i < n ==> s[i] == c
  {
    if n == 0 then [] else Copies(c, n - 1) + [c]
  }

  /** The bytes and the codes of matches have these frequencies. */
  ghost predicate Supplied(data: seq<byte>, ls: seq<nat>, ds: seq<nat>, fs: seq<int>, gs: seq<int>) {
    && |fs| == 286 && |gs| == 30
    && (forall c: nat :: c < 256 ==> multiset(data)[c] == fs[c])
    && (forall c: nat :: multiset(ls)[c] == if 257 <= c < 286 then fs[c] else 0)
    && (forall c: nat :: multiset(ds)[c] == if c < 30 then gs[c] else 0)
  }

  /** There are such if there are as many match lengths as distances. */
  lemma Supply(fs: seq<int>, gs: seq<int>) returns (data: seq<byte>, ls: seq<nat>, ds: seq<nat>)
    requires |fs| == 286 && (forall i :: 0 <= i < 286 ==> fs[i] >= 0) && |gs| == 30 && forall i :: 0 <= i < 30 ==> gs[i] >= 0
    requires DeflateHuffman.Sum(fs, 286) - DeflateHuffman.Sum(fs, 257) == DeflateHuffman.Sum(gs, 30)
    ensures MatchCodes(ls, ds) && Supplied(data, ls, ds, fs, gs)
  {
    NoSum(gs);
    hide DeflateHuffman.Sum;
    data := NoTrees.Samples(fs, 256);
    ls := Codes(fs, 257, 286);
    ds := Codes(gs, 0, 30);
  }

  lemma Parts() returns (data: seq<byte>, ls: seq<nat>, ds: seq<nat>)
    ensures MatchCodes(ls, ds)
    ensures Supplied(data, ls, ds, Asking(Laid(LitRuns()), 9, 286), Asking(Laid(DistRuns()), 6, 30))
  {
    hide *;
    ByteSum();
    AskingNatural(Laid(LitRuns()), 9, 286);
    AskingNatural(Laid(DistRuns()), 6, 30);
    data, ls, ds := Supply(Asking(Laid(LitRuns()), 9, 286), Asking(Laid(DistRuns()), 6, 30));
  }

  lemma NoSum(fs: seq<int>)
    ensures DeflateHuffman.Sum(fs, 0) == 0
  {
  }

  lemma ByteSum()
    ensures DeflateHuffman.Sum(Asking(Laid(LitRuns()), 9, 286), 257) == 448
    ensures DeflateHuffman.Sum(Asking(Laid(LitRuns()), 9, 286), 286) == 512
    ensures DeflateHuffman.Sum(Asking(Laid(DistRuns()), 6, 30), 30) == 64
  {
    LitRunsAre();
    hide *;
    Sizes();
    Rooms();
    LaidSize(ByteRuns());
    LaidSize(LitRuns());
    LaidSize(DistRuns());
    LaidAppend(ByteRuns(), MatchRuns());
    AskingSum(LitRuns(), 9, 286);
    AskingSum(DistRuns(), 6, 30);
    FirstPart(Laid(ByteRuns()), Laid(MatchRuns()), 9, 286);
    SumLaid(Asking(Laid(LitRuns()), 9, 286), 0, ByteRuns(), 9);
    NoSum(Asking(Laid(LitRuns()), 9, 286));
  }

  lemma LitRunsAre()
    ensures LitRuns() == ByteRuns() + MatchRuns()
  {
  }

  lemma FirstPart(a: seq<CodeLen>, b: seq<CodeLen>, max: nat, n: nat)
    requires |a| + |b| <= n
    ensures forall j :: 0 <= j < |a| ==> Asking(a + b, max, n)[0 + j] == AskedFor(max, a[j])
  {
  }

  lemma EndsAsked()
    ensures |Laid(LitRuns())| == 286 && Asked(Laid(LitRuns()), 9, 256) == 1
  {
    LitRunsAre();
    Sizes();
    LitNeat();
    assert AskedFor(9, 9) == 1;
    hide ByteRuns, MatchRuns, LitRuns, DistRuns, Tally, AskedFor, Laid;
    LaidSize(LitRuns());
    LaidSize(ByteRuns());
    LaidAppend(ByteRuns(), MatchRuns());
    NoTrees.LaidLast(ByteRuns());
  }

  lemma CountsAre(data: seq<byte>, ls: seq<nat>, ds: seq<nat>, fs: seq<int>, gs: seq<int>)
    requires MatchCodes(ls, ds) && Supplied(data, ls, ds, fs, gs) && fs[EOB] == 1
    ensures var ss := Literals(data) + Matches(ls, ds); LitFreqs(ss) == fs && DistFreqs(ss) == gs
  {
    hide Matches, Literals, Occurrences;
    var ss := Literals(data) + Matches(ls, ds);
    forall c | 0 <= c < 286 ensures LitFreqs(ss)[c] == fs[c] {
      NoTrees.CountedLiterals(data, c);
      MatchesCount(ls, ds, c);
      CountedBoth(Literals(data), Matches(ls, ds), LitLenSym(c));
    }
    forall c | 0 <= c < 30 ensures DistFreqs(ss)[c] == gs[c] {
      NoTrees.CountedLiterals(data, c);
      MatchesCount(ls, ds, c);
      CountedBoth(Literals(data), Matches(ls, ds), DistSym(c));
    }
  }

  lemma AskedAtEnd()
    ensures EOB < 286 && Asking(Laid(LitRuns()), 9, 286)[EOB] == 1
  {
    EndsAsked();
    assert EOB == 256;
    hide Laid, LitRuns, Asked;
  }

  lemma AsksIf(data: seq<byte>, ls: seq<nat>, ds: seq<nat>)
    requires MatchCodes(ls, ds) && Supplied(data, ls, ds, Asking(Laid(LitRuns()), 9, 286), Asking(Laid(DistRuns()), 6, 30))
    ensures Asks(Literals(data) + Matches(ls, ds))
  {
    AskedAtEnd();
    CountsAre(data, ls, ds, Asking(Laid(LitRuns()), 9, 286), Asking(Laid(DistRuns()), 6, 30));
    hide Laid, LitRuns, DistRuns, Asking, LitFreqs, DistFreqs, Matches, Literals, Supplied;
  }

  /** There are such symbols: literals and 64 matches, behind bytes enough for every distance. */
  lemma SuchSymbols() returns (before: seq<byte>, ss: seq<Sym>)
    ensures Playable(Player(before, AtSym), ss) && Played(Player(before, AtSym), ss).mode.AtSym?
    ensures |Spelling(SentLens(ss), 0)| == 316 && !Plannable(ss)
  {
    var data, ls, ds := Parts();
    AsksIf(data, ls, ds);
    before, ss := seq(FAR, _ => 0), Literals(data) + Matches(ls, ds);
    assert |before + data| >= FAR;
    hide *;
    NothingAbridged(ss);
    LiteralsPlay(before, data);
    MatchesPlay(Player(before + data, Mode.AtSym), ls, ds);
    PlayAppend(Player(before, Mode.AtSym), Literals(data), Matches(ls, ds));
  }
}

/** Literals that have no trees: 511 bytes, in any order, of 34 values. Their frequencies
    are the powers of two that a complete code asks for; how its lengths are spelt out gives
    the code-length symbols just the frequencies that deflate_buildhuf cannot limit. */
module NoTrees {
  import opened Bits
  import opened Canonical
  import opened Inflate
  import opened Symbols
  import opened CodeLengths
  import opened BlockTrees
  import opened Runs
  import Huffman
  import DeflateHuffman
  import Unlimited

  // ---- The symbols sent for one run

  lemma {:induction false} SentLiterally(v: CodeLen, k: nat, c: nat)
    ensures Occurrences(OneByOne(v, k), CodeLenSym(c)) == if c == v then k else 0
  {
    if k > 0 {
      SentLiterally(v, k - 1, c);
    }
  }

  /** One to three equal lengths. */
  lemma SentFew(v: CodeLen, k: nat, c: nat)
    requires 0 < k <= 3 && (v == 0 ==> k < 3)
    ensures Weigh(Sent(c), (v, k)) == if c == v then k else 0
  {
    SentLiterally(v, 1, c);
    SentLiterally(v, k - 1, c);
    SentLiterally(v, k, c);
    if v != 0 {
      CountedBoth(OneByOne(v, 1), OneByOne(v, k - 1), CodeLenSym(c));
    }
  }

  /** Three zeros and more, as one symbol. */
  lemma SentGap(k: nat, c: nat)
    requires 3 <= k <= 138
    ensures Weigh(Sent(c), (0, k)) == if c == (if k < 11 then 17 else 18) then 1 else 0
  {
    var s := if k < 11 then [CodeLenSym(17), ExtraBits(k - 3, 3)] else [CodeLenSym(18), ExtraBits(k - 11, 7)];
    assert ZeroPieces(0) == [] && Piece(k, 138) == k;
    assert RunOf(0, k) == s + [] == s;
    TwoSyms(s, CodeLenSym(c));
  }

  lemma TwoSyms(ss: seq<Sym>, s: Sym)
    requires |ss| == 2 && ss[1] != s
    ensures Occurrences(ss, s) == if ss[0] == s then 1 else 0
  {
    CountedIn(ss, s);
    assert ss == [ss[0], ss[1]];
  }

  /** Four equal lengths: one and a repetition. */
  lemma SentFour(v: CodeLen, c: nat)
    requires v != 0
    ensures Weigh(Sent(c), (v, 4)) == (if c == v then 1 else 0) + if c == 16 then 1 else 0
  {
    var s := [CodeLenSym(16), ExtraBits(0, 2)];
    assert RunPieces(0) == [] && Piece(3, 6) == 3;
    assert RunPieces(3) == s + [] == s;
    SentLiterally(v, 1, c);
    TwoSyms(s, CodeLenSym(c));
    CountedBoth(OneByOne(v, 1), s, CodeLenSym(c));
  }

  // ---- The lengths in question

  /** Equal lengths and the zeros behind them. */
  function Pair(v: CodeLen, k: nat, zeros: nat): seq<Run> {
    [(v, k), (0, zeros)]
  }

  /** Literals and the end of the block. */
  function LitRuns(): seq<Run> {
    Times(7, Pair(6, 1, 1)) + (Times(7, Pair(6, 2, 10)) + (Times(2, Pair(4, 2, 10)) +
    (Pair(4, 1, 10) + (Pair(5, 2, 10) + (Pair(5, 1, 10) + (Pair(2, 1, 10) + (Pair(7, 1, 85) + [(9, 4)])))))))
  }

  /** And the one distance length, a zero. */
  function SentRuns(): seq<Run> {
    LitRuns() + [(0, 1)]
  }

  function WeighPair(m: Measure, v: CodeLen, k: nat, zeros: nat): nat {
    Weigh(m, (v, k)) + Weigh(m, (0, zeros))
  }

  lemma TallyPair(m: Measure, v: CodeLen, k: nat, zeros: nat)
    ensures Tally(m, Pair(v, k, zeros)) == WeighPair(m, v, k, zeros)
  {
    TallyTwo(m, (v, k), (0, zeros));
    hide Weigh, Tally;
  }

  lemma TallyPairs(m: Measure, n: nat, v: CodeLen, k: nat, zeros: nat, rs: seq<Run>)
    ensures Tally(m, Times(n, Pair(v, k, zeros)) + rs) == n * WeighPair(m, v, k, zeros) + Tally(m, rs)
  {
    hide *;
    TallyPair(m, v, k, zeros);
    TallyTimesThen(m, n, Pair(v, k, zeros), rs);
  }

  lemma TallyThen(m: Measure, v: CodeLen, k: nat, zeros: nat, rs: seq<Run>)
    ensures Tally(m, Pair(v, k, zeros) + rs) == WeighPair(m, v, k, zeros) + Tally(m, rs)
  {
    hide *;
    TallyPair(m, v, k, zeros);
    TallyAppend(m, Pair(v, k, zeros), rs);
  }

  lemma TallyAll(m: Measure)
    ensures Tally(m, LitRuns()) ==
      7 * WeighPair(m, 6, 1, 1) + 7 * WeighPair(m, 6, 2, 10) + 2 * WeighPair(m, 4, 2, 10) + WeighPair(m, 4, 1, 10)
      + WeighPair(m, 5, 2, 10) + WeighPair(m, 5, 1, 10) + WeighPair(m, 2, 1, 10) + WeighPair(m, 7, 1, 85) + Weigh(m, (9, 4))
  {
    hide Times, Pair, WeighPair, Weigh, Tally;
    TallyOne(m, (9, 4));
    TallyThen(m, 7, 1, 85, [(9, 4)]);
    var r4 := Pair(7, 1, 85) + [(9, 4)];
    TallyThen(m, 2, 1, 10, r4);
    var r5 := Pair(2, 1, 10) + r4;
    TallyThen(m, 5, 1, 10, r5);
    var r6 := Pair(5, 1, 10) + r5;
    TallyThen(m, 5, 2, 10, r6);
    var r7 := Pair(5, 2, 10) + r6;
    TallyThen(m, 4, 1, 10, r7);
    var r8 := Pair(4, 1, 10) + r7;
    TallyPairs(m, 2, 4, 2, 10, r8);
    var r9 := Times(2, Pair(4, 2, 10)) + r8;
    TallyPairs(m, 7, 6, 2, 10, r9);
    TallyPairs(m, 7, 6, 1, 1, Times(7, Pair(6, 2, 10)) + r9);
  }

  /** 257 lengths that fill the code space. */
  lemma SizeAndRoom()
    ensures Tally(Size, LitRuns()) == 257 && Tally(Room(9), LitRuns()) == 512
  {
    TallyAll(Size);
    TallyAll(Room(9));
    assert Pow2(0) == 1 && Pow2(2) == 4 && Pow2(3) == 8 && Pow2(4) == 16 && Pow2(5) == 32 && Pow2(7) == 128;
    hide LitRuns, Tally, Pow2;
  }

  /** The code-length symbols in use. */
  const LENGTHS_USED: Unlimited.Labels := [0, 2, 4, 5, 6, 7, 9, 16, 17, 18]

  function Is(c: nat, v: nat): nat {
    if c == v then 1 else 0
  }

  lemma SentPair(v: CodeLen, k: nat, zeros: nat, c: nat)
    requires v != 0 && 0 < k <= 3 && (zeros == 1 || 3 <= zeros <= 138)
    ensures WeighPair(Sent(c), v, k, zeros) ==
      k * Is(c, v) + Is(c, if zeros == 1 then 0 else if zeros < 11 then 17 else 18)
  {
    SentFew(v, k, c);
    if zeros == 1 {
      SentFew(0, 1, c);
    } else {
      SentGap(zeros, c);
    }
    hide Weigh;
  }

  lemma SentInPairs(c: nat)
    ensures var m := Sent(c);
      && 7 * WeighPair(m, 6, 1, 1) + 7 * WeighPair(m, 6, 2, 10) == 21 * Is(c, 6) + 7 * Is(c, 0) + 7 * Is(c, 17)
      && 2 * WeighPair(m, 4, 2, 10) + WeighPair(m, 4, 1, 10) == 5 * Is(c, 4) + 3 * Is(c, 17)
      && WeighPair(m, 5, 2, 10) + WeighPair(m, 5, 1, 10) == 3 * Is(c, 5) + 2 * Is(c, 17)
      && WeighPair(m, 2, 1, 10) + WeighPair(m, 7, 1, 85) == Is(c, 2) + Is(c, 17) + Is(c, 7) + Is(c, 18)
  {
    hide *;
    SentPair(6, 1, 1, c);
    SentPair(6, 2, 10, c);
    SentPair(4, 2, 10, c);
    SentPair(4, 1, 10, c);
    SentPair(5, 2, 10, c);
    SentPair(5, 1, 10, c);
    SentPair(2, 1, 10, c);
    SentPair(7, 1, 85, c);
  }

  lemma LitSent(c: nat)
    ensures Tally(Sent(c), LitRuns()) ==
      7 * Is(c, 0) + Is(c, 2) + 5 * Is(c, 4) + 3 * Is(c, 5) + 21 * Is(c, 6) + Is(c, 7) + Is(c, 9) + Is(c, 16) + 13 * Is(c, 17) + Is(c, 18)
  {
    hide *;
    TallyAll(Sent(c));
    SentInPairs(c);
    SentLast(c);
  }

  lemma SentCount(c: nat)
    requires c < 19
    ensures Tally(Sent(c), SentRuns()) == Unlimited.FreqAt(LENGTHS_USED, c)
  {
    UsedFreqs(c);
    SentRunsAre();
    hide *;
    LitSent(c);
    TallyAppend(Sent(c), LitRuns(), [(0, 1)]);
    TallyOne(Sent(c), (0, 1));
    SentLast(c);
  }

  lemma SentRunsAre()
    ensures SentRuns() == LitRuns() + [(0, 1)]
  {
  }

  lemma UsedFreqs(c: nat)
    requires c < 19
    ensures Unlimited.FreqAt(LENGTHS_USED, c) ==
      8 * Is(c, 0) + Is(c, 2) + 5 * Is(c, 4) + 3 * Is(c, 5) + 21 * Is(c, 6) + Is(c, 7) + Is(c, 9) + Is(c, 16) + 13 * Is(c, 17) + Is(c, 18)
  {
  }

  lemma SentLast(c: nat)
    ensures Weigh(Sent(c), (0, 1)) == Is(c, 0) && Weigh(Sent(c), (9, 4)) == Is(c, 9) + Is(c, 16)
  {
    SentFew(0, 1, c);
    SentFour(9, c);
    hide Weigh;
  }

  /** What is sent for the code lengths has the frequencies that cannot be limited. */
  lemma SentFreqs()
    ensures LenFreqs(Spelt(SentRuns())) == Unlimited.FreqsAt(LENGTHS_USED)
  {
    hide SentRuns, Spelt, Occurrences, Tally, Unlimited.FreqAt;
    forall c | 0 <= c < 19 ensures LenFreqs(Spelt(SentRuns()))[c] == Unlimited.FreqsAt(LENGTHS_USED)[c] {
      SentTally(SentRuns(), c);
      SentCount(c);
    }
  }

  lemma PairNeat(v: CodeLen, k: nat, zeros: nat)
    requires 0 < v <= 9 && k > 0 && zeros > 0
    ensures Neat(Pair(v, k, zeros), v, 0)
  {
  }

  lemma PairFirst(v: CodeLen, k: nat, zeros: nat, x: CodeLen, rs: seq<Run>)
    requires 0 < v <= 9 && k > 0 && zeros > 0 && x > 0 && Neat(rs, x, 9)
    ensures Neat(Pair(v, k, zeros) + rs, v, 9)
  {
    hide *;
    PairNeat(v, k, zeros);
    Joined(Pair(v, k, zeros), v, 0, x, rs, 9);
  }

  lemma PairsFirst(n: nat, v: CodeLen, k: nat, zeros: nat, x: CodeLen, rs: seq<Run>)
    requires n > 0 && 0 < v <= 9 && k > 0 && zeros > 0 && x > 0 && Neat(rs, x, 9)
    ensures Neat(Times(n, Pair(v, k, zeros)) + rs, v, 9)
  {
    hide *;
    PairNeat(v, k, zeros);
    NeatTimes(n, Pair(v, k, zeros), v, 0);
    Joined(Times(n, Pair(v, k, zeros)), v, 0, x, rs, 9);
  }

  lemma LitNeat()
    ensures Neat(LitRuns(), 6, 9)
  {
    assert Neat([(9, 4)], 9, 9);
    hide Neat, Pair, Times;
    PairFirst(7, 1, 85, 9, [(9, 4)]);
    var r4 := Pair(7, 1, 85) + [(9, 4)];
    PairFirst(2, 1, 10, 7, r4);
    PairFirst(5, 1, 10, 2, Pair(2, 1, 10) + r4);
    var r6 := Pair(5, 1, 10) + (Pair(2, 1, 10) + r4);
    PairFirst(5, 2, 10, 5, r6);
    PairFirst(4, 1, 10, 5, Pair(5, 2, 10) + r6);
    var r8 := Pair(4, 1, 10) + (Pair(5, 2, 10) + r6);
    PairsFirst(2, 4, 2, 10, 4, r8);
    PairsFirst(7, 6, 2, 10, 4, Times(2, Pair(4, 2, 10)) + r8);
    PairsFirst(7, 6, 1, 1, 6, Times(7, Pair(6, 2, 10)) + (Times(2, Pair(4, 2, 10)) + r8));
  }

  lemma SentNeat()
    ensures Neat(SentRuns(), 6, 0)
  {
    LitNeat();
    SentRunsAre();
    assert Neat([(0, 1)], 0, 0);
    hide Neat, LitRuns, SentRuns;
    Joined(LitRuns(), 6, 9, 0, [(0, 1)], 0);
  }

  lemma NeatIs(rs: seq<Run>, first: CodeLen, last: CodeLen)
    requires Neat(rs, first, last)
    ensures Apart(rs) && forall i :: 0 <= i < |rs| ==> rs[i].0 <= 9
  {
  }

  // ---- The lengths they get

  function Lens(): seq<CodeLen> {
    Laid(LitRuns())
  }

  lemma LensAre()
    ensures Lens() == Laid(LitRuns())
  {
  }

  lemma FullSpace()
    ensures Pow2(9) == 512
  {
    assert Pow2(3) == 8;
  }

  lemma LitLens()
    ensures |Lens()| == 257 && LensFor(Asking(Lens(), 9, 286), 286, 15) == Lens() + Repeat(0, 29)
    ensures DeflateHuffman.Sum(Asking(Lens(), 9, 286), 257) == 512
  {
    LensAre();
    hide *;
    FullSpace();
    SizeAndRoom();
    LaidSize(LitRuns());
    LitNeat();
    NeatIs(LitRuns(), 6, 9);
    Settled(LitRuns(), 9, 286);
    AskingSum(LitRuns(), 9, 286);
  }

  /** The last length is that of the end of the block. */
  lemma {:induction false} LaidLast(rs: seq<Run>)
    requires rs != [] && rs[|rs| - 1].1 > 0
    ensures Laid(rs) != [] && Laid(rs)[|Laid(rs)| - 1] == rs[|rs| - 1].0
    decreases |rs|
  {
    if |rs| > 1 {
      LaidLast(rs[1..]);
    } else {
      assert Laid(rs[1..]) == [];
    }
  }

  lemma EndsAsked()
    ensures |Lens()| == 257 && Asked(Lens(), 9, 256) == 1
  {
    LitLens();
    LitNeat();
    LensAre();
    assert AskedFor(9, 9) == 1;
    hide LitRuns, Lens, AskedFor;
    LaidLast(LitRuns());
  }

  function NoDistances(): (fs: seq<int>)
    ensures |fs| == 30 && forall i :: 0 <= i < 30 ==> fs[i] == 0
  {
    seq(30, _ => 0)
  }

  lemma {:induction false} NoneCounted(fs: seq<int>, n: nat)
    requires n <= |fs| && forall i :: 0 <= i < n ==> fs[i] == 0
    ensures DeflateHuffman.CountPositive(fs, n) == 0
  {
    if n > 0 {
      NoneCounted(fs, n - 1);
    }
  }

  /** Symbols that do not occur get no code. */
  lemma NoLength(i: nat)
    requires i < 30
    ensures Huffman.HufLength(NoDistances(), 30, i) == 0
  {
    var h, d := Huffman.HufIsHuffman(NoDistances(), 30);
    hide Huffman.HufLength;
    assert i !in Huffman.Active(NoDistances(), 30);
  }

  lemma DistLens()
    ensures LensFor(NoDistances(), 30, 15) == Repeat(0, 30)
  {
    NoneCounted(NoDistances(), 30);
    forall i | 0 <= i < 30 ensures Huffman.HufLength(NoDistances(), 30, i) == 0 {
      NoLength(i);
    }
    hide Huffman.HufLength, DeflateHuffman.CountPositive, NoDistances;
    LensThatFit(NoDistances(), 30, Repeat(0, 30));
  }

  lemma {:induction false} NoneSent(ls: seq<CodeLen>, n: nat, least: nat)
    requires least <= n <= |ls| && forall i :: least <= i < n ==> ls[i] == 0
    ensures SentOf(ls, n, least) == least
    decreases n
  {
    if n > least {
      NoneSent(ls, n - 1, least);
    }
  }

  // ---- The bytes

  /** Each byte value occurs as often as its length asks for. */
  ghost predicate Asks(data: seq<byte>) {
    forall c: nat :: c < 256 ==> multiset(data)[c] == Asked(Lens(), 9, c)
  }

  lemma {:induction false} CountedLiterals(data: seq<byte>, c: nat)
    ensures Occurrences(Literals(data), LitLenSym(c)) == if c < 256 then multiset(data)[c] else 0
    ensures Occurrences(Literals(data), DistSym(c)) == 0
  {
    if data != [] {
      var n := |data| - 1;
      CountedLiterals(data[..n], c);
      assert data == data[..n] + [data[n]];
    }
  }

  lemma LiteralFreqs(data: seq<byte>, fs: seq<int>)
    requires |fs| == 286 && (forall c: nat :: c < 256 ==> multiset(data)[c] == fs[c])
    requires fs[EOB] == 1 && forall c :: 256 < c < 286 ==> fs[c] == 0
    ensures LitFreqs(Literals(data)) == fs && DistFreqs(Literals(data)) == NoDistances()
  {
    assert EOB == 256;
    hide Occurrences, Literals;
    forall c | 0 <= c < 286 ensures LitFreqs(Literals(data))[c] == fs[c] {
      CountedLiterals(data, c);
    }
    forall c | 0 <= c < 30 ensures DistFreqs(Literals(data))[c] == 0 {
      CountedLiterals(data, c);
    }
  }

  lemma FreqsAre(data: seq<byte>)
    requires Asks(data)
    ensures LitFreqs(Literals(data)) == Asking(Lens(), 9, 286) && DistFreqs(Literals(data)) == NoDistances()
  {
    EndsAsked();
    assert EOB == 256;
    hide Lens, AskedFor, LitFreqs, DistFreqs, Literals;
    LiteralFreqs(data, Asking(Lens(), 9, 286));
  }

  lemma SentLensAre(data: seq<byte>)
    requires Asks(data)
    ensures SentLens(Literals(data)) == Laid(SentRuns())
  {
    SentRunsAre();
    LensAre();
    hide *;
    FreqsAre(data);
    LitLens();
    DistLens();
    LaidAppend(LitRuns(), [(0, 1)]);
    OneZero();
    LitTrimmed(Lens());
    DistTrimmed();
    BlockTrees.SentAre(Literals(data), Lens() + Repeat(0, 29), Repeat(0, 30), 257, 1);
  }

  lemma OneZero()
    ensures Laid([(0, 1)]) == [0]
  {
  }

  lemma LitTrimmed(ls: seq<CodeLen>)
    requires |ls| == 257
    ensures var all := ls + Repeat(0, 29); |all| == 286 && SentOf(all, 286, 257) == 257 && all[..257] == ls
  {
    NoneSent(ls + Repeat(0, 29), 286, 257);
  }

  lemma DistTrimmed()
    ensures var all := Repeat(0, 30); |all| == 30 && SentOf(all, 30, 1) == 1 && all[..1] == [0]
  {
    NoneSent(Repeat(0, 30), 30, 1);
  }

  /** Such bytes, sent as literals, have no trees: an assertion of the source fails. */
  lemma LiteralsWithoutTrees(data: seq<byte>)
    requires Asks(data)
    ensures !Plannable(Literals(data))
  {
    hide *;
    SentLensAre(data);
    SentNeat();
    NeatIs(SentRuns(), 6, 0);
    WholeSlice(Laid(SentRuns()));
    SpellingOfRuns(Laid(SentRuns()), 0, SentRuns());
    SentFreqs();
    LabelsRise();
    Unlimited.TheAssertionFails(LENGTHS_USED);
    PlannableIs(Literals(data));
  }

  lemma WholeSlice(s: seq<CodeLen>)
    ensures s[0..] == s
  {
  }

  lemma LabelsRise()
    ensures Unlimited.Rising(LENGTHS_USED)
  {
  }

  /** Bytes with the first n frequencies. */
  lemma {:induction false} Samples(fs: seq<int>, n: nat) returns (data: seq<byte>)
    requires n <= 256 && n <= |fs| && forall i :: 0 <= i < n ==> fs[i] >= 0
    ensures |data| == DeflateHuffman.Sum(fs, n)
    ensures forall c: nat :: c < 256 ==> multiset(data)[c] == if c < n then fs[c] else 0
  {
    if n == 0 {
      data := [];
    } else {
      var less := Samples(fs, n - 1);
      data := less + Copies(n - 1, fs[n - 1]);
    }
  }

  /** n times the byte c. */
  function Copies(c: byte, n: nat): (s: seq<byte>)
    ensures |s| == n && multiset(s)[c] == n && forall b: byte :: b != c ==> multiset(s)[b] == 0
  {
    if n == 0 then [] else Copies(c, n - 1) + [c]
  }
}

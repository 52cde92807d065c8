/** Code lengths given as runs: how they are spelt, what they add up to, and frequencies
    for which they are the lengths that come out. */
module Runs {
  import opened Bits
  import opened Canonical
  import opened Inflate
  import opened Symbols
  import opened CodeLengths
  import opened BlockTrees
  import Kraft
  import Huffman
  import HuffmanTheory
  import DeflateHuffman
  import Dyadic

  // ---- Code lengths as runs

  type Run = (CodeLen, nat)

  function Laid(rs: seq<Run>): seq<CodeLen> {
    if rs == [] then [] else Repeat(rs[0].0, rs[0].1) + Laid(rs[1..])
  }

  function Spelt(rs: seq<Run>): seq<Sym> {
    if rs == [] then [] else (if rs[0].1 > 0 then RunOf(rs[0].0, rs[0].1) else []) + Spelt(rs[1..])
  }

  /** The runs are as long as they can be. */
  predicate Apart(rs: seq<Run>) {
    forall i :: 0 <= i < |rs| ==> rs[i].1 > 0 && (i + 1 < |rs| ==> rs[i].0 != rs[i + 1].0)
  }

  lemma {:induction false} SpellingOfRuns(src: seq<CodeLen>, i: nat, rs: seq<Run>)
    requires i <= |src| && src[i..] == Laid(rs) && Apart(rs)
    ensures Spelling(src, i) == Spelt(rs)
    decreases |rs|
  {
    hide *;
    if rs != [] {
      LaidFirst(rs);
      FirstRun(src, i, rs[0].0, rs[0].1, Laid(rs[1..]));
      SpellingOfRuns(src, i + rs[0].1, rs[1..]);
      OneRunSpelt(src, i, rs);
    } else {
      NothingLaid(src, i);
    }
  }

  lemma NothingLaid(src: seq<CodeLen>, i: nat)
    requires i <= |src| && src[i..] == Laid([])
    ensures Spelling(src, i) == Spelt([])
  {
  }

  lemma LaidFirst(rs: seq<Run>)
    requires rs != [] && Apart(rs)
    ensures Laid(rs) == Repeat(rs[0].0, rs[0].1) + Laid(rs[1..]) && rs[0].1 > 0 && Apart(rs[1..])
    ensures Laid(rs[1..]) != [] ==> Laid(rs[1..])[0] != rs[0].0
  {
    assert forall j :: 0 <= j < |rs[1..]| ==> rs[1..][j] == rs[j + 1];
  }

  lemma FirstRun(src: seq<CodeLen>, i: nat, v: CodeLen, k: nat, rest: seq<CodeLen>)
    requires i <= |src| && k > 0 && src[i..] == Repeat(v, k) + rest && (rest != [] ==> rest[0] != v)
    ensures i + k <= |src| && src[i] == v && RunEnd(src, i, i + 1) == i + k && src[i + k..] == rest
  {
    assert forall j :: i <= j < |src| ==> src[j] == src[i..][j - i];
    assert src[i + k..] == src[i..][k..];
  }

  lemma OneRunSpelt(src: seq<CodeLen>, i: nat, rs: seq<Run>)
    requires rs != [] && rs[0].1 > 0 && i + rs[0].1 <= |src| && src[i] == rs[0].0 && RunEnd(src, i, i + 1) == i + rs[0].1
    requires Spelling(src, i + rs[0].1) == Spelt(rs[1..])
    ensures Spelling(src, i) == Spelt(rs)
  {
    hide RunOf, RunEnd;
  }

  // ---- What runs add up to

  /** The number of lengths, what their symbols take of a code space of 2^max, how often a
      code-length symbol is sent for them, and how many symbols are. */
  datatype Measure = Size | Room(max: nat) | Sent(code: nat) | Spelled

  /** What a symbol of length l takes of a code space of 2^max. */
  function AskedFor(max: nat, l: CodeLen): nat {
    if 0 < l <= max then Pow2(max - l) else 0
  }

  function Weigh(m: Measure, r: Run): nat {
    match m
    case Size => r.1
    case Room(max) => r.1 * AskedFor(max, r.0)
    case Sent(c) => if r.1 > 0 then Occurrences(RunOf(r.0, r.1), CodeLenSym(c)) else 0
    case Spelled => if r.1 > 0 then |RunOf(r.0, r.1)| else 0
  }

  function Tally(m: Measure, rs: seq<Run>): nat {
    if rs == [] then 0 else Weigh(m, rs[0]) + Tally(m, rs[1..])
  }

  function Times(n: nat, rs: seq<Run>): seq<Run> {
    if n == 0 then [] else rs + Times(n - 1, rs)
  }

  lemma {:induction false} TallyAppend(m: Measure, a: seq<Run>, b: seq<Run>)
    ensures Tally(m, a + b) == Tally(m, a) + Tally(m, b)
  {
    hide Weigh;
    if a == [] {
      assert a + b == b;
    } else {
      assert (a + b)[1..] == a[1..] + b;
      TallyAppend(m, a[1..], b);
    }
  }

  lemma {:induction false} TallyTimes(m: Measure, n: nat, rs: seq<Run>)
    ensures Tally(m, Times(n, rs)) == n * Tally(m, rs)
  {
    hide Weigh, Tally;
    if n == 0 {
      assert Tally(m, []) == 0 by { NoTally(m); }
    } else {
      TallyTimes(m, n - 1, rs);
      TallyAppend(m, rs, Times(n - 1, rs));
      OnceMore(n - 1, Tally(m, rs));
    }
  }

  lemma NoTally(m: Measure)
    ensures Tally(m, []) == 0
  {
  }

  lemma {:induction false} CountedIn(ss: seq<Sym>, s: Sym)
    ensures Occurrences(ss, s) == multiset(ss)[s]
  {
    if ss != [] {
      var n := |ss| - 1;
      CountedIn(ss[..n], s);
      assert ss == ss[..n] + [ss[n]];
    }
  }

  lemma CountedBoth(a: seq<Sym>, b: seq<Sym>, s: Sym)
    ensures Occurrences(a + b, s) == Occurrences(a, s) + Occurrences(b, s)
  {
    CountedIn(a, s);
    CountedIn(b, s);
    CountedIn(a + b, s);
  }

  lemma {:induction false} SentTally(rs: seq<Run>, c: nat)
    ensures Occurrences(Spelt(rs), CodeLenSym(c)) == Tally(Sent(c), rs)
  {
    hide RunOf, Occurrences;
    if rs == [] {
      NoneIn(CodeLenSym(c));
    } else {
      SentTally(rs[1..], c);
      NoneIn(CodeLenSym(c));
      CountedBoth(if rs[0].1 > 0 then RunOf(rs[0].0, rs[0].1) else [], Spelt(rs[1..]), CodeLenSym(c));
    }
  }

  lemma NoneIn(s: Sym)
    ensures Occurrences([], s) == 0
  {
  }

  lemma {:induction false} SpelledTally(rs: seq<Run>)
    ensures |Spelt(rs)| == Tally(Spelled, rs)
  {
    hide RunOf;
    if rs != [] {
      SpelledTally(rs[1..]);
    }
  }

  lemma {:induction false} LaidSize(rs: seq<Run>)
    ensures |Laid(rs)| == Tally(Size, rs)
  {
    if rs != [] {
      LaidSize(rs[1..]);
    }
  }

  lemma {:induction false} LaidAppend(a: seq<Run>, b: seq<Run>)
    ensures Laid(a + b) == Laid(a) + Laid(b)
  {
    if a == [] {
      assert a + b == b;
    } else {
      assert (a + b)[1..] == a[1..] + b;
      LaidAppend(a[1..], b);
    }
  }

  lemma TallyOne(m: Measure, r: Run)
    ensures Tally(m, [r]) == Weigh(m, r)
  {
  }

  lemma TallyTwo(m: Measure, a: Run, b: Run)
    ensures Tally(m, [a, b]) == Weigh(m, a) + Weigh(m, b)
  {
    hide Weigh;
    assert [a, b][1..] == [b];
    TallyOne(m, b);
  }

  lemma TallyThree(m: Measure, a: Run, b: Run, c: Run)
    ensures Tally(m, [a, b, c]) == Weigh(m, a) + Weigh(m, b) + Weigh(m, c)
  {
    hide Weigh;
    assert [a, b, c][1..] == [b, c];
    TallyTwo(m, b, c);
  }

  lemma TallyTimesThen(m: Measure, n: nat, p: seq<Run>, rs: seq<Run>)
    ensures Tally(m, Times(n, p) + rs) == n * Tally(m, p) + Tally(m, rs)
  {
    hide *;
    TallyTimes(m, n, p);
    TallyAppend(m, Times(n, p), rs);
  }

  // ---- Runs put together

  /** Runs as long as they can be, of lengths up to 9; first and last are those at the ends. */
  predicate Neat(rs: seq<Run>, first: CodeLen, last: CodeLen) {
    && rs != [] && Apart(rs) && rs[0].0 == first && rs[|rs| - 1].0 == last
    && forall i :: 0 <= i < |rs| ==> rs[i].0 <= 9
  }

  lemma Joined(a: seq<Run>, first: CodeLen, x: CodeLen, y: CodeLen, b: seq<Run>, last: CodeLen)
    requires Neat(a, first, x) && Neat(b, y, last) && x != y
    ensures Neat(a + b, first, last)
  {
    var all := a + b;
    forall i | 0 <= i < |all| ensures all[i].1 > 0 && all[i].0 <= 9 && (i + 1 < |all| ==> all[i].0 != all[i + 1].0) {
      if i < |a| {
        assert all[i] == a[i];
      } else {
        assert all[i] == b[i - |a|];
      }
    }
  }

  lemma {:induction false} NeatTimes(n: nat, p: seq<Run>, first: CodeLen, last: CodeLen)
    requires n > 0 && Neat(p, first, last) && first != last
    ensures Neat(Times(n, p), first, last)
  {
    hide Neat;
    if n == 1 {
      assert Times(1, p) == p + Times(0, p) == p;
    } else {
      NeatTimes(n - 1, p, first, last);
      Joined(p, first, last, first, Times(n - 1, p), last);
    }
  }

  lemma {:induction false} LaidAtMost(rs: seq<Run>, max: nat)
    requires forall i :: 0 <= i < |rs| ==> rs[i].0 <= max
    ensures forall i :: 0 <= i < |Laid(rs)| ==> Laid(rs)[i] <= max
    decreases |rs|
  {
    if rs != [] {
      LaidAtMost(rs[1..], max);
    }
  }

  // ---- Frequencies that ask for given lengths

  /** What symbol c has to weigh to get the length that ls says. */
  function Asked(ls: seq<CodeLen>, max: nat, c: nat): nat {
    if c < |ls| then AskedFor(max, ls[c]) else 0
  }

  function Asking(ls: seq<CodeLen>, max: nat, n: nat): (fs: seq<int>)
    ensures |fs| == n
  {
    seq(n, c requires 0 <= c < n => Asked(ls, max, c))
  }

  lemma {:induction false} SumSame(fs: seq<int>, i: nat, k: nat, x: int)
    requires i + k <= |fs| && forall j :: i <= j < i + k ==> fs[j] == x
    ensures DeflateHuffman.Sum(fs, i + k) == DeflateHuffman.Sum(fs, i) + k * x
  {
    if k > 0 {
      SumSame(fs, i, k - 1, x);
      OnceMoreOf(k - 1, x);
    }
  }

  lemma OnceMoreOf(n: int, p: int)
    ensures (n + 1) * p == n * p + p
  {
  }

  lemma {:induction false} SumLaid(fs: seq<int>, i: nat, rs: seq<Run>, max: nat)
    requires i + |Laid(rs)| <= |fs| && forall j :: 0 <= j < |Laid(rs)| ==> fs[i + j] == AskedFor(max, Laid(rs)[j])
    ensures DeflateHuffman.Sum(fs, i + |Laid(rs)|) == DeflateHuffman.Sum(fs, i) + Tally(Room(max), rs)
    decreases |rs|
  {
    hide AskedFor;
    if rs != [] {
      var v, k, rest := rs[0].0, rs[0].1, rs[1..];
      assert Laid(rs) == Repeat(v, k) + Laid(rest);
      forall j | i <= j < i + k ensures fs[j] == AskedFor(max, v) {
        assert fs[i + (j - i)] == AskedFor(max, Laid(rs)[j - i]);
      }
      forall j | 0 <= j < |Laid(rest)| ensures fs[i + k + j] == AskedFor(max, Laid(rest)[j]) {
        assert fs[i + (k + j)] == AskedFor(max, Laid(rs)[k + j]);
      }
      SumSame(fs, i, k, AskedFor(max, v));
      SumLaid(fs, i + k, rest, max);
    }
  }

  lemma AskingSum(rs: seq<Run>, max: nat, n: nat)
    requires |Laid(rs)| <= n
    ensures DeflateHuffman.Sum(Asking(Laid(rs), max, n), n) == Tally(Room(max), rs)
    ensures DeflateHuffman.Sum(Asking(Laid(rs), max, n), |Laid(rs)|) == Tally(Room(max), rs)
  {
    hide AskedFor, Tally;
    var fs, ls := Asking(Laid(rs), max, n), Laid(rs);
    SumLaid(fs, 0, rs, max);
    SumSame(fs, |ls|, n - |ls|, 0);
  }

  lemma {:induction false} SumBound(fs: seq<int>, n: nat, most: nat)
    requires n <= |fs| && forall i :: 0 <= i < n ==> 0 <= fs[i] <= most
    ensures DeflateHuffman.Sum(fs, n) <= DeflateHuffman.CountPositive(fs, n) * most
  {
    if n > 0 {
      SumBound(fs, n - 1, most);
      OnceMoreOf(DeflateHuffman.CountPositive(fs, n - 1), most);
    }
  }

  lemma {:induction false} PowGrows(a: nat, b: nat)
    requires a <= b
    ensures Pow2(a) <= Pow2(b)
  {
    if a < b {
      PowGrows(a, b - 1);
    }
  }

  /** A code space is not filled by one symbol: nothing is invented. */
  lemma NothingInvented(fs: seq<int>, n: nat, max: nat)
    requires n <= |fs| && max > 0 && DeflateHuffman.Sum(fs, n) == Pow2(max)
    requires forall i :: 0 <= i < n ==> 0 <= fs[i] <= Pow2(max - 1)
    ensures DeflateHuffman.Invented(fs, n) == fs
  {
    assert Pow2(max) == 2 * Pow2(max - 1);
    hide Pow2, DeflateHuffman.Sum, DeflateHuffman.CountPositive;
    SumBound(fs, n, Pow2(max - 1));
  }

  lemma AskedBound(max: nat, l: CodeLen)
    requires max > 0
    ensures 0 <= AskedFor(max, l) <= Pow2(max - 1)
  {
    hide Pow2;
    if 0 < l <= max {
      PowGrows(max - l, max - 1);
    }
  }

  /** The lengths wanted by the symbols that occur. */
  ghost function Wanted(ls: seq<CodeLen>, max: nat, n: nat): Kraft.Lengths {
    map i | 0 <= i < n && Asking(ls, max, n)[i] > 0 :: if i < |ls| then ls[i] else 0
  }

  lemma AskingWants(ls: seq<CodeLen>, max: nat, n: nat)
    ensures Dyadic.Wants(Huffman.Active(Asking(ls, max, n), n), Wanted(ls, max, n), max)
  {
  }

  lemma WantedWritten(ls: seq<CodeLen>, max: nat, n: nat, i: nat)
    requires i < n && forall j :: 0 <= j < |ls| ==> ls[j] <= max
    ensures Huffman.WrittenLength(Wanted(ls, max, n), i) == if i < |ls| then ls[i] else 0
  {
  }

  lemma SumIsTotal(fs: seq<int>, n: nat)
    requires n <= |fs| && forall i :: 0 <= i < n ==> fs[i] >= 0
    ensures DeflateHuffman.Sum(fs, n) == Kraft.Total(Huffman.Active(fs, n))
  {
    DeflateHuffman.Surveyed(fs, n);
  }

  lemma Enough()
    ensures HuffmanTheory.HUFMAX == 286
  {
  }

  lemma AskingNatural(ls: seq<CodeLen>, max: nat, n: nat)
    ensures forall i :: 0 <= i < n ==> Asking(ls, max, n)[i] >= 0
    ensures max > 0 ==> forall i :: 0 <= i < n ==> Asking(ls, max, n)[i] <= Pow2(max - 1)
  {
    if max > 0 {
      forall i | 0 <= i < n ensures Asking(ls, max, n)[i] <= Pow2(max - 1) {
        if i < |ls| {
          AskedBound(max, ls[i]);
        }
      }
    }
  }

  lemma LengthIs(ls: seq<CodeLen>, max: nat, n: nat, i: nat)
    requires i < n <= 286 && max <= 15 && DeflateHuffman.Sum(Asking(ls, max, n), n) == Pow2(max)
    requires forall j :: 0 <= j < |ls| ==> ls[j] <= max
    ensures Huffman.HufLength(Asking(ls, max, n), n, i) == if i < |ls| then ls[i] else 0
  {
    Enough();
    hide *;
    var h, d := Huffman.HufIsHuffman(Asking(ls, max, n), n);
    AskingNatural(ls, max, n);
    SumIsTotal(Asking(ls, max, n), n);
    AskingWants(ls, max, n);
    Dyadic.WantedIsHuffman(Huffman.Active(Asking(ls, max, n), n), Wanted(ls, max, n), d, max);
    WantedWritten(ls, max, n, i);
  }

  lemma LensThatFit(fs: seq<int>, n: nat, ls: seq<CodeLen>)
    requires n <= |fs| && n <= 286 && DeflateHuffman.Invented(fs, n) == fs && |ls| == n
    requires forall i :: 0 <= i < n ==> Huffman.HufLength(fs, n, i) == ls[i]
    ensures LensFor(fs, n, 15) == ls
  {
    hide DeflateHuffman.Invented, Huffman.HufLength;
    assert DeflateHuffman.FitsIn(fs, n, 15);
  }

  /** Such frequencies get the lengths they ask for, if these fill the code space. */
  lemma Settled(rs: seq<Run>, max: nat, n: nat)
    requires 0 < max <= 15 && |Laid(rs)| <= n <= 286 && Tally(Room(max), rs) == Pow2(max)
    requires forall i :: 0 <= i < |rs| ==> rs[i].0 <= max
    ensures LensFor(Asking(Laid(rs), max, n), n, 15) == Laid(rs) + Repeat(0, n - |Laid(rs)|)
  {
    hide *;
    var ls := Laid(rs);
    var fs, all := Asking(ls, max, n), ls + Repeat(0, n - |ls|);
    AskingSum(rs, max, n);
    AskingNatural(ls, max, n);
    NothingInvented(fs, n, max);
    LaidAtMost(rs, max);
    WithZeros(ls, n);
    forall i | 0 <= i < n ensures Huffman.HufLength(fs, n, i) == all[i] {
      LengthIs(ls, max, n, i);
    }
    LensThatFit(fs, n, all);
  }

  lemma WithZeros(ls: seq<CodeLen>, n: nat)
    requires |ls| <= n
    ensures var all := ls + Repeat(0, n - |ls|); |all| == n && forall i :: 0 <= i < n ==> all[i] == if i < |ls| then ls[i] else 0
  {
  }
}

/** Where chooseblock() ends a block: the value for money of every place where it may. */
module BlockChoice {
  import opened Bits
  import opened Symbols
  import opened SymbolCoding
  import opened BlockTrees
  import DeflateHuffman

  // ---- Logarithms, in eighths of a bit

  /** The eighths above a power of two, for a number with its top bit at 31. */
  function Eighths(x: nat): (e: nat)
    ensures e <= 8
  {
    if x <= 0xAD583EEA then
      if x <= 0x91C3D373 then (if x <= 0x85AAC367 then 0 else 1)
      else if x <= 0x9EF53260 then 2 else 3
    else
      if x <= 0xCE248C15 then (if x <= 0xBD08A39F then 4 else 5)
      else if x <= 0xE0CCDEEC then 6 else if x <= 0xF5257D15 then 7 else 8
  }

  /** x shifted up by n bits, if it is below the limit. */
  function Up(x: nat, limit: nat, n: nat): nat {
    if x < limit then x * Pow2(n) else x
  }

  function Normal1(x: nat): nat { Up(x, 0x1_0000, 16) }
  function Normal2(x: nat): nat { Up(Normal1(x), 0x100_0000, 8) }
  function Normal3(x: nat): nat { Up(Normal2(x), 0x1000_0000, 4) }
  function Normal4(x: nat): nat { Up(Normal3(x), 0x4000_0000, 2) }
  function Normal5(x: nat): nat { Up(Normal4(x), 0x8000_0000, 1) }

  /** By how many bits these shift x up. */
  function Shift1(x: nat): nat { if x < 0x1_0000 then 16 else 0 }
  function Shift2(x: nat): nat { Shift1(x) + if Normal1(x) < 0x100_0000 then 8 else 0 }
  function Shift3(x: nat): nat { Shift2(x) + if Normal2(x) < 0x1000_0000 then 4 else 0 }
  function Shift4(x: nat): nat { Shift3(x) + if Normal3(x) < 0x4000_0000 then 2 else 0 }

  function Shift(x: nat): (s: nat)
    ensures s <= 31
  {
    Shift4(x) + if Normal4(x) < 0x8000_0000 then 1 else 0
  }

  /** approxlog2. */
  function ApproxLog2(x: nat): nat {
    31 * 8 - 8 * Shift(x) + Eighths(Normal5(x))
  }

  lemma Shifted(x: nat, limit: nat, n: nat, a: nat, s: nat)
    requires a == x * Pow2(s)
    ensures Up(a, limit, n) == x * Pow2(s + if a < limit then n else 0)
  {
    if a < limit {
      PowSum(s, n);
      Multiply(x, Pow2(s), Pow2(n));
    }
  }

  lemma Multiply(x: nat, a: nat, b: nat)
    ensures x * a * b == x * (a * b)
  {
  }

  /** The bits are brought up to the top. */
  lemma Normalised(x: nat)
    ensures Normal5(x) == x * Pow2(Shift(x)) && (0 < x < 0x1_0000_0000 ==> 0x8000_0000 <= Normal5(x) < 0x1_0000_0000)
  {
    TopBit(x);
    Shifted3(x);
    hide Pow2, Up, Shift3;
    Shifted(x, 0x4000_0000, 2, Normal3(x), Shift3(x));
    Shifted(x, 0x8000_0000, 1, Normal4(x), Shift4(x));
  }

  lemma Shifted3(x: nat)
    ensures Normal3(x) == x * Pow2(Shift3(x))
  {
    assert Pow2(0) == 1;
    hide Pow2, Up;
    Shifted(x, 0x1_0000, 16, x, 0);
    Shifted(x, 0x100_0000, 8, Normal1(x), Shift1(x));
    Shifted(x, 0x1000_0000, 4, Normal2(x), Shift2(x));
  }

  lemma TopBit(x: nat)
    ensures 0 < x < 0x1_0000_0000 ==> 0x8000_0000 <= Normal5(x) < 0x1_0000_0000
  {
    assert Pow2(1) == 2 && Pow2(2) == 4 && Pow2(4) == 16 && Pow2(8) == 256 && Pow2(16) == 0x1_0000;
    hide Pow2;
    if 0 < x < 0x1_0000_0000 {
      assert 0x1_0000 <= Normal1(x) < 0x1_0000_0000;
      assert 0x100_0000 <= Normal2(x) < 0x1_0000_0000;
      assert 0x1000_0000 <= Normal3(x) < 0x1_0000_0000;
      assert 0x4000_0000 <= Normal4(x) < 0x1_0000_0000;
    }
  }

  /** It never falls. */
  lemma LogGrows(x: nat, y: nat)
    requires x <= y < 0x1_0000_0000
    ensures ApproxLog2(x) <= ApproxLog2(y)
  {
    if x > 0 {
      Normalised(x);
      Normalised(y);
      hide Pow2, Normal5, Shift;
      var a, b := Shift(x), Shift(y);
      if a == b {
        Ordered(x, y, Pow2(a));
      } else if a < b {
        PowSum(a, b - a);
        Doubled(b - a);
        TooBig(x, y, Pow2(a), Pow2(b - a));
      }
    } else {
      NoLog();
    }
  }

  lemma NoLog()
    ensures ApproxLog2(0) == 0
  {
  }

  lemma Ordered(x: nat, y: nat, p: nat)
    requires x <= y
    ensures x * p <= y * p && Eighths(x * p) <= Eighths(y * p)
  {
  }

  lemma Doubled(n: nat)
    requires n > 0
    ensures Pow2(n) >= 2
  {
  }

  lemma TooBig(x: nat, y: nat, p: nat, q: nat)
    requires x <= y && q >= 2 && x * p >= 0x8000_0000
    ensures y * (p * q) >= 0x1_0000_0000
  {
    assert y * p >= x * p;
    assert y * (p * q) == (y * p) * q;
  }

  // ---- The estimated size of a block

  function Information(f: nat): int {
    f * ApproxLog2(f)
  }

  /** Summed up over the first n symbols of an alphabet. */
  function Informations(fs: seq<int>, n: nat): int
    requires n <= |fs|
  {
    if n == 0 then 0 else Informations(fs, n - 1) + if fs[n - 1] >= 0 then Information(fs[n - 1]) else 0
  }

  function Total(fs: seq<int>): nat {
    var t := DeflateHuffman.Sum(fs, |fs|);
    if t >= 0 then t else 0
  }

  /** What entropy coding with the frequencies fs takes, in eighths of a bit. */
  function Entropy(fs: seq<int>): int {
    Information(Total(fs)) - Informations(fs, |fs|)
  }

  function ExtraBitsIn(ss: seq<Sym>): nat {
    if ss == [] then 0 else
      var s := ss[|ss| - 1];
      ExtraBitsIn(ss[..|ss| - 1]) + if s.ExtraBits? then s.nbits else 0
  }

  /** The size of a block of the symbols ss, trees and all, in eighths of a bit. */
  function Estimate(ss: seq<Sym>): int {
    300 * 8 + Entropy(LitFreqs(ss)) + Entropy(DistFreqs(ss)) + 8 * ExtraBitsIn(ss)
  }

  lemma {:induction false} InformationsBound(fs: seq<int>, n: nat, most: nat)
    requires n <= |fs| && most < 0x1_0000_0000 && forall i :: 0 <= i < n ==> 0 <= fs[i] <= most
    ensures Informations(fs, n) <= DeflateHuffman.Sum(fs, n) * ApproxLog2(most)
  {
    hide ApproxLog2;
    if n > 0 {
      InformationsBound(fs, n - 1, most);
      LogGrows(fs[n - 1], most);
      OneInformation(DeflateHuffman.Sum(fs, n - 1), fs[n - 1], ApproxLog2(fs[n - 1]), ApproxLog2(most));
    }
  }

  lemma OneInformation(sum: int, f: nat, a: nat, b: nat)
    requires a <= b
    ensures f * a <= f * b && sum * b + f * b == (sum + f) * b
  {
  }

  lemma {:induction false} SumAtLeast(fs: seq<int>, n: nat, i: nat)
    requires i < n <= |fs| && forall k :: 0 <= k < n ==> fs[k] >= 0
    ensures 0 <= fs[i] <= DeflateHuffman.Sum(fs, n)
  {
    SumNatural(fs, n - 1);
    if i < n - 1 {
      SumAtLeast(fs, n - 1, i);
    }
  }

  lemma {:induction false} SumNatural(fs: seq<int>, n: nat)
    requires n <= |fs| && forall k :: 0 <= k < n ==> fs[k] >= 0
    ensures DeflateHuffman.Sum(fs, n) >= 0
  {
    if n > 0 {
      SumNatural(fs, n - 1);
    }
  }

  /** Entropy is never negative, rounded as it is. */
  lemma EntropyNatural(fs: seq<int>)
    requires (forall i :: 0 <= i < |fs| ==> fs[i] >= 0) && DeflateHuffman.Sum(fs, |fs|) < 0x1_0000_0000
    ensures Entropy(fs) >= 0
  {
    hide ApproxLog2, DeflateHuffman.Sum;
    SumNatural(fs, |fs|);
    forall i | 0 <= i < |fs| ensures 0 <= fs[i] <= Total(fs) {
      SumAtLeast(fs, |fs|, i);
    }
    InformationsBound(fs, |fs|, Total(fs));
  }

  // ---- One more symbol

  lemma {:induction false} SumChanged(fs: seq<int>, n: nat, c: nat, v: int)
    requires c < |fs| && n <= |fs|
    ensures DeflateHuffman.Sum(fs[c := v], n) == DeflateHuffman.Sum(fs, n) + if c < n then v - fs[c] else 0
  {
    if n > 0 {
      SumChanged(fs, n - 1, c, v);
    }
  }

  lemma {:induction false} InformationsChanged(fs: seq<int>, n: nat, c: nat, v: nat)
    requires c < |fs| && n <= |fs| && fs[c] >= 0
    ensures Informations(fs[c := v], n) == Informations(fs, n) + if c < n then Information(v) - Information(fs[c]) else 0
  {
    hide Information;
    if n > 0 {
      InformationsChanged(fs, n - 1, c, v);
    }
  }

  /** What chooseblock() adds and takes off for one more symbol c. */
  lemma EntropyStep(fs: seq<int>, c: nat)
    requires c < |fs| && forall i :: 0 <= i < |fs| ==> fs[i] >= 0
    ensures Total(fs[c := fs[c] + 1]) == Total(fs) + 1
    ensures Entropy(fs[c := fs[c] + 1]) ==
      Entropy(fs) + Information(fs[c]) - Information(Total(fs)) - Information(fs[c] + 1) + Information(Total(fs) + 1)
  {
    SumNatural(fs, |fs|);
    SumChanged(fs, |fs|, c, fs[c] + 1);
    InformationsChanged(fs, |fs|, c, fs[c] + 1);
    hide Information, DeflateHuffman.Sum, Informations;
  }

  lemma LitStep(ss: seq<Sym>, c: nat)
    requires c < 286
    ensures var fs, more := LitFreqs(ss), ss + [LitLenSym(c)];
      LitFreqs(more) == fs[c := fs[c] + 1] && DistFreqs(more) == DistFreqs(ss) && ExtraBitsIn(more) == ExtraBitsIn(ss)
  {
    assert (ss + [LitLenSym(c)])[..|ss|] == ss;
  }

  lemma DistStep(ss: seq<Sym>, c: nat)
    requires c < 30
    ensures var fs, more := DistFreqs(ss), ss + [DistSym(c)];
      DistFreqs(more) == fs[c := fs[c] + 1] && LitFreqs(more) == LitFreqs(ss) && ExtraBitsIn(more) == ExtraBitsIn(ss)
  {
    assert (ss + [DistSym(c)])[..|ss|] == ss;
  }

  lemma ExtraStep(ss: seq<Sym>, v: nat, n: nat)
    ensures var more := ss + [ExtraBits(v, n)];
      LitFreqs(more) == LitFreqs(ss) && DistFreqs(more) == DistFreqs(ss) && ExtraBitsIn(more) == ExtraBitsIn(ss) + n
  {
    assert (ss + [ExtraBits(v, n)])[..|ss|] == ss;
  }

  lemma NothingEstimated()
    ensures forall c :: 0 <= c < 286 ==> LitFreqs([])[c] == if c == EOB then 1 else 0
    ensures (forall c :: 0 <= c < 30 ==> DistFreqs([])[c] == 0) && ExtraBitsIn([]) == 0
  {
  }

  lemma {:induction false} SumZeros(fs: seq<int>, n: nat)
    requires n <= |fs| && forall i :: 0 <= i < n ==> fs[i] == 0
    ensures DeflateHuffman.Sum(fs, n) == 0 && Informations(fs, n) == 0
  {
    if n > 0 {
      SumZeros(fs, n - 1);
      NoInformation();
    }
  }

  lemma NoInformation()
    ensures Information(0) == 0 && Information(1) == 0
  {
    assert Pow2(1) == 2 && Pow2(2) == 4 && Pow2(4) == 16 && Pow2(8) == 256 && Pow2(16) == 0x1_0000;
  }

  lemma EstimateStarts()
    ensures Entropy(LitFreqs([])) == 0 && Entropy(DistFreqs([])) == 0 && ExtraBitsIn([]) == 0
    ensures Total(LitFreqs([])) == 1 && Total(DistFreqs([])) == 0
  {
    NothingEstimated();
    assert EOB == 256;
    hide *;
    EndOnly(LitFreqs([]));
    Nothing(DistFreqs([]));
  }

  lemma Nothing(fs: seq<int>)
    requires forall i :: 0 <= i < |fs| ==> fs[i] == 0
    ensures Total(fs) == 0 && Entropy(fs) == 0
  {
    SumZeros(fs, |fs|);
    NoInformation();
    hide Information, Informations, DeflateHuffman.Sum;
  }

  lemma EndOnly(fs: seq<int>)
    requires |fs| == 286 && forall i :: 0 <= i < 286 ==> fs[i] == if i == 256 then 1 else 0
    ensures Total(fs) == 1 && Entropy(fs) == 0
  {
    var zeros := fs[256 := 0];
    SumZeros(zeros, 286);
    assert zeros[256 := 1] == fs;
    SumChanged(zeros, 286, 256, 1);
    InformationsChanged(zeros, 286, 256, 1);
    NoInformation();
    hide Information, Informations, DeflateHuffman.Sum;
  }

  lemma TotalsStep(ss: seq<Sym>, s: Sym)
    requires BlockSym(s)
    ensures var f, g, more := LitFreqs(ss), DistFreqs(ss), ss + [s];
      && Total(LitFreqs(more)) == Total(f) + (if s.LitLenSym? then 1 else 0)
      && Total(DistFreqs(more)) == Total(g) + (if s.DistSym? then 1 else 0)
  {
    FreqsNatural(ss);
    hide DeflateHuffman.Sum, LitFreqs, DistFreqs, Entropy, Total;
    match s {
      case LitLenSym(c) =>
        LitStep(ss, c);
        EntropyStep(LitFreqs(ss), c);
      case DistSym(c) =>
        DistStep(ss, c);
        EntropyStep(DistFreqs(ss), c);
      case ExtraBits(v, k) =>
        ExtraStep(ss, v, k);
      case CodeLenSym(_) =>
    }
  }

  lemma {:induction false} TotalsAre(ss: seq<Sym>)
    requires forall i :: 0 <= i < |ss| ==> BlockSym(ss[i])
    ensures 1 <= Total(LitFreqs(ss)) <= 1 + |ss| && Total(DistFreqs(ss)) <= |ss|
    decreases |ss|
  {
    if ss == [] {
      EstimateStarts();
    } else {
      hide LitFreqs, DistFreqs, Total, BlockSym;
      var n := |ss| - 1;
      TotalsAre(ss[..n]);
      TotalsStep(ss[..n], ss[n]);
      assert ss == ss[..n] + [ss[n]];
    }
  }

  lemma TotalIsSum(fs: seq<int>)
    requires forall i :: 0 <= i < |fs| ==> fs[i] >= 0
    ensures DeflateHuffman.Sum(fs, |fs|) == Total(fs)
  {
    SumNatural(fs, |fs|);
  }

  /** So the value for money is never divided by nothing. */
  lemma EstimateLarge(ss: seq<Sym>)
    requires (forall i :: 0 <= i < |ss| ==> BlockSym(ss[i])) && |ss| <= SYMLIMIT
    ensures Estimate(ss) >= 300 * 8
  {
    TotalsAre(ss);
    FreqsNatural(ss);
    TotalIsSum(LitFreqs(ss));
    TotalIsSum(DistFreqs(ss));
    hide Total, LitFreqs, DistFreqs, Entropy, DeflateHuffman.Sum;
    EntropyNatural(LitFreqs(ss));
    EntropyNatural(DistFreqs(ss));
  }

  // ---- Where to cut

  /** Symbols for each bit, were the block to end before symbol i. */
  function Value(ss: seq<Sym>, i: nat): int
    requires i <= |ss|
  {
    if Estimate(ss[..i]) > 0 then i * 32768 / Estimate(ss[..i]) else 0
  }

  predicate Viable(ss: seq<Sym>, i: nat)
    requires i < |ss|
  {
    i > 0 && ss[i].LitLenSym?
  }

  /** The first place of the best value before n, -1 if no place is viable. */
  function BestCut(ss: seq<Sym>, n: nat): (b: int)
    requires n <= |ss|
    ensures -1 <= b < n || b == -1
  {
    if n == 0 then -1 else
      var b := BestCut(ss, n - 1);
      if Viable(ss, n - 1) && (b < 0 || Value(ss, n - 1) > Value(ss, b)) then n - 1 else b
  }

  function LastCut(ss: seq<Sym>, n: nat): (b: nat)
    requires n <= |ss|
    ensures b == 0 || b < n
  {
    if n == 0 then 0 else if Viable(ss, n - 1) then n - 1 else LastCut(ss, n - 1)
  }

  /** It is viable, no viable place has a better value, and no earlier one has the same. */
  lemma {:induction false} BestCutIsBest(ss: seq<Sym>, n: nat)
    requires n <= |ss|
    ensures var b := BestCut(ss, n);
      && (b >= 0 ==> Viable(ss, b))
      && forall i :: 0 <= i < n && Viable(ss, i) ==> b >= 0 && Value(ss, i) <= Value(ss, b) && (i < b ==> Value(ss, i) < Value(ss, b))
  {
    hide Value, Viable;
    if n > 0 {
      BestCutIsBest(ss, n - 1);
    }
  }

  lemma {:induction false} LastCutIsLast(ss: seq<Sym>, n: nat)
    requires n <= |ss|
    ensures var b := LastCut(ss, n);
      && (b > 0 ==> Viable(ss, b))
      && forall i :: 0 <= i < n && Viable(ss, i) ==> i <= b
  {
    if n > 0 {
      LastCutIsLast(ss, n - 1);
    }
  }
}

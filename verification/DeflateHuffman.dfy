/** deflate_buildhuf: Huffman lengths within Deflate's limit of 15 bits (7 for
    the code-length alphabet), by flattening the frequencies when needed. */
module DeflateHuffman {
  import opened Bits
  import opened Kraft
  import opened HuffmanTheory
  import opened Huffman

  /** The Fibonacci numbers F(18) and F(10) the source divides by. */
  function MaxProb(limit: nat): (p: nat)
    requires limit == 15 || limit == 7
    ensures p == if limit == 15 then 2584 else 55
  {
    if limit == 15 then 2584 else 55
  }

  function CountPositive(fs: seq<int>, n: nat): (c: nat)
    requires n <= |fs|
    ensures c <= n
  {
    if n == 0 then 0 else CountPositive(fs, n - 1) + if fs[n - 1] > 0 then 1 else 0
  }

  function FirstZero(fs: seq<int>, n: nat): (i: nat)
    requires n <= |fs|
    ensures i <= n
    ensures forall k :: 0 <= k < i ==> fs[k] != 0
    ensures i < n ==> fs[i] == 0
  {
    if n == 0 then 0 else
      var i := FirstZero(fs, n - 1);
      if i < n - 1 then i else if fs[n - 1] == 0 then n - 1 else n
  }

  /** A table with exactly one used symbol gains a second one, the first unused
      symbol; a table with none is left alone. */
  function Invented(fs: seq<int>, n: nat): (r: seq<int>)
    requires n <= |fs|
    ensures |r| == |fs|
  {
    var i := FirstZero(fs, n);
    if CountPositive(fs, n) == 1 && i < n then fs[i := 1] else fs
  }

  /** a is added to every used symbol's frequency. */
  function Raised(fs: seq<int>, n: nat, a: nat): (r: seq<int>)
    requires n <= |fs|
    ensures |r| == |fs|
  {
    seq(|fs|, i requires 0 <= i < |fs| => if i < n && fs[i] != 0 then fs[i] + a else fs[i])
  }

  ghost predicate IsSmallest(w: Weights, s: nat) {
    AtLeast(w, s) && exists x :: x in w && w[x] == s
  }

  /** With a added to each of the n used frequencies, none is below 1/p of the total. */
  predicate Flat(total: int, n: nat, p: nat, s: int, a: int) {
    total + n * a <= p * (s + a)
  }

  ghost predicate LeastFlat(total: int, n: nat, p: nat, s: int, a: nat) {
    Flat(total, n, p, s, a) && forall b :: 0 <= b < a ==> !Flat(total, n, p, s, b)
  }

  /** The rarest of the n used symbols was too rare, and a is the least
      adjustment that mends it. */
  ghost predicate Flattened(w: Weights, n: nat, p: nat, a: nat) {
    exists s: nat :: IsSmallest(w, s) && p * s <= Total(w) && LeastFlat(Total(w), n, p, s, a)
  }

  /** The rarest symbol's share is exactly 1/p. */
  ghost predicate Borderline(w: Weights, p: nat) {
    exists s: nat :: IsSmallest(w, s) && Total(w) == p * s
  }

  lemma FibMonotone(a: nat, b: nat)
    requires a <= b
    ensures Fib(a) <= Fib(b)
    decreases b
  {
    if a < b {
      FibMonotone(a, b - 1);
      assert b >= 2 ==> Fib(b) == Fib(b - 2) + Fib(b - 1);
    }
  }

  lemma FibConstants()
    ensures Fib(10) == 55 && Fib(18) == 2584
  {
    assert Fib(6) == 8 && Fib(7) == 13;
    assert Fib(8) == 21 && Fib(9) == 34;
    assert Fib(10) == 55 && Fib(11) == 89;
    assert Fib(12) == 144 && Fib(13) == 233;
    assert Fib(14) == 377 && Fib(15) == 610;
    assert Fib(16) == 987 && Fib(17) == 1597;
  }

  /** An overlong code means the rarest symbol is too rare. */
  lemma OverlongIsRare(w: Weights, d: Lengths, v: int, s: nat, limit: nat)
    requires limit == 15 || limit == 7
    requires IsHuffman(w, d) && v in w && d[v] > limit && AtLeast(w, s)
    ensures MaxProb(limit) * s <= Total(w)
  {
    hide Total, Cost, KraftSum, Fib, Optimal, Pow2;
    FibConstants();
    FibMonotone(limit + 3, d[v] + 2);
    assert Fib(d[v] + 2) * s <= Total(w);
    assert MaxProb(limit) * s <= Fib(d[v] + 2) * s;
  }

  lemma ActiveStep(fs: seq<int>, n: nat)
    requires n < |fs|
    ensures fs[n] > 0 ==>
      && n !in Active(fs, n) && Active(fs, n + 1) == Active(fs, n)[n := fs[n]]
      && Total(Active(fs, n + 1)) == Total(Active(fs, n)) + fs[n]
    ensures fs[n] <= 0 ==> Active(fs, n + 1) == Active(fs, n)
  {
    hide Total;
    if fs[n] > 0 {
      var w := Active(fs, n + 1);
      assert w == Active(fs, n)[n := fs[n]];
      TotalRemove(w, n);
      assert w - {n} == Active(fs, n);
    } else {
      assert Active(fs, n + 1) == Active(fs, n);
    }
  }

  lemma OneMore(c: nat, a: nat)
    ensures (c + 1) * a == c * a + a
  {
  }

  lemma EmptyTotal(fs: seq<int>)
    ensures Total(Active(fs, 0)) == 0
  {
  }

  /** deflate_buildhuf's opening special case. */
  method Invent(freqs: array<int>, nsyms: nat)
    requires nsyms <= freqs.Length && forall i :: 0 <= i < nsyms ==> freqs[i] >= 0
    modifies freqs
    ensures freqs[..] == Invented(old(freqs[..]), nsyms)
  {
    ghost var fs := freqs[..];
    var count := 0;
    for i := 0 to nsyms
      invariant freqs[..] == fs && count == CountPositive(fs, i)
    {
      if freqs[i] > 0 {
        count := count + 1;
      }
    }
    if count < 2 {
      var i := 0;
      ghost var z := FirstZero(fs, nsyms);
      while i < nsyms && count > 0
        invariant 0 <= i <= nsyms
        invariant count == 1 ==> freqs[..] == fs && i <= z && CountPositive(fs, nsyms) == 1
        invariant count == 0 ==> freqs[..] == Invented(fs, nsyms)
        invariant count == 0 || count == 1
      {
        if freqs[i] == 0 {
          assert i == z;
          freqs[i] := 1;
          count := count - 1;
        }
        i := i + 1;
      }
    }
  }

  /** The loop that gathers the smallest frequency, the total and the number of
      used symbols. */
  method Survey(freqs: array<int>, nsyms: nat) returns (smallest: int, total: int, active: nat)
    requires nsyms <= freqs.Length && forall i :: 0 <= i < nsyms ==> freqs[i] >= 0
    ensures total == Total(Active(freqs[..], nsyms)) && active == CountPositive(freqs[..], nsyms)
    ensures active > 0 ==> smallest > 0 && IsSmallest(Active(freqs[..], nsyms), smallest)
    ensures total == Sum(freqs[..], nsyms) && smallest == Smallest(freqs[..], nsyms)
  {
    hide Total;
    smallest, total, active := -1, 0, 0;
    ghost var fs := freqs[..];
    EmptyTotal(fs);
    for i := 0 to nsyms
      invariant total == Total(Active(fs, i)) == Sum(fs, i) && active == CountPositive(fs, i) && smallest == Smallest(fs, i)
      invariant active == 0 ==> smallest == -1 && forall x :: x !in Active(fs, i)
      invariant active > 0 ==> smallest > 0 && IsSmallest(Active(fs, i), smallest)
    {
      ActiveStep(fs, i);
      if freqs[i] == 0 {
        continue;
      }
      ghost var w := Active(fs, i + 1);
      assert w[i] == freqs[i];
      if smallest < 0 || smallest > freqs[i] {
        smallest := freqs[i];
      }
      total := total + freqs[i];
      active := active + 1;
    }
  }

  method Raise(freqs: array<int>, nsyms: nat, adjust: nat)
    requires nsyms <= freqs.Length
    modifies freqs
    ensures freqs[..] == Raised(old(freqs[..]), nsyms, adjust)
  {
    ghost var fs := freqs[..];
    for i := 0 to nsyms
      invariant freqs[..] == Raised(fs, i, adjust)
    {
      if freqs[i] != 0 {
        freqs[i] := freqs[i] + adjust;
      }
    }
  }

  method AllWithin(lengths: array<byte>, nsyms: nat, limit: nat) returns (ok: bool)
    requires nsyms <= lengths.Length
    ensures ok <==> forall i :: 0 <= i < nsyms ==> lengths[i] <= limit
  {
    var i := 0;
    while i < nsyms
      invariant 0 <= i <= nsyms && forall k :: 0 <= k < i ==> lengths[k] <= limit
    {
      if lengths[i] > limit {
        break;
      }
      i := i + 1;
    }
    ok := i == nsyms;
  }

  /** The rounded-up quotient is the least adjustment that flattens. */
  lemma LeastAdjustment(total: int, n: nat, p: nat, s: int) returns (a: nat)
    requires n < p && p * s <= total
    ensures a == (total - s * p + (p - n) - 1) / (p - n)
    ensures Flat(total, n, p, s, a)
    ensures forall b :: 0 <= b < a ==> !Flat(total, n, p, s, b)
  {
    var num, denom := total - s * p, p - n;
    a := (num + denom - 1) / denom;
    assert num + denom - 1 == denom * a + (num + denom - 1) % denom;
    FlatIsQuotient(total, n, p, s, a);
    forall b | 0 <= b < a
      ensures !Flat(total, n, p, s, b)
    {
      FlatIsQuotient(total, n, p, s, b);
      MulGrows(denom, a - b);
      assert denom * (a - b) == denom * a - denom * b;
    }
  }

  lemma FlatIsQuotient(total: int, n: nat, p: nat, s: int, a: int)
    ensures Flat(total, n, p, s, a) <==> total - s * p <= (p - n) * a
  {
    assert p * (s + a) == s * p + p * a;
    assert (p - n) * a == p * a - n * a;
  }

  // ---- deflate_buildhuf, as a function of the frequencies

  function Sum(fs: seq<int>, n: nat): int
    requires n <= |fs|
  {
    if n == 0 then 0 else Sum(fs, n - 1) + fs[n - 1]
  }

  /** The smallest non-zero frequency, -1 if there is none. */
  function Smallest(fs: seq<int>, n: nat): int
    requires n <= |fs|
  {
    if n == 0 then -1 else
      var s := Smallest(fs, n - 1);
      if fs[n - 1] != 0 && (s < 0 || s > fs[n - 1]) then fs[n - 1] else s
  }

  lemma {:induction false} Surveyed(fs: seq<int>, n: nat)
    requires n <= |fs| && forall i :: 0 <= i < n ==> fs[i] >= 0
    ensures Sum(fs, n) == Total(Active(fs, n)) >= 0
    ensures CountPositive(fs, n) == 0 ==> Smallest(fs, n) == -1 && forall x :: x !in Active(fs, n)
    ensures CountPositive(fs, n) > 0 ==> Smallest(fs, n) > 0 && IsSmallest(Active(fs, n), Smallest(fs, n))
  {
    hide Total;
    if n == 0 {
      EmptyTotal(fs);
    } else {
      var i := n - 1;
      Surveyed(fs, i);
      ActiveStep(fs, i);
      if fs[i] > 0 {
        assert Active(fs, n)[i] == fs[i];
      }
    }
  }

  /** The lengths buildhuf gives all respect the limit. */
  predicate FitsIn(fs: seq<int>, n: nat, limit: nat)
    requires n <= |fs|
  {
    forall i :: 0 <= i < n ==> HufLength(fs, n, i) <= limit
  }

  /** By how much the total exceeds maxprob times the smallest frequency. */
  function Excess(fs: seq<int>, n: nat, limit: nat): int
    requires n <= |fs| && (limit == 15 || limit == 7)
  {
    Sum(fs, n) - Smallest(fs, n) * MaxProb(limit)
  }

  function Adjustment(fs: seq<int>, n: nat, limit: nat): (a: nat)
    requires n <= |fs| && (limit == 15 || limit == 7) && n < MaxProb(limit)
  {
    var denom := MaxProb(limit) - CountPositive(fs, n);
    if Excess(fs, n, limit) < 0 then 0 else (Excess(fs, n, limit) + denom - 1) / denom
  }

  /** The frequencies the code is built from in the end. */
  function Adjusted(fs: seq<int>, n: nat, limit: nat): (r: seq<int>)
    requires n <= |fs| && (limit == 15 || limit == 7) && n < MaxProb(limit)
    ensures |r| == |fs|
  {
    var f0 := Invented(fs, n);
    if FitsIn(f0, n, limit) then f0 else Raised(f0, n, Adjustment(f0, n, limit))
  }

  /** deflate_buildhuf's final assertion holds. */
  predicate Codable(fs: seq<int>, n: nat, limit: nat)
    requires n <= |fs| && (limit == 15 || limit == 7) && n < MaxProb(limit)
  {
    FitsIn(Adjusted(fs, n, limit), n, limit)
  }

  /** The excess is a multiple of what one unit of adjustment takes off it, so that the
      adjusted total ends up at exactly maxprob times the smallest frequency. */
  predicate NoSlack(fs: seq<int>, n: nat, limit: nat)
    requires n <= |fs| && (limit == 15 || limit == 7) && n < MaxProb(limit)
  {
    Excess(fs, n, limit) >= 0 && Excess(fs, n, limit) % (MaxProb(limit) - CountPositive(fs, n)) == 0
  }

  lemma {:induction false} HasUsed(fs: seq<int>, n: nat, limit: nat) returns (v: nat, d: Lengths)
    requires n <= |fs| && n <= HUFMAX && (limit == 15 || limit == 7) && !FitsIn(fs, n, limit)
    ensures IsHuffman(Active(fs, n), d) && v < n && v in Active(fs, n) && d[v] > limit && CountPositive(fs, n) > 0
  {
    hide IsHuffman, Active, HufLength;
    var h;
    h, d := HufIsHuffman(fs, n);
    v :| v < n && HufLength(fs, n, v) > limit;
    assert WrittenLength(d, v) == HufLength(fs, n, v);
    LongIsUsed(fs, n, d, v);
    UsedSymbol(fs, n, v);
  }

  lemma LongIsUsed(fs: seq<int>, n: nat, d: Lengths, v: nat)
    requires n <= |fs| && IsHuffman(Active(fs, n), d) && WrittenLength(d, v) > 0
    ensures v in Active(fs, n) && d[v] >= WrittenLength(d, v) as nat
  {
  }

  /** An overlong code means that the excess is not negative: the first assertion holds. */
  lemma OverlongHasExcess(fs: seq<int>, n: nat, limit: nat)
    requires n <= |fs| && n <= HUFMAX && (limit == 15 || limit == 7) && forall i :: 0 <= i < n ==> fs[i] >= 0
    requires !FitsIn(fs, n, limit)
    ensures CountPositive(fs, n) > 0 && Smallest(fs, n) > 0 && Excess(fs, n, limit) >= 0
  {
    hide Total, IsHuffman, Active, Sum, Smallest, CountPositive, FitsIn;
    var v, d := HasUsed(fs, n, limit);
    Surveyed(fs, n);
    OverlongIsRare(Active(fs, n), d, v, Smallest(fs, n), limit);
  }

  lemma RaisedExcess(fs: seq<int>, n: nat, limit: nat, a: nat)
    requires n <= |fs| && (limit == 15 || limit == 7) && forall i :: 0 <= i < n ==> fs[i] >= 0
    requires CountPositive(fs, n) > 0 && n < MaxProb(limit)
    ensures CountPositive(Raised(fs, n, a), n) == CountPositive(fs, n)
    ensures Excess(Raised(fs, n, a), n, limit) == Excess(fs, n, limit) - (MaxProb(limit) - CountPositive(fs, n)) * a
  {
    RaisedSums(fs, n, n, a);
    hide Sum, Smallest, CountPositive, Raised, MaxProb;
    ExcessShift(Sum(fs, n), CountPositive(fs, n), Smallest(fs, n), MaxProb(limit), a);
  }

  lemma ExcessShift(total: int, c: int, s: int, p: int, a: int)
    ensures total + c * a - (s + a) * p == total - s * p - (p - c) * a
  {
    assert (s + a) * p == s * p + p * a;
    assert (p - c) * a == p * a - c * a;
  }

  lemma {:induction false} RaisedSums(fs: seq<int>, n: nat, m: nat, a: nat)
    requires m <= n <= |fs| && forall i :: 0 <= i < n ==> fs[i] >= 0
    ensures CountPositive(Raised(fs, n, a), m) == CountPositive(fs, m)
    ensures Sum(Raised(fs, n, a), m) == Sum(fs, m) + CountPositive(fs, m) * a
    ensures CountPositive(fs, m) == 0 ==> Smallest(fs, m) == Smallest(Raised(fs, n, a), m) == -1
    ensures CountPositive(fs, m) > 0 ==> Smallest(fs, m) > 0 && Smallest(Raised(fs, n, a), m) == Smallest(fs, m) + a
  {
    if m > 0 {
      RaisedSums(fs, n, m - 1, a);
      OneMore(CountPositive(fs, m - 1), a);
    }
  }

  /** When the assertion fails: the first code is too long, nothing is to spare after the
      adjustment, and the code for the adjusted frequencies is too long again. Each of
      the three can be checked beforehand, the second without building a code. */
  lemma FailsExactly(fs: seq<int>, n: nat, limit: nat)
    requires 2 <= n <= |fs| && n <= HUFMAX && (limit == 15 || limit == 7) && n < MaxProb(limit)
    requires forall i :: 0 <= i < n ==> fs[i] >= 0
    ensures var f0 := Invented(fs, n);
      && (!Codable(fs, n, limit) <==>
            !FitsIn(f0, n, limit) && NoSlack(f0, n, limit) && !FitsIn(Raised(f0, n, Adjustment(f0, n, limit)), n, limit))
      && (!FitsIn(f0, n, limit) && NoSlack(f0, n, limit) ==> Excess(Adjusted(fs, n, limit), n, limit) == 0)
      && (!FitsIn(f0, n, limit) && !NoSlack(f0, n, limit) ==> Excess(Adjusted(fs, n, limit), n, limit) < 0)
  {
    hide FitsIn, Invented, Sum, Smallest, CountPositive;
    InventedNonNegative(fs, n);
    var f0 := Invented(fs, n);
    if !FitsIn(f0, n, limit) {
      OverlongHasExcess(f0, n, limit);
      var a, denom := Adjustment(f0, n, limit), MaxProb(limit) - CountPositive(f0, n);
      RaisedExcess(f0, n, limit, a);
      RoundedUp(Excess(f0, n, limit), denom);
      var r := Raised(f0, n, a);
      if !FitsIn(r, n, limit) {
        OverlongHasExcess(r, n, limit);
      }
    }
  }

  lemma RoundedUp(num: nat, denom: nat)
    requires denom > 0
    ensures var a := (num + denom - 1) / denom;
      denom * a >= num && (denom * a == num <==> num % denom == 0)
  {
    var q, r := num / denom, num % denom;
    assert num == denom * q + r;
    if r == 0 {
      QuotientIs(num + denom - 1, denom, q, denom - 1);
    } else {
      assert denom * (q + 1) == denom * q + denom;
      QuotientIs(num + denom - 1, denom, q + 1, r - 1);
    }
  }

  lemma QuotientIs(x: nat, d: nat, q: nat, r: nat)
    requires d > 0 && r < d && x == d * q + r
    ensures x / d == q
  {
    var k := q - x / d;
    assert d * k == d * q - d * (x / d);
    if k >= 1 {
      MulGrowsBy(d, k);
    } else if k <= -1 {
      MulGrowsBy(d, -k);
    }
  }

  lemma MulGrowsBy(d: nat, k: int)
    requires k >= 1
    ensures d * k >= d && d * (-k) == -(d * k)
  {
  }

  /** deflate_buildhuf. ok is the verdict of the final assertion; adjust is 0
      when the first attempt already fits. */
  method DeflateBuildHuf(freqs: array<int>, lengths: array<byte>, nsyms: nat, limit: nat)
    returns (ok: bool, ghost d: Lengths, ghost adjust: nat)
    requires limit == 15 || limit == 7
    requires 2 <= nsyms <= HUFMAX && nsyms <= freqs.Length && nsyms <= lengths.Length && nsyms < MaxProb(limit)
    requires forall i :: 0 <= i < nsyms ==> freqs[i] >= 0
    modifies freqs, lengths
    ensures ok <==> Codable(old(freqs[..]), nsyms, limit)
    ensures freqs[..] == Adjusted(old(freqs[..]), nsyms, limit)
    ensures forall i :: 0 <= i < nsyms ==> lengths[i] == HufLength(freqs[..], nsyms, i)
    ensures var f0 := Invented(old(freqs[..]), nsyms);
      && freqs[..] == Raised(f0, nsyms, adjust)
      && IsHuffman(Active(freqs[..], nsyms), d)
      && (adjust > 0 || !ok ==> Flattened(Active(f0, nsyms), CountPositive(f0, nsyms), MaxProb(limit), adjust))
    ensures forall i :: 0 <= i < nsyms ==> lengths[i] == WrittenLength(d, i)
    ensures ok <==> forall i :: 0 <= i < nsyms ==> lengths[i] <= limit
    ensures !ok ==> Borderline(Active(freqs[..], nsyms), MaxProb(limit)) && NoSlack(Invented(old(freqs[..]), nsyms), nsyms, limit)
  {
    hide *;
    adjust := 0;
    Invent(freqs, nsyms);
    ghost var fs, f0 := old(freqs[..]), freqs[..];
    InventedNonNegative(fs, nsyms);
    FailsExactly(fs, nsyms, limit);
    AdjustedIs(fs, nsyms, limit);
    d := BuildHuf(freqs, lengths, nsyms);
    ok := AllWithin(lengths, nsyms, limit);
    FitsInIs(f0, nsyms, limit, lengths[..]);
    RaisedByZero(f0, nsyms);
    if ok {
      return;
    }
    OverlongHasExcess(f0, nsyms, limit);
    var maxprob := MaxProb(limit);
    var smallest, total, active := Survey(freqs, nsyms);
    AdjustmentIs(f0, nsyms, limit);
    assert smallest <= total / maxprob;
    var num := total - smallest * maxprob;
    var denom := maxprob - active;
    var adj := (num + denom - 1) / denom;
    adjust := adj;
    Raise(freqs, nsyms, adj);
    d := BuildHuf(freqs, lengths, nsyms);
    ok := AllWithin(lengths, nsyms, limit);
    FitsInIs(freqs[..], nsyms, limit, lengths[..]);
    if !ok {
      StillBorderline(f0, nsyms, limit, adj);
    }
  }

  lemma FitsInIs(fs: seq<int>, n: nat, limit: nat, lengths: seq<byte>)
    requires n <= |fs| && n <= |lengths| && forall i :: 0 <= i < n ==> lengths[i] == HufLength(fs, n, i)
    ensures FitsIn(fs, n, limit) <==> forall i :: 0 <= i < n ==> lengths[i] <= limit
  {
    hide HufLength;
    if FitsIn(fs, n, limit) {
      forall i | 0 <= i < n ensures lengths[i] <= limit {
        assert HufLength(fs, n, i) <= limit;
      }
    } else {
      var i :| 0 <= i < n && HufLength(fs, n, i) > limit;
      assert lengths[i] > limit;
    }
  }

  lemma AdjustedIs(fs: seq<int>, n: nat, limit: nat)
    requires n <= |fs| && (limit == 15 || limit == 7) && n < MaxProb(limit)
    ensures var f0 := Invented(fs, n);
      && Adjusted(fs, n, limit) == (if FitsIn(f0, n, limit) then f0 else Raised(f0, n, Adjustment(f0, n, limit)))
      && (Codable(fs, n, limit) <==> FitsIn(Adjusted(fs, n, limit), n, limit))
  {
    hide FitsIn, Invented;
  }

  /** The quotient computed is the adjustment, and the least that flattens. */
  lemma AdjustmentIs(f0: seq<int>, n: nat, limit: nat)
    requires n <= |f0| && n <= HUFMAX && (limit == 15 || limit == 7) && n < MaxProb(limit) && forall i :: 0 <= i < n ==> f0[i] >= 0
    requires !FitsIn(f0, n, limit)
    ensures var p, s, total, denom := MaxProb(limit), Smallest(f0, n), Sum(f0, n), MaxProb(limit) - CountPositive(f0, n);
      && denom > 0 && 0 < s <= total / p && 0 <= s * p <= total
      && Adjustment(f0, n, limit) == (total - s * p + denom - 1) / denom
      && Flattened(Active(f0, n), CountPositive(f0, n), p, Adjustment(f0, n, limit))
  {
    hide Total, FitsIn, Sum, Smallest, Active, CountPositive, IsSmallest;
    OverlongHasExcess(f0, n, limit);
    Surveyed(f0, n);
    var least := LeastAdjustment(Sum(f0, n), CountPositive(f0, n), MaxProb(limit), Smallest(f0, n));
  }

  /** Nothing to spare, in terms of the weights. */
  lemma StillBorderline(f0: seq<int>, n: nat, limit: nat, a: nat)
    requires n <= |f0| && n <= HUFMAX && (limit == 15 || limit == 7) && n < MaxProb(limit) && forall i :: 0 <= i < n ==> f0[i] >= 0
    requires !FitsIn(f0, n, limit) && a == Adjustment(f0, n, limit) && Excess(Raised(f0, n, a), n, limit) == 0
    ensures Borderline(Active(Raised(f0, n, a), n), MaxProb(limit))
  {
    hide Total, FitsIn, Sum, Smallest, Active, CountPositive;
    OverlongHasExcess(f0, n, limit);
    RaisedExcess(f0, n, limit, a);
    Surveyed(Raised(f0, n, a), n);
    assert IsSmallest(Active(Raised(f0, n, a), n), Smallest(Raised(f0, n, a), n));
  }

  lemma InventedNonNegative(fs: seq<int>, n: nat)
    requires n <= |fs| && forall i :: 0 <= i < n ==> fs[i] >= 0
    ensures forall i :: 0 <= i < n ==> Invented(fs, n)[i] >= 0
  {
  }

  lemma RaisedByZero(fs: seq<int>, n: nat)
    requires n <= |fs|
    ensures Raised(fs, n, 0) == fs
  {
  }

  lemma {:induction false} UsedSymbol(fs: seq<int>, n: nat, v: int)
    requires n <= |fs| && v in Active(fs, n)
    ensures CountPositive(fs, n) > 0
    decreases n
  {
    if v < n - 1 {
      assert v in Active(fs, n - 1);
      UsedSymbol(fs, n - 1, v);
    }
  }
}

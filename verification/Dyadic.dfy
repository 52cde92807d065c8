/** Where every frequency is the power of two that some complete code asks for, Huffman's
    code is that code, whatever the ties. */
module Dyadic {
  import opened Bits
  import opened Kraft
  import opened HuffmanTheory
  import opened Huffman

  /** w wants the lengths l. */
  ghost predicate Wants(w: Weights, l: Lengths, max: nat) {
    w.Keys == l.Keys && forall i :: i in w ==> l[i] <= max && w[i] == Pow2(max - l[i])
  }

  /** One symbol's share of the code space, in units of 2^-(max + k): at least 1 + l - d times
      its weight, and more unless d is l or l - 1. */
  lemma {:induction false} Share(max: nat, k: nat, l: nat, d: nat)
    requires l <= max && d <= max + k
    ensures Pow2(max + k - d) >= Pow2(k) * (Pow2(max - l) * (1 + l - d))
    ensures Pow2(max + k - d) == Pow2(k) * (Pow2(max - l) * (1 + l - d)) ==> d == l || d + 1 == l
  {
    hide Pow2;
    if d > l {
      NotPositive(Pow2(k), Pow2(max - l), 1 + l - d);
    } else {
      var n := l - d;
      PowSum(max - l, n);
      PowSum(k, max - d);
      AboveLine(n);
      Scaled(Pow2(k), Pow2(max - l), Pow2(n), 1 + n);
    }
  }

  lemma {:induction false} AboveLine(n: nat)
    ensures Pow2(n) >= 1 + n && (Pow2(n) == 1 + n ==> n <= 1)
  {
    if n > 0 {
      AboveLine(n - 1);
    }
  }

  lemma NotPositive(a: nat, b: nat, c: int)
    requires c <= 0
    ensures a * (b * c) <= 0
  {
  }

  lemma Scaled(a: nat, b: nat, x: nat, y: nat)
    requires a > 0 && b > 0 && x >= y
    ensures a * (b * x) >= a * (b * y) && (a * (b * x) == a * (b * y) ==> x == y)
  {
    var z := x - y;
    assert b * x == b * y + b * z;
    assert a * (b * x) == a * (b * y) + a * (b * z);
    if z > 0 {
      assert b * z > 0;
      assert a * (b * z) > 0;
    }
  }

  /** Summed up over all symbols. */
  lemma {:induction false} Shares(w: Weights, l: Lengths, d: Lengths, max: nat, k: nat)
    requires Wants(w, l, max) && d.Keys == w.Keys && forall i :: i in d ==> d[i] <= max + k
    ensures var line := Pow2(k) * (Total(w) + Cost(w, l) - Cost(w, d));
      && KraftSum(d, max + k) >= line
      && (KraftSum(d, max + k) == line ==> forall i :: i in w ==> d[i] == l[i] || d[i] + 1 == l[i])
    decreases |w|
  {
    hide Pow2, Total;
    if i :| i in w {
      var w', l', d' := w - {i}, l - {i}, d - {i};
      Shares(w', l', d', max, k);
      TotalRemove(w, i);
      CostRemove(w, l, i);
      CostRemove(w, d, i);
      KraftRemove(d, max + k, i);
      Share(max, k, l[i], d[i]);
      hide Cost, KraftSum;
      OneShare(Pow2(k), w[i], l[i], d[i], Total(w') + Cost(w', l') - Cost(w', d'));
      forall j | j in w && KraftSum(d, max + k) == Pow2(k) * (Total(w) + Cost(w, l) - Cost(w, d))
        ensures d[j] == l[j] || d[j] + 1 == l[j]
      {
        if j != i {
          assert j in w';
        }
      }
    } else {
      NoShares(w, l, d, max + k);
    }
  }

  lemma OneShare(p: int, w: int, l: int, d: int, rest: int)
    ensures p * (w + rest + w * l - w * d) == p * (w * (1 + l - d)) + p * rest
  {
    assert w * (1 + l - d) == w + w * l - w * d;
  }

  lemma NoShares(w: Weights, l: Lengths, d: Lengths, max: nat)
    requires l.Keys == w.Keys == d.Keys && forall i :: i !in w
    requires forall i :: i in d ==> d[i] <= max
    ensures Total(w) == 0 && Cost(w, l) == 0 && Cost(w, d) == 0 && KraftSum(d, max) == 0
  {
  }

  /** Lengths that are nowhere longer and cost no less are the same. */
  lemma {:induction false} NowhereLonger(w: Weights, l: Lengths, d: Lengths)
    requires w.Keys == l.Keys == d.Keys && forall i :: i in w ==> w[i] > 0 && d[i] <= l[i]
    ensures Cost(w, d) <= Cost(w, l) && (Cost(w, d) == Cost(w, l) ==> d == l)
    decreases |w|
  {
    hide Total;
    if i :| i in w {
      var w', l', d' := w - {i}, l - {i}, d - {i};
      NowhereLonger(w', l', d');
      CostRemove(w, l, i);
      CostRemove(w, d, i);
      Longer(w[i], l[i], d[i]);
      if Cost(w, d) == Cost(w, l) {
        assert d' == l';
        assert forall j :: j in d ==> d[j] == if j == i then l[i] else l'[j];
      }
    } else {
      NoShares(w, l, d, 0);
      assert d.Keys == l.Keys == {};
    }
  }

  lemma Longer(w: nat, l: nat, d: nat)
    requires w > 0 && d <= l
    ensures w * d <= w * l && (w * d == w * l ==> d == l)
  {
    assert w * l == w * d + w * (l - d);
  }

  /** Huffman's lengths are the ones wanted. */
  lemma WantedIsHuffman(w: Weights, l: Lengths, d: Lengths, max: nat)
    requires Wants(w, l, max) && Total(w) == Pow2(max) && max <= 2 * HUFMAX - 1 && IsHuffman(w, d)
    ensures d == l
  {
    Room();
    hide *;
    PositiveWeights(w, l, max);
    if exists i :: i in w {
      Weighed(w, l, d, max);
    } else {
      NoKeys(w, d);
      assert d.Keys == l.Keys == {};
    }
  }

  lemma Room()
    ensures 2 * HUFMAX - 1 >= 0
  {
  }

  lemma Weighed(w: Weights, l: Lengths, d: Lengths, max: nat)
    requires Wants(w, l, max) && Total(w) == Pow2(max) && max <= 2 * HUFMAX - 1 && IsHuffman(w, d) && exists i :: i in w
    ensures d == l
  {
    Room();
    hide *;
    var m: nat := 2 * HUFMAX - 1;
    var k := m - max;
    WantedFits(w, l, max);
    HuffmanIs(w, d, l, max);
    PositiveWeights(w, l, max);
    PowSum(max, k);
    Shares(w, l, d, max, k);
    Scales(Pow2(k), Pow2(max), Cost(w, l) - Cost(w, d));
    NowhereLonger(w, l, d);
  }

  lemma NoKeys(w: Weights, d: Lengths)
    requires IsHuffman(w, d)
    ensures d.Keys == w.Keys
  {
    hide Optimal, FibonacciBounded;
  }

  lemma HuffmanIs(w: Weights, d: Lengths, l: Lengths, max: nat)
    requires IsHuffman(w, d) && (exists i :: i in w) && l.Keys == w.Keys && Feasible(l, max)
    ensures d.Keys == w.Keys && (forall i :: i in d ==> d[i] <= 2 * HUFMAX - 1)
    ensures KraftSum(d, 2 * HUFMAX - 1) == Pow2(2 * HUFMAX - 1) && Cost(w, d) <= Cost(w, l)
  {
    hide FibonacciBounded, KraftSum, Cost, Pow2, Feasible;
  }

  lemma PositiveWeights(w: Weights, l: Lengths, max: nat)
    requires Wants(w, l, max)
    ensures w.Keys == l.Keys && forall i :: i in w ==> w[i] > 0
  {
  }

  lemma WantedFits(w: Weights, l: Lengths, max: nat)
    requires Wants(w, l, max) && Total(w) == Pow2(max)
    ensures Feasible(l, max) && l.Keys == w.Keys && KraftSum(l, max) == Total(w)
  {
    var m: Weights := map i | i in l :: Pow2(max - l[i]);
    assert m.Keys == w.Keys;
    assert forall i :: i in m ==> m[i] == w[i];
    assert m == w;
  }

  lemma Scales(a: int, b: int, c: int)
    requires a > 0 && c >= 0 && a * b >= a * (b + c)
    ensures c == 0
  {
    assert a * (b + c) == a * b + a * c;
  }
}

/** Sums over finite maps, and the Kraft-sum argument behind Huffman's
    optimality: merging the two rarest symbols loses nothing. */
module Kraft {
  import opened Bits

  type Weights = map<int, nat>
  type Lengths = map<int, nat>

  ghost function Total(m: map<int, int>): int
    decreases |m|
  {
    if !(exists k :: k in m) then 0 else
      var k :| k in m;
      m[k] + Total(m - {k})
  }

  lemma {:induction false} TotalRemove(m: map<int, int>, k: int)
    requires k in m
    ensures Total(m) == m[k] + Total(m - {k})
    decreases |m|
  {
    var y :| y in m && Total(m) == m[y] + Total(m - {y});
    if y != k {
      TotalRemove(m - {y}, k);
      TotalRemove(m - {k}, y);
      assert m - {y} - {k} == m - {k} - {y};
    }
  }

  /** Sum of weight times length. */
  ghost function Cost(w: Weights, l: Lengths): int
    requires w.Keys == l.Keys
  {
    Total(map i | i in w :: w[i] * l[i])
  }

  /** The Kraft sum of l, scaled by 2^max. */
  ghost function KraftSum(l: Lengths, max: nat): int
    requires forall i :: i in l ==> l[i] <= max
  {
    Total(map i | i in l :: Pow2(max - l[i]))
  }

  /** l is a length assignment that some prefix code could have. */
  ghost predicate Feasible(l: Lengths, max: nat) {
    && (forall i :: i in l ==> l[i] <= max)
    && KraftSum(l, max) <= Pow2(max)
  }

  lemma CostRemove(w: Weights, l: Lengths, k: int)
    requires w.Keys == l.Keys && k in w
    ensures Cost(w, l) == w[k] * l[k] + Cost(w - {k}, l - {k})
  {
    var m := map i | i in w :: w[i] * l[i];
    TotalRemove(m, k);
    assert m - {k} == map i | i in w - {k} :: (w - {k})[i] * (l - {k})[i];
  }

  lemma KraftRemove(l: Lengths, max: nat, k: int)
    requires k in l && forall i :: i in l ==> l[i] <= max
    ensures KraftSum(l, max) == Pow2(max - l[k]) + KraftSum(l - {k}, max)
  {
    var m := map i | i in l :: Pow2(max - l[i]);
    TotalRemove(m, k);
    assert m - {k} == map i | i in l - {k} :: Pow2(max - (l - {k})[i]);
  }

  lemma CostRemoveTwo(w: Weights, l: Lengths, a: int, b: int)
    requires w.Keys == l.Keys && a in w && b in w && a != b
    ensures Cost(w, l) == w[a] * l[a] + w[b] * l[b] + Cost(w - {a} - {b}, l - {a} - {b})
  {
    CostRemove(w, l, a);
    CostRemove(w - {a}, l - {a}, b);
  }

  lemma KraftRemoveTwo(l: Lengths, max: nat, a: int, b: int)
    requires forall i :: i in l ==> l[i] <= max
    requires a in l && b in l && a != b
    ensures KraftSum(l, max) == Pow2(max - l[a]) + Pow2(max - l[b]) + KraftSum(l - {a} - {b}, max)
  {
    KraftRemove(l, max, a);
    KraftRemove(l - {a}, max, b);
  }

  lemma KraftEmpty(l: Lengths, max: nat)
    requires forall k :: k !in l
    ensures KraftSum(l, max) == 0
  {
  }

  lemma {:induction false} KraftNonNegative(l: Lengths, max: nat)
    requires forall i :: i in l ==> l[i] <= max
    ensures KraftSum(l, max) >= 0
    decreases |l|
  {
    hide Total, KraftSum;
    if k :| k in l {
      KraftRemove(l, max, k);
      KraftNonNegative(l - {k}, max);
    } else {
      KraftEmpty(l, max);
    }
  }

  /** When every length is below max the scaled Kraft sum is even. */
  lemma {:induction false} KraftHalves(l: Lengths, max: nat)
    requires max >= 1 && forall i :: i in l ==> l[i] < max
    ensures KraftSum(l, max) == 2 * KraftSum(l, max - 1)
    decreases |l|
  {
    hide Total, KraftSum;
    if k :| k in l {
      KraftRemove(l, max, k);
      KraftRemove(l, max - 1, k);
      KraftHalves(l - {k}, max);
    } else {
      KraftEmpty(l, max);
      KraftEmpty(l, max - 1);
    }
  }

  /** a and b are two lightest symbols, a the lighter. */
  ghost predicate TwoLightest(w: Weights, a: int, b: int) {
    && a in w && b in w && a != b
    && (forall k :: k in w ==> w[a] <= w[k])
    && (forall k :: k in w && k != a ==> w[b] <= w[k])
  }

  ghost function Merged(w: Weights, a: int, b: int, n: int): Weights
    requires a in w && b in w
  {
    (w - {a, b})[n := w[a] + w[b]]
  }

  /** Handing the longest length to a lighter symbol costs nothing. */
  lemma Exchange(w: Weights, l: Lengths, max: nat, a: int, x: int)
    requires w.Keys == l.Keys && Feasible(l, max)
    requires a in w && x in w && w[a] <= w[x] && l[x] == max
    ensures var e := l[x := l[a]][a := max]; e.Keys == l.Keys && Feasible(e, max) && Cost(w, e) <= Cost(w, l)
  {
    var e := l[x := l[a]][a := max];
    if a != x {
      assert e - {a} - {x} == l - {a} - {x};
      assert Feasible(e, max) by {
        KraftRemoveTwo(l, max, a, x);
        KraftRemoveTwo(e, max, a, x);
      }
      CostRemoveTwo(w, l, a, x);
      CostRemoveTwo(w, e, a, x);
      ExchangeArithmetic(w[a], w[x], l[a], max);
    } else {
      assert e == l;
    }
  }

  lemma ExchangeArithmetic(wa: nat, wx: nat, la: nat, lx: nat)
    requires wa <= wx && la <= lx
    ensures wa * lx + wx * la <= wa * la + wx * lx
  {
    assert wa * la + wx * lx - wa * lx - wx * la == (wx - wa) * (lx - la);
  }

  /** A lone longest codeword can be shortened by one bit. */
  lemma ShortenLone(w: Weights, l: Lengths, max: nat, x: int)
    requires w.Keys == l.Keys && Feasible(l, max) && max >= 1
    requires x in l && l[x] == max && forall k :: k in l && k != x ==> l[k] < max
    ensures var s := l[x := max - 1]; Feasible(s, max) && Cost(w, s) <= Cost(w, l)
  {
    hide Total, Cost, KraftSum;
    var s := l[x := max - 1];
    assert s - {x} == l - {x};
    assert Feasible(s, max) by {
      KraftRemove(l, max, x);
      KraftRemove(s, max, x);
      KraftHalves(l - {x}, max);
      assert Pow2(0) == 1 && Pow2(1) == 2 && Pow2(max) % 2 == 0;
    }
    CostRemove(w, l, x);
    CostRemove(w, s, x);
    assert w[x] * max == w[x] * (max - 1) + w[x];
  }

  /** Two zero lengths overfill the code space. */
  lemma TwoNeedABit(l: Lengths, max: nat, a: int, b: int)
    requires Feasible(l, max) && a in l && b in l && a != b
    ensures max >= 1
  {
    KraftRemove(l, max, a);
    KraftRemove(l - {a}, max, b);
    KraftNonNegative(l - {a} - {b}, max);
  }

  /** Two siblings at the bottom merge into one symbol one bit higher up. */
  lemma MergeSiblings(w: Weights, l: Lengths, max: nat, a: int, b: int, n: int) returns (r: Lengths)
    requires w.Keys == l.Keys && Feasible(l, max)
    requires a in w && b in w && a != b && n !in w
    requires max >= 1 && l[a] == max && l[b] == max
    ensures r == (l - {a, b})[n := max - 1] && Feasible(r, max)
    ensures r.Keys == Merged(w, a, b, n).Keys
    ensures Cost(w, l) == Cost(Merged(w, a, b, n), r) + w[a] + w[b]
    ensures KraftSum(l, max) == KraftSum(r, max)
  {
    r := (l - {a, b})[n := max - 1];
    var v := Merged(w, a, b, n);
    assert l - {a} - {b} == r - {n} && w - {a} - {b} == v - {n};
    assert KraftSum(l, max) == KraftSum(r, max) by {
      KraftRemoveTwo(l, max, a, b);
      KraftRemove(r, max, n);
      assert Pow2(0) == 1 && Pow2(1) == 2;
    }
    CostRemoveTwo(w, l, a, b);
    CostRemove(v, r, n);
    MergedWeight(w[a], w[b], max);
  }

  lemma MergedWeight(wa: nat, wb: nat, max: nat)
    requires max >= 1
    ensures wa * max + wb * max == (wa + wb) * (max - 1) + wa + wb
  {
  }

  /** Merging the two lightest symbols: every feasible assignment is at least
      as dear as some feasible assignment of the merged alphabet plus the
      merged weight. */
  lemma {:induction false} MergeBound(w: Weights, l: Lengths, max: nat, a: int, b: int, n: int)
    returns (r: Lengths, rmax: nat)
    requires w.Keys == l.Keys && Feasible(l, max)
    requires TwoLightest(w, a, b) && n !in w
    ensures r.Keys == Merged(w, a, b, n).Keys && Feasible(r, rmax)
    ensures Cost(w, l) >= Cost(Merged(w, a, b, n), r) + w[a] + w[b]
    decreases max
  {
    hide Total, Cost, KraftSum;
    TwoNeedABit(l, max, a, b);
    if x, y :| x in l && y in l && x != y && l[x] == max && l[y] == max {
      Exchange(w, l, max, a, x);
      var e := l[x := l[a]][a := max];
      var z := if y == a then x else y;
      assert z != a && e[z] == max;
      Exchange(w, e, max, b, z);
      var f := e[z := e[b]][b := max];
      assert f[a] == max && f[b] == max;
      r := MergeSiblings(w, f, max, a, b, n);
      rmax := max;
    } else {
      var s := l;
      if x :| x in l && l[x] == max {
        assert forall y :: y in l && y != x ==> l[y] < max;
        ShortenLone(w, l, max, x);
        s := l[x := max - 1];
      }
      KraftHalves(s, max);
      r, rmax := MergeBound(w, s, max - 1, a, b, n);
    }
  }
}

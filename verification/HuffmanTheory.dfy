/** What the merging loop of buildhuf leaves behind: a history of ever smaller
    weighted alphabets, and a link from every merged node to its parent.
    The depths read off those links are complete, optimal and
    Fibonacci-bounded. */
module HuffmanTheory {
  import opened Bits
  import opened Kraft

  const HUFMAX: nat := 286

  ghost predicate WellLinked(parent: seq<int>) {
    forall i :: 0 <= i < |parent| && parent[i] != 0 ==> i < parent[i] < |parent|
  }

  /** Steps from node i to the root of its tree; 0 marks "no parent". */
  ghost function Depth(parent: seq<int>, i: nat): (d: nat)
    requires WellLinked(parent) && i < |parent|
    ensures d <= |parent| - i
    decreases |parent| - i
  {
    if parent[i] == 0 then 0 else 1 + Depth(parent, parent[i])
  }

  /** alphabets[k] is the weighted alphabet after k merges; merge k joined the
      two nodes merges[k] into the new node HUFMAX + k. */
  datatype History = History(alphabets: seq<Weights>, merges: seq<(int, int)>)

  ghost predicate Run(h: History) {
    && |h.alphabets| == |h.merges| + 1
    && (forall k :: 0 <= k < |h.merges| ==> Step(h, k))
    && (forall k, i :: 0 <= k < |h.alphabets| && i in h.alphabets[k] ==> 0 <= i < HUFMAX + k)
  }

  ghost predicate Step(h: History, k: nat)
    requires k < |h.merges| && |h.alphabets| == |h.merges| + 1
  {
    && TwoLightest(h.alphabets[k], h.merges[k].0, h.merges[k].1)
    && h.alphabets[k + 1] == Merged(h.alphabets[k], h.merges[k].0, h.merges[k].1, HUFMAX + k)
  }

  /** Every merge is visible in the links of the two nodes it merged. */
  ghost predicate MergesLinked(h: History, parent: seq<int>)
    requires HUFMAX + |h.merges| <= |parent|
  {
    forall k :: 0 <= k < |h.merges| ==>
      && 0 <= h.merges[k].0 < HUFMAX + k && 0 <= h.merges[k].1 < HUFMAX + k
      && parent[h.merges[k].0] == HUFMAX + k && parent[h.merges[k].1] == HUFMAX + k
  }

  /** Every link comes from a merge. */
  ghost predicate LinksMerged(h: History, parent: seq<int>) {
    forall i :: 0 <= i < |parent| && parent[i] != 0 ==>
      && HUFMAX <= parent[i] < HUFMAX + |h.merges|
      && (i == h.merges[parent[i] - HUFMAX].0 || i == h.merges[parent[i] - HUFMAX].1)
  }

  /** The nodes of an alphabet are roots. */
  ghost predicate Roots(w: Weights, parent: seq<int>) {
    forall i :: i in w ==> 0 <= i < |parent| && parent[i] == 0
  }

  /** The parent links record exactly the merges of h. */
  ghost predicate Recorded(h: History, parent: seq<int>)
    requires |h.alphabets| == |h.merges| + 1
  {
    && HUFMAX + |h.merges| <= |parent|
    && MergesLinked(h, parent)
    && LinksMerged(h, parent)
    && Roots(h.alphabets[|h.merges|], parent)
  }

  lemma MergeLinks(h: History, parent: seq<int>, k: nat)
    requires |h.alphabets| == |h.merges| + 1 && Recorded(h, parent) && k < |h.merges|
    ensures 0 <= h.merges[k].0 < HUFMAX + k < |parent| && 0 <= h.merges[k].1 < HUFMAX + k
    ensures parent[h.merges[k].0] == HUFMAX + k == parent[h.merges[k].1]
  {
  }

  lemma ParentMerge(h: History, parent: seq<int>, i: nat)
    requires |h.alphabets| == |h.merges| + 1 && Recorded(h, parent) && i < |parent| && parent[i] != 0
    ensures HUFMAX <= parent[i] < HUFMAX + |h.merges|
    ensures i == h.merges[parent[i] - HUFMAX].0 || i == h.merges[parent[i] - HUFMAX].1
  {
  }

  /** Only nodes below the newest one have parents. */
  lemma LinkedBelow(h: History, parent: seq<int>, i: nat)
    requires |h.alphabets| == |h.merges| + 1 && Recorded(h, parent) && i < |parent|
    ensures parent[i] != 0 ==> i + 1 < HUFMAX + |h.merges|
  {
    hide Recorded;
    if parent[i] != 0 {
      ParentMerge(h, parent, i);
      MergeLinks(h, parent, parent[i] - HUFMAX);
    }
  }

  /** A finished run: linked, and at most one node left. */
  ghost predicate Finished(h: History, parent: seq<int>) {
    && Run(h) && Recorded(h, parent) && WellLinked(parent)
    && (forall i, j :: i in h.alphabets[|h.merges|] && j in h.alphabets[|h.merges|] ==> i == j)
  }

  ghost function Depths(h: History, parent: seq<int>, k: nat): (d: Lengths)
    requires Finished(h, parent) && k < |h.alphabets|
    ensures d.Keys == h.alphabets[k].Keys
    ensures forall i :: i in d ==> d[i] <= |parent|
  {
    map i | i in h.alphabets[k] :: Depth(parent, i)
  }

  ghost predicate Optimal(w: Weights, d: Lengths)
    requires w.Keys == d.Keys
  {
    forall l: Lengths, max {:trigger Feasible(l, max)} ::
      l.Keys == w.Keys && Feasible(l, max) ==> Cost(w, d) <= Cost(w, l)
  }

  /** Splitting symbol n into a and b one bit further down. */
  lemma Unmerge(w: Weights, l: Lengths, r: Lengths, a: int, b: int, n: int, max: nat)
    requires a in w && b in w && a != b && n !in w
    requires l.Keys == w.Keys && r.Keys == Merged(w, a, b, n).Keys
    requires l[a] == l[b] == r[n] + 1
    requires forall i :: i in l && i != a && i != b ==> l[i] == r[i]
    requires (forall i :: i in l ==> l[i] <= max) && (forall i :: i in r ==> r[i] <= max)
    ensures Cost(w, l) == Cost(Merged(w, a, b, n), r) + w[a] + w[b]
    ensures KraftSum(l, max) == KraftSum(r, max)
  {
    hide Total, Cost, KraftSum;
    assert (l - {a} - {b}).Keys == (r - {n}).Keys;
    assert forall i :: i in r - {n} ==> (l - {a} - {b})[i] == (r - {n})[i];
    assert l - {a} - {b} == r - {n};
    assert w - {a} - {b} == Merged(w, a, b, n) - {n};
    KraftRemoveTwo(l, max, a, b);
    KraftRemove(r, max, n);
    CostRemoveTwo(w, l, a, b);
    CostRemove(Merged(w, a, b, n), r, n);
    MergedWeight(w[a], w[b], r[n] + 1);
  }

  lemma StepDepths(h: History, parent: seq<int>, k: nat)
    requires Finished(h, parent) && k < |h.merges|
    ensures Step(h, k) && HUFMAX + k !in h.alphabets[k] && HUFMAX + k in h.alphabets[k + 1]
    ensures Depths(h, parent, k)[h.merges[k].0] == Depths(h, parent, k + 1)[HUFMAX + k] + 1
    ensures Depths(h, parent, k)[h.merges[k].1] == Depths(h, parent, k + 1)[HUFMAX + k] + 1
    ensures forall i :: i in h.alphabets[k] && i != h.merges[k].0 && i != h.merges[k].1 ==>
      i in h.alphabets[k + 1] && Depths(h, parent, k)[i] == Depths(h, parent, k + 1)[i]
  {
    MergeLinks(h, parent, k);
  }

  lemma RootDepth(h: History, parent: seq<int>, r: int)
    requires Finished(h, parent) && r in h.alphabets[|h.merges|]
    ensures 0 <= r < |parent| && parent[r] == 0 && Depths(h, parent, |h.merges|)[r] == 0
  {
  }

  lemma TotalSingleton(m: map<int, int>, k: int)
    requires k in m && forall i :: i in m ==> i == k
    ensures Total(m) == m[k]
  {
    TotalRemove(m, k);
    assert forall i :: i !in m - {k};
  }

  lemma CostSingleton(w: Weights, l: Lengths, r: int)
    requires w.Keys == l.Keys && r in w && forall i :: i in w ==> i == r
    ensures Cost(w, l) == w[r] * l[r]
  {
    TotalSingleton(map i | i in w :: w[i] * l[i], r);
  }

  lemma KraftSingleton(d: Lengths, r: int, max: nat)
    requires r in d && (forall i :: i in d ==> i == r) && d[r] == 0
    ensures KraftSum(d, max) == Pow2(max)
  {
    hide Total, Pow2;
    var m := map i | i in d :: Pow2(max - d[i]);
    assert m[r] == Pow2(max);
    TotalSingleton(m, r);
  }

  /** A one-symbol alphabet with length 0 is complete and cannot be beaten. */
  lemma SingletonOptimal(w: Weights, d: Lengths, r: int, max: nat)
    requires w.Keys == d.Keys && r in w && (forall i :: i in w ==> i == r) && d[r] == 0
    ensures Optimal(w, d) && KraftSum(d, max) == Pow2(max)
  {
    hide Total, Cost, KraftSum, Pow2;
    KraftSingleton(d, r, max);
    CostSingleton(w, d, r);
    forall l: Lengths, m | l.Keys == w.Keys && Feasible(l, m)
      ensures Cost(w, d) <= Cost(w, l)
    {
      CostSingleton(w, l, r);
    }
  }

  /** buildhuf's lengths are optimal and complete at every stage of the merging. */
  lemma {:induction false} DepthsOptimal(h: History, parent: seq<int>, k: nat)
    requires Finished(h, parent) && k < |h.alphabets|
    requires exists i :: i in h.alphabets[k]
    ensures Optimal(h.alphabets[k], Depths(h, parent, k))
    ensures KraftSum(Depths(h, parent, k), |parent|) == Pow2(|parent|)
    decreases |h.alphabets| - k
  {
    hide Total, Cost, KraftSum, Depth, Depths, Recorded, WellLinked;
    var w := h.alphabets[k];
    var d := Depths(h, parent, k);
    if k == |h.merges| {
      var r :| r in w;
      RootDepth(h, parent, r);
      SingletonOptimal(w, d, r, |parent|);
    } else {
      StepDepths(h, parent, k);
      DepthsOptimal(h, parent, k + 1);
      StepOptimal(w, d, Depths(h, parent, k + 1), h.merges[k].0, h.merges[k].1, HUFMAX + k, |parent|);
    }
  }

  /** An optimal assignment for the merged alphabet stays optimal when the
      merged symbol is split. */
  lemma StepOptimal(w: Weights, d: Lengths, e: Lengths, a: int, b: int, n: int, max: nat)
    requires TwoLightest(w, a, b) && n !in w
    requires d.Keys == w.Keys && e.Keys == Merged(w, a, b, n).Keys
    requires d[a] == d[b] == e[n] + 1
    requires forall i :: i in d && i != a && i != b ==> d[i] == e[i]
    requires (forall i :: i in d ==> d[i] <= max) && (forall i :: i in e ==> e[i] <= max)
    requires Optimal(Merged(w, a, b, n), e) && KraftSum(e, max) == Pow2(max)
    ensures Optimal(w, d) && KraftSum(d, max) == Pow2(max)
  {
    hide Total, Cost, KraftSum;
    Unmerge(w, d, e, a, b, n, max);
    forall l: Lengths, lmax | l.Keys == w.Keys && Feasible(l, lmax)
      ensures Cost(w, d) <= Cost(w, l)
    {
      var r, rmax := MergeBound(w, l, lmax, a, b, n);
      assert Feasible(r, rmax);
    }
  }

  // ---- The Fibonacci bound on code lengths

  function Fib(n: nat): nat {
    if n < 2 then n else Fib(n - 2) + Fib(n - 1)
  }

  lemma FibStep(d: nat, s: nat)
    ensures Fib(d + 3) * s == Fib(d + 1) * s + Fib(d + 2) * s
  {
    assert Fib(d + 3) == Fib(d + 1) + Fib(d + 2);
  }

  /** A node keeps its weight from stage j to stage k. */
  lemma {:induction false} Persist(h: History, j: nat, k: nat, i: int)
    requires Run(h) && j <= k < |h.alphabets|
    requires i in h.alphabets[k] && i < HUFMAX + j
    ensures i in h.alphabets[j] && h.alphabets[j][i] == h.alphabets[k][i]
    decreases k
  {
    if j < k {
      assert Step(h, k - 1);
      Persist(h, j, k - 1, i);
    }
  }

  /** An unmerged node is still there at the end. */
  lemma {:induction false} Stays(h: History, parent: seq<int>, j: nat, i: int)
    requires Run(h) && Recorded(h, parent) && j < |h.alphabets|
    requires i in h.alphabets[j] && i < |parent| && parent[i] == 0
    ensures i in h.alphabets[|h.merges|] && h.alphabets[|h.merges|][i] == h.alphabets[j][i]
    decreases |h.merges| - j
  {
    hide Recorded;
    if j < |h.merges| {
      assert Step(h, j);
      MergeLinks(h, parent, j);
      Stays(h, parent, j + 1, i);
    }
  }

  /** Whatever is around after a merge is no lighter than what was merged. */
  lemma {:induction false} LaterHeavier(h: History, j: nat, k: nat, i: int)
    requires Run(h) && j < k < |h.alphabets| && i in h.alphabets[k]
    requires h.merges[j].0 in h.alphabets[j] && h.merges[j].1 in h.alphabets[j]
    ensures h.alphabets[j][h.merges[j].0] <= h.alphabets[k][i]
    ensures h.alphabets[j][h.merges[j].1] <= h.alphabets[k][i]
    decreases k
  {
    assert Step(h, k - 1) && Step(h, j);
    if j < k - 1 {
      if i == HUFMAX + k - 1 {
        LaterHeavier(h, j, k - 1, h.merges[k - 1].0);
      } else {
        LaterHeavier(h, j, k - 1, i);
      }
    }
  }

  /** Every node at every stage weighs at least the lightest symbol. */
  lemma {:induction false} AllAtLeast(h: History, k: nat, i: int, s: nat)
    requires Run(h) && k < |h.alphabets| && i in h.alphabets[k]
    requires forall x :: x in h.alphabets[0] ==> s <= h.alphabets[0][x]
    ensures s <= h.alphabets[k][i]
    decreases k
  {
    if k > 0 {
      assert Step(h, k - 1);
      if i == HUFMAX + k - 1 {
        AllAtLeast(h, k - 1, h.merges[k - 1].0, s);
      } else {
        AllAtLeast(h, k - 1, i, s);
      }
    }
  }

  lemma TotalMerged(w: Weights, a: int, b: int, n: int)
    requires a in w && b in w && a != b && n !in w
    ensures Total(Merged(w, a, b, n)) == Total(w)
  {
    hide Total;
    TotalRemove(w, a);
    TotalRemove(w - {a}, b);
    TotalRemove(Merged(w, a, b, n), n);
    assert Merged(w, a, b, n) - {n} == w - {a} - {b};
  }

  /** Merging conserves the total weight. */
  lemma {:induction false} TotalConserved(h: History, k: nat)
    requires Run(h) && k < |h.alphabets|
    ensures Total(h.alphabets[k]) == Total(h.alphabets[0])
  {
    hide Total;
    if k > 0 {
      assert Step(h, k - 1);
      TotalMerged(h.alphabets[k - 1], h.merges[k - 1].0, h.merges[k - 1].1, HUFMAX + k - 1);
      TotalConserved(h, k - 1);
    }
  }

  lemma RootHasTotal(h: History, parent: seq<int>, i: int)
    requires Finished(h, parent) && i in h.alphabets[|h.merges|]
    ensures h.alphabets[|h.merges|][i] == Total(h.alphabets[0])
  {
    hide Total;
    TotalConserved(h, |h.merges|);
    TotalSingleton(h.alphabets[|h.merges|], i);
  }

  /** A linked node was merged with exactly one sibling. */
  lemma Sibling(h: History, parent: seq<int>, v: nat) returns (k: nat, u: int)
    requires Finished(h, parent) && v < |parent| && parent[v] != 0
    ensures k < |h.merges| && parent[v] == HUFMAX + k
    ensures h.merges[k] == (v, u) || h.merges[k] == (u, v)
    ensures v in h.alphabets[k] && u in h.alphabets[k]
  {
    hide Recorded, WellLinked;
    ParentMerge(h, parent, v);
    k := parent[v] - HUFMAX;
    assert Step(h, k);
    u := if h.merges[k].0 == v then h.merges[k].1 else h.merges[k].0;
  }

  lemma MergedNode(h: History, parent: seq<int>, k: nat, v: int, u: int)
    requires Finished(h, parent) && k < |h.merges|
    requires h.merges[k] == (v, u) || h.merges[k] == (u, v)
    ensures v in h.alphabets[k] && u in h.alphabets[k] && HUFMAX + k in h.alphabets[k + 1]
    ensures h.alphabets[k + 1][HUFMAX + k] == h.alphabets[k][v] + h.alphabets[k][u]
    ensures 0 <= v < |parent| && HUFMAX + k < |parent|
    ensures Depth(parent, v) == 1 + Depth(parent, HUFMAX + k)
  {
    assert Step(h, k);
    MergeLinks(h, parent, k);
  }

  lemma RootIsTotal(h: History, parent: seq<int>, j: nat, i: int)
    requires Finished(h, parent) && j < |h.alphabets| && i in h.alphabets[j]
    requires 0 <= i < |parent| && parent[i] == 0
    ensures h.alphabets[j][i] == Total(h.alphabets[0]) && Depth(parent, i) == 0
  {
    hide Total;
    Stays(h, parent, j, i);
    RootHasTotal(h, parent, i);
  }

  /** Climbing from node v, merged at step k with sibling u, the weights grow
      at least like the Fibonacci numbers. */
  lemma {:induction false} Climb(h: History, parent: seq<int>, k: nat, v: int, u: int, d: nat, s: nat)
    requires Finished(h, parent) && k < |h.merges|
    requires h.merges[k] == (v, u) || h.merges[k] == (u, v)
    requires v in h.alphabets[k] && u in h.alphabets[k] && 0 <= v < |parent|
    requires Fib(d + 2) * s <= h.alphabets[k][v] && Fib(d + 1) * s <= h.alphabets[k][u]
    ensures Fib(d + 2 + Depth(parent, v)) * s <= Total(h.alphabets[0])
    decreases |h.merges| - k
  {
    hide Total, Fib, Recorded, WellLinked, Depth, Step;
    MergedNode(h, parent, k, v, u);
    var p := HUFMAX + k;
    FibStep(d, s);
    if parent[p] == 0 {
      RootIsTotal(h, parent, k + 1, p);
    } else {
      var j, q := Sibling(h, parent, p);
      Persist(h, k + 1, j, p);
      LaterHeavier(h, k, j, q);
      Climb(h, parent, j, p, q, d + 1, s);
    }
  }

  lemma FibSmall(s: nat)
    ensures Fib(2) * s == s && Fib(1) * s == s && Fib(0 + 2) * s == s
  {
  }

  /** A symbol at depth d forces the total to reach F(d + 2) times the
      smallest weight. */
  lemma FibonacciBound(h: History, parent: seq<int>, v: int, s: nat)
    requires Finished(h, parent) && v in h.alphabets[0] && 0 <= v < |parent|
    requires forall x :: x in h.alphabets[0] ==> s <= h.alphabets[0][x]
    ensures Fib(Depth(parent, v) + 2) * s <= Total(h.alphabets[0])
  {
    hide Total, Recorded, WellLinked, Fib, Depth, Step;
    FibSmall(s);
    if parent[v] == 0 {
      RootIsTotal(h, parent, 0, v);
    } else {
      var k, u := Sibling(h, parent, v);
      AllAtLeast(h, k, v, s);
      AllAtLeast(h, k, u, s);
      Climb(h, parent, k, v, u, 0, s);
    }
  }

  lemma FibonacciBoundDepths(h: History, parent: seq<int>, v: int, s: nat)
    requires Finished(h, parent) && |h.alphabets| > 0 && v in h.alphabets[0]
    requires forall x :: x in h.alphabets[0] ==> s <= h.alphabets[0][x]
    ensures Fib(Depths(h, parent, 0)[v] + 2) * s <= Total(h.alphabets[0])
  {
    hide Total, Fib, Depth;
    FibonacciBound(h, parent, v, s);
  }
}

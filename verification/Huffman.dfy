/** buildhuf and deflate_buildhuf: Huffman code lengths from frequencies. */
module Huffman {
  import opened Bits
  import opened Kraft
  import opened HuffmanTheory
  import Heap

  /** The symbols that occur, with their frequencies. */
  ghost function Active(freqs: seq<int>, n: nat): (w: Weights)
    requires n <= |freqs|
  {
    map i | 0 <= i < n && freqs[i] > 0 :: freqs[i]
  }

  ghost predicate AtLeast(w: Weights, s: nat) {
    forall x :: x in w ==> s <= w[x]
  }

  ghost predicate FibonacciBounded(w: Weights, d: Lengths)
    requires d.Keys == w.Keys
  {
    forall v: int, s: nat {:trigger d[v], AtLeast(w, s)} ::
      v in w && AtLeast(w, s) ==> Fib(d[v] + 2) * s <= Total(w)
  }

  /** d are the code lengths of a Huffman code for w: they fill the code space
      exactly, no feasible assignment is cheaper, and long codes need a large
      total frequency. */
  ghost predicate IsHuffman(w: Weights, d: Lengths) {
    && d.Keys == w.Keys
    && (forall i :: i in d ==> d[i] <= 2 * HUFMAX - 1)
    && ((exists i :: i in w) ==>
          && KraftSum(d, 2 * HUFMAX - 1) == Pow2(2 * HUFMAX - 1)
          && Optimal(w, d)
          && FibonacciBounded(w, d))
  }

  /** The heap nodes are exactly the nodes of a weighted alphabet. */
  ghost predicate HeapHolds(ns: seq<Heap.Entry>, w: Weights) {
    forall e: Heap.Entry {:trigger multiset(ns)[e]} ::
      multiset(ns)[e] == if e.0 in w && w[e.0] == e.1 then 1 else 0
  }

  lemma HeapGrows(ns: seq<Heap.Entry>, w: Weights, after: seq<Heap.Entry>, i: int, f: nat)
    requires HeapHolds(ns, w) && i !in w
    requires multiset(after) == multiset(ns) + multiset{(i, f)}
    ensures HeapHolds(after, w[i := f])
  {
    forall e: Heap.Entry
      ensures multiset(after)[e] == if e.0 in w[i := f] && w[i := f][e.0] == e.1 then 1 else 0
    {
      assert multiset(after)[e] == multiset(ns)[e] + multiset{(i, f)}[e];
    }
  }

  lemma HeapShrinks(ns: seq<Heap.Entry>, w: Weights, after: seq<Heap.Entry>, i: int, f: int)
    requires HeapHolds(ns, w)
    requires multiset(ns) == multiset(after) + multiset{(i, f)}
    ensures i in w && w[i] == f && HeapHolds(after, w - {i})
  {
    assert multiset(ns)[(i, f)] >= 1;
    forall e: Heap.Entry
      ensures multiset(after)[e] == if e.0 in w - {i} && (w - {i})[e.0] == e.1 then 1 else 0
    {
      assert multiset(ns)[e] == multiset(after)[e] + multiset{(i, f)}[e];
    }
  }

  lemma HeapLeast(ns: seq<Heap.Entry>, w: Weights, key: int)
    requires HeapHolds(ns, w) && forall e :: e in ns ==> key <= e.1
    ensures forall x :: x in w ==> key <= w[x]
  {
    forall x | x in w
      ensures key <= w[x]
    {
      assert multiset(ns)[(x, w[x])] == 1;
      assert (x, w[x]) in ns;
    }
  }

  lemma HeapEmpty(ns: seq<Heap.Entry>, w: Weights)
    requires HeapHolds(ns, w) && |ns| <= 1
    ensures forall x, y :: x in w && y in w ==> x == y
  {
    forall x, y | x in w && y in w
      ensures x == y
    {
      assert multiset(ns)[(x, w[x])] == 1 && multiset(ns)[(y, w[y])] == 1;
      assert (x, w[x]) in ns && (y, w[y]) in ns;
    }
  }

  lemma TwoRemoved(w: Weights, a: int, fa: int, b: int, fb: int, n: int)
    requires a in w && w[a] == fa && b in w - {a} && (w - {a})[b] == fb
    requires (forall x :: x in w ==> fa <= w[x]) && (forall x :: x in w - {a} ==> fb <= (w - {a})[x])
    ensures TwoLightest(w, a, b)
    ensures (w - {a} - {b})[n := fa + fb] == Merged(w, a, b, n)
  {
    assert w - {a} - {b} == w - {a, b};
    forall k | k in w && k != a
      ensures fb <= w[k]
    {
      assert k in w - {a};
    }
  }

  ghost function Extended(h: History, a: int, b: int): (e: History)
    requires |h.alphabets| == |h.merges| + 1
    requires a in h.alphabets[|h.merges|] && b in h.alphabets[|h.merges|]
  {
    History(h.alphabets + [Merged(h.alphabets[|h.merges|], a, b, HUFMAX + |h.merges|)], h.merges + [(a, b)])
  }

  lemma ExtendRun(h: History, a: int, b: int)
    requires Run(h) && TwoLightest(h.alphabets[|h.merges|], a, b)
    ensures Run(Extended(h, a, b))
  {
    var e := Extended(h, a, b);
    forall k | 0 <= k < |e.merges|
      ensures Step(e, k)
    {
      if k < |h.merges| {
        assert Step(h, k);
      }
    }
  }

  lemma ExtendMergesLinked(h: History, parent: seq<int>, a: nat, b: nat)
    requires |h.alphabets| == |h.merges| + 1 && Recorded(h, parent)
    requires a in h.alphabets[|h.merges|] && b in h.alphabets[|h.merges|]
    requires HUFMAX + |h.merges| + 1 <= |parent| && a < HUFMAX + |h.merges| && b < HUFMAX + |h.merges|
    ensures var n := HUFMAX + |h.merges|; MergesLinked(Extended(h, a, b), parent[a := n][b := n])
  {
    assert parent[a] == 0 && parent[b] == 0;
    hide Recorded, LinksMerged, Roots, Merged;
    var n := HUFMAX + |h.merges|;
    var p := parent[a := n][b := n];
    var e := Extended(h, a, b);
    forall k | 0 <= k < |e.merges|
      ensures 0 <= e.merges[k].0 < HUFMAX + k && 0 <= e.merges[k].1 < HUFMAX + k
      ensures p[e.merges[k].0] == HUFMAX + k && p[e.merges[k].1] == HUFMAX + k
    {
      if k < |h.merges| {
        MergeKept(h, parent, a, b, k);
      }
    }
  }

  /** The new links do not disturb the old ones. */
  lemma MergeKept(h: History, parent: seq<int>, a: nat, b: nat, k: nat)
    requires |h.alphabets| == |h.merges| + 1 && Recorded(h, parent) && k < |h.merges|
    requires a < |parent| && b < |parent| && parent[a] == 0 && parent[b] == 0
    ensures 0 <= h.merges[k].0 < HUFMAX + k && 0 <= h.merges[k].1 < HUFMAX + k && HUFMAX + |h.merges| <= |parent|
    ensures var n := HUFMAX + |h.merges|; var p := parent[a := n][b := n];
      p[h.merges[k].0] == HUFMAX + k && p[h.merges[k].1] == HUFMAX + k
  {
    MergeLinks(h, parent, k);
    hide Recorded;
  }

  lemma ExtendLinksMerged(h: History, parent: seq<int>, a: nat, b: nat)
    requires |h.alphabets| == |h.merges| + 1 && Recorded(h, parent)
    requires a in h.alphabets[|h.merges|] && b in h.alphabets[|h.merges|]
    requires a < |parent| && b < |parent|
    ensures var n := HUFMAX + |h.merges|; LinksMerged(Extended(h, a, b), parent[a := n][b := n])
  {
    hide Recorded;
    var n := HUFMAX + |h.merges|;
    var p := parent[a := n][b := n];
    var e := Extended(h, a, b);
    forall i | 0 <= i < |p| && p[i] != 0
      ensures HUFMAX <= p[i] < HUFMAX + |e.merges|
      ensures i == e.merges[p[i] - HUFMAX].0 || i == e.merges[p[i] - HUFMAX].1
    {
      if i != a && i != b {
        ParentMerge(h, parent, i);
      }
    }
  }

  lemma ExtendRecorded(h: History, parent: seq<int>, a: int, b: int)
    requires Run(h) && Recorded(h, parent) && WellLinked(parent)
    requires TwoLightest(h.alphabets[|h.merges|], a, b) && HUFMAX + |h.merges| + 1 <= |parent|
    ensures var n := HUFMAX + |h.merges|;
      0 <= a < n && 0 <= b < n
      && Recorded(Extended(h, a, b), parent[a := n][b := n]) && WellLinked(parent[a := n][b := n])
  {
    LinkedBelow(h, parent, HUFMAX + |h.merges|);
    assert 0 <= a < HUFMAX + |h.merges| && 0 <= b < HUFMAX + |h.merges|;
    ExtendMergesLinked(h, parent, a, b);
    ExtendLinksMerged(h, parent, a, b);
    hide MergesLinked, LinksMerged;
  }

  // ---- What buildhuf computes, as a function of the frequencies, ties included

  /** The heap of the first n symbols that occur. */
  function Filled(fs: seq<int>, n: nat): seq<Heap.Entry>
    requires n <= |fs|
  {
    if n == 0 then []
    else if fs[n - 1] > 0 then Heap.Inserted(Filled(fs, n - 1), (n - 1, fs[n - 1]))
    else Filled(fs, n - 1)
  }

  function LinkTo(par: seq<int>, i: int, n: int): (r: seq<int>)
    ensures |r| == |par|
  {
    if 0 <= i < |par| then par[i := n] else par
  }

  /** The parents once all nodes have been merged; the next new node is n. */
  function Linked(ns: seq<Heap.Entry>, par: seq<int>, n: int): (r: seq<int>)
    ensures |r| == |par|
    decreases |ns|
  {
    if |ns| <= 1 then par else
      var one := Heap.Removed(ns);
      var two := Heap.Removed(one);
      Linked(Heap.Inserted(two, (n, ns[0].1 + one[0].1)), LinkTo(LinkTo(par, ns[0].0, n), one[0].0, n), n + 1)
  }

  /** Steps up to a node without parent. */
  function Steps(par: seq<int>, i: int, fuel: nat): nat
    decreases fuel
  {
    if fuel == 0 || !(0 <= i < |par|) || par[i] == 0 then 0 else 1 + Steps(par, par[i], fuel - 1)
  }

  function ParentsOf(fs: seq<int>, n: nat): (r: seq<int>)
    requires n <= |fs|
    ensures |r| == 2 * HUFMAX - 1
  {
    Linked(Filled(fs, n), seq(2 * HUFMAX - 1, _ => 0), HUFMAX)
  }

  /** The code length of symbol i. */
  function HufLength(fs: seq<int>, n: nat, i: nat): byte
    requires n <= |fs|
  {
    Capped(Steps(ParentsOf(fs, n), i, 2 * HUFMAX))
  }

  lemma {:induction false} StepsIsDepth(par: seq<int>, i: nat, fuel: nat)
    requires WellLinked(par) && i < |par| && |par| - i <= fuel
    ensures Steps(par, i, fuel) == Depth(par, i)
    decreases fuel
  {
    if par[i] != 0 {
      StepsIsDepth(par, par[i], fuel - 1);
    }
  }

  lemma LinkedStep(ns: seq<Heap.Entry>, par: seq<int>, n: int, a: nat, fa: int, b: nat, fb: int)
    requires |ns| > 1 && ns[0] == (a, fa) && Heap.Removed(ns)[0] == (b, fb) && a < |par| && b < |par|
    ensures Linked(ns, par, n) == Linked(Heap.Inserted(Heap.Removed(Heap.Removed(ns)), (n, fa + fb)), par[a := n][b := n], n + 1)
  {
    hide Heap.Removed, Heap.Inserted;
  }

  lemma LinkedEnds(ns: seq<Heap.Entry>, par: seq<int>, n: int)
    requires |ns| <= 1
    ensures Linked(ns, par, n) == par
  {
  }

  /** The heap of the symbols is ordered and holds exactly them. */
  lemma {:induction false} FilledHolds(fs: seq<int>, n: nat)
    requires n <= |fs|
    ensures Heap.Ordered(Filled(fs, n)) && HeapHolds(Filled(fs, n), Active(fs, n)) && |Filled(fs, n)| <= n
  {
    hide Heap.Inserted, Heap.Ordered, HeapHolds;
    if n == 0 {
      NothingHeld(fs);
    } else {
      var before, i := Filled(fs, n - 1), n - 1;
      FilledHolds(fs, i);
      if fs[i] > 0 {
        Heap.InsertedKeeps(before, (i, fs[i]));
        assert i !in Active(fs, i);
        HeapGrows(before, Active(fs, i), Heap.Inserted(before, (i, fs[i])), i, fs[i]);
        assert Active(fs, n) == Active(fs, i)[i := fs[i]];
      } else {
        assert Active(fs, n) == Active(fs, i);
      }
    }
  }

  lemma NothingHeld(fs: seq<int>)
    ensures Heap.Ordered([]) && HeapHolds([], Active(fs, 0))
  {
  }

  /** One merge: the two lightest nodes, their parents and the new heap. */
  lemma MergeOnce(ns: seq<Heap.Entry>, par: seq<int>, h: History)
    requires |ns| > 1 && Heap.Ordered(ns) && |h.alphabets| == |h.merges| + 1 && HUFMAX + |h.merges| + 1 <= |par|
    requires HeapHolds(ns, h.alphabets[|h.merges|]) && Run(h) && Recorded(h, par) && WellLinked(par)
    ensures var n, one := HUFMAX + |h.merges|, Heap.Removed(ns);
      var two := Heap.Removed(one);
      var i, j, next := ns[0].0, one[0].0, Heap.Inserted(two, (n, ns[0].1 + one[0].1));
      && 0 <= i < n && 0 <= j < n && i in h.alphabets[|h.merges|] && j in h.alphabets[|h.merges|]
      && Heap.Ordered(one) && Heap.Ordered(two) && Heap.Ordered(next) && HeapHolds(next, Extended(h, i, j).alphabets[|h.merges| + 1])
      && Run(Extended(h, i, j)) && Recorded(Extended(h, i, j), par[i := n][j := n]) && WellLinked(par[i := n][j := n])
  {
    hide Recorded, Run, WellLinked, TwoLightest, Heap.Ordered, HeapHolds, Heap.Inserted, Heap.Removed;
    var n, wt, one := HUFMAX + |h.merges|, h.alphabets[|h.merges|], Heap.Removed(ns);
    var two := Heap.Removed(one);
    var i, si, j, sj := ns[0].0, ns[0].1, one[0].0, one[0].1;
    Heap.RemovedKeeps(ns);
    HeapShrinks(ns, wt, one, i, si);
    HeapLeast(ns, wt, si);
    Heap.RemovedKeeps(one);
    HeapShrinks(one, wt - {i}, two, j, sj);
    HeapLeast(one, wt - {i}, sj);
    TwoRemoved(wt, i, si, j, sj, n);
    ExtendRun(h, i, j);
    ExtendRecorded(h, par, i, j);
    Heap.InsertedKeeps(two, (n, si + sj));
    NodeIsFresh(h, n);
    HeapGrows(two, wt - {i} - {j}, Heap.Inserted(two, (n, si + sj)), n, si + sj);
  }

  /** The merges, done to the end, are a history of merging two lightest nodes. */
  lemma {:induction false} MergesFinish(ns: seq<Heap.Entry>, par: seq<int>, h: History) returns (h': History)
    requires Heap.Ordered(ns) && |h.alphabets| == |h.merges| + 1 && |ns| + |h.merges| <= HUFMAX && |par| == 2 * HUFMAX - 1
    requires HeapHolds(ns, h.alphabets[|h.merges|]) && Run(h) && Recorded(h, par) && WellLinked(par)
    ensures Finished(h', Linked(ns, par, HUFMAX + |h.merges|)) && h'.alphabets[0] == h.alphabets[0]
    ensures |h'.merges| == |h.merges| + if ns == [] then 0 else |ns| - 1
    decreases |ns|
  {
    hide Recorded, Run, WellLinked, TwoLightest, Heap.Ordered, HeapHolds, Heap.Inserted, Heap.Removed, Linked;
    var n := HUFMAX + |h.merges|;
    if |ns| > 1 {
      MergeOnce(ns, par, h);
      var one := Heap.Removed(ns);
      var i, j := ns[0].0, one[0].0;
      LinkedStep(ns, par, n, i, ns[0].1, j, one[0].1);
      h' := MergesFinish(Heap.Inserted(Heap.Removed(one), (n, ns[0].1 + one[0].1)), par[i := n][j := n], Extended(h, i, j));
    } else {
      LinkedEnds(ns, par, n);
      HeapEmpty(ns, h.alphabets[|h.merges|]);
      h' := h;
    }
  }

  /** buildhuf's lengths, as a function of the frequencies, are Huffman lengths. */
  lemma HufIsHuffman(fs: seq<int>, n: nat) returns (h: History, d: Lengths)
    requires n <= |fs| && n <= HUFMAX
    ensures IsHuffman(Active(fs, n), d)
    ensures forall i :: 0 <= i < n ==> WrittenLength(d, i) == HufLength(fs, n, i)
    ensures Finished(h, ParentsOf(fs, n)) && |h.merges| == if Filled(fs, n) == [] then 0 else |Filled(fs, n)| - 1
  {
    hide Active, Filled, IsHuffman, Finished, HufLength, WrittenLength, ParentsOf, Linked, Run, Recorded, WellLinked, HeapHolds, Heap.Ordered, Depth;
    var w, par := Active(fs, n), seq(2 * HUFMAX - 1, _ => 0);
    FilledHolds(fs, n);
    StartOf(fs, n, par);
    h := MergesFinish(Filled(fs, n), par, History([w], []));
    ParentsAre(fs, n, par);
    d := DepthsOfSymbols(h, ParentsOf(fs, n));
    LengthsAre(h, ParentsOf(fs, n), fs, n);
  }

  lemma StartOf(fs: seq<int>, n: nat, par: seq<int>)
    requires n <= |fs| && n <= HUFMAX && par == seq(2 * HUFMAX - 1, _ => 0)
    ensures var h := History([Active(fs, n)], []);
      Run(h) && Recorded(h, par) && WellLinked(par) && |par| == 2 * HUFMAX - 1 && n <= HUFMAX
  {
    StartRun(Active(fs, n), par);
  }

  lemma ParentsAre(fs: seq<int>, n: nat, par: seq<int>)
    requires n <= |fs| && par == seq(2 * HUFMAX - 1, _ => 0)
    ensures ParentsOf(fs, n) == Linked(Filled(fs, n), par, HUFMAX) && |ParentsOf(fs, n)| == 2 * HUFMAX - 1
  {
  }

  /** First phase of buildhuf: a heap of the symbols that occur. */
  method FillHeap(freqs: array<int>, nsyms: nat, heap: array<int>)
    returns (heapsize: nat, ghost ns: seq<Heap.Entry>)
    requires nsyms <= HUFMAX && nsyms <= freqs.Length && heap.Length == 2 * HUFMAX && heap != freqs
    modifies heap
    ensures heapsize == 2 * |ns| && Heap.Stores(heap, ns) && ns == Filled(freqs[..], nsyms)
  {
    hide Heap.Inserted, Heap.Ordered, HeapHolds, Heap.Stores;
    heapsize := 0;
    ns := [];
    ghost var fs := freqs[..];
    NothingStored(heap);
    for i := 0 to nsyms
      invariant freqs[..] == fs && heapsize == 2 * |ns| && Heap.Stores(heap, ns) && ns == Filled(fs, i)
    {
      FilledHolds(fs, i);
      if freqs[i] > 0 {
        heapsize, ns := Heap.AddHeap(heap, heapsize, i, freqs[i], ns);
      }
    }
  }

  lemma NothingStored(heap: array<int>)
    ensures Heap.Stores(heap, [])
  {
  }

  /** Second phase of buildhuf: merge the two lightest nodes until one is left. */
  method MergeAll(heap: array<int>, parent: array<int>, size: nat, ghost start: seq<Heap.Entry>, ghost fs: seq<int>, ghost nsyms: nat)
    returns (n: nat, ghost h: History)
    requires heap != parent && heap.Length == 2 * HUFMAX && parent.Length == 2 * HUFMAX - 1
    requires nsyms <= |fs| && nsyms <= HUFMAX && start == Filled(fs, nsyms) && size == 2 * |start| && Heap.Stores(heap, start)
    requires forall i :: 0 <= i < parent.Length ==> parent[i] == 0
    modifies heap, parent
    ensures parent[..] == ParentsOf(fs, nsyms)
    ensures n == HUFMAX + if start == [] then 0 else |start| - 1
  {
    hide Recorded, Run, WellLinked, TwoLightest, Heap.Stores, Heap.Ordered, HeapHolds, Heap.Inserted, Heap.Removed, Linked, Filled;
    var heapsize := size;
    ghost var ns := start;
    n := HUFMAX;
    ghost var par := parent[..];
    FilledHolds(fs, nsyms);
    assert par == seq(2 * HUFMAX - 1, _ => 0);
    StartOf(fs, nsyms, par);
    h := History([Active(fs, nsyms)], []);
    while heapsize > 2
      invariant heapsize == 2 * |ns| && |h.alphabets| == |h.merges| + 1
      invariant n == HUFMAX + |h.merges| && (|ns| >= 1 ==> |h.merges| + |ns| == |start|) && (|start| == 0 ==> n == HUFMAX && |ns| == 0)
      invariant Heap.Stores(heap, ns) && Heap.Ordered(ns) && HeapHolds(ns, h.alphabets[|h.merges|])
      invariant parent[..] == par && Linked(ns, par, n) == Linked(start, old(parent[..]), HUFMAX)
      invariant Run(h) && Recorded(h, par) && WellLinked(par) && (|start| > 0 ==> |ns| > 0)
      decreases heapsize
    {
      ghost var ns0 := ns;
      var i, j, si, sj;
      MergeOnce(ns, par, h);
      heapsize, i, si, ns := Heap.RmHeap(heap, heapsize, ns);
      heapsize, j, sj, ns := Heap.RmHeap(heap, heapsize, ns);
      LinkedStep(ns0, par, n, i, si, j, sj);
      parent[i] := n;
      parent[j] := n;
      par := par[i := n][j := n];
      heapsize, ns := Heap.AddHeap(heap, heapsize, n, si + sj, ns);
      h := Extended(h, i, j);
      n := n + 1;
    }
    LinkedEnds(ns, par, n);
    ParentsAre(fs, nsyms, old(parent[..]));
  }

  lemma NodeIsFresh(h: History, n: nat)
    requires Run(h) && n == HUFMAX + |h.merges|
    ensures n !in h.alphabets[|h.merges|]
  {
  }

  lemma StartRun(w: Weights, par: seq<int>)
    requires forall i :: i in w ==> 0 <= i < HUFMAX
    requires |par| == 2 * HUFMAX - 1 && forall i :: 0 <= i < |par| ==> par[i] == 0
    ensures Run(History([w], [])) && Recorded(History([w], []), par) && WellLinked(par)
  {
  }

  /** Third phase of buildhuf: count each node's steps to the root. */
  method CountDepths(parent: array<int>, length: array<int>, n: nat)
    requires parent.Length == length.Length && 1 <= n <= parent.Length && parent != length
    requires WellLinked(parent[..])
    requires forall i :: n - 1 <= i < parent.Length ==> parent[i] == 0
    requires forall i :: 0 <= i < length.Length ==> length[i] == 0
    modifies length
    ensures forall i :: 0 <= i < length.Length ==> length[i] == Depth(parent[..], i)
  {
    var i := n - 1;
    ghost var par := parent[..];
    while i > 0
      invariant 0 <= i <= n - 1
      invariant parent[..] == par
      invariant forall k :: i <= k < length.Length ==> length[k] == Depth(par, k)
      invariant forall k :: 0 <= k < i ==> length[k] == 0
    {
      i := i - 1;
      assert parent[i] == par[i];
      if parent[i] > 0 {
        length[i] := 1 + length[parent[i]];
      }
    }
  }

  function Capped(d: nat): (c: byte) {
    if d > 255 then 255 else d
  }

  /** The length written for symbol i: its depth capped at 255, 0 if unused. */
  ghost function WrittenLength(d: Lengths, i: int): byte {
    if i in d then Capped(d[i]) else 0
  }

  lemma FinishedFibonacci(h: History, parent: seq<int>)
    requires Finished(h, parent) && |h.alphabets| > 0
    ensures FibonacciBounded(h.alphabets[0], Depths(h, parent, 0))
  {
    hide Total, Fib, Finished, Depths;
    var w := h.alphabets[0];
    var d := Depths(h, parent, 0);
    forall v: int, s: nat | v in w && AtLeast(w, s)
      ensures Fib(d[v] + 2) * s <= Total(w)
    {
      FibonacciBoundDepths(h, parent, v, s);
    }
  }

  lemma FinishedIsHuffman(h: History, parent: seq<int>, d: Lengths)
    requires Finished(h, parent) && |parent| == 2 * HUFMAX - 1 && |h.alphabets| > 0
    requires forall i :: i in h.alphabets[0] ==> 0 <= i < |parent|
    requires d == Depths(h, parent, 0)
    ensures IsHuffman(h.alphabets[0], d)
  {
    hide Total, Cost, KraftSum, Fib, Finished, Depth, Depths, Pow2, Optimal, FibonacciBounded;
    if exists i :: i in h.alphabets[0] {
      DepthsOptimal(h, parent, 0);
      FinishedFibonacci(h, parent);
    }
  }

  /** Last phase of buildhuf: copy the depths out, capped to a byte. */
  method WriteLengths(length: array<int>, lengths: array<byte>, nsyms: nat, ghost par: seq<int>)
    requires WellLinked(par) && |par| == length.Length && nsyms <= length.Length && nsyms <= lengths.Length
    requires forall k :: 0 <= k < length.Length ==> length[k] == Depth(par, k)
    modifies lengths
    ensures forall k :: 0 <= k < nsyms ==> lengths[k] == Capped(Depth(par, k))
    ensures forall k :: nsyms <= k < lengths.Length ==> lengths[k] == old(lengths[k])
  {
    for i := 0 to nsyms
      invariant forall k :: 0 <= k < i ==> lengths[k] == Capped(Depth(par, k))
      invariant forall k :: nsyms <= k < lengths.Length ==> lengths[k] == old(lengths[k])
    {
      lengths[i] := if length[i] > 255 then 255 else length[i];
    }
  }

  /** buildhuf. The code lengths written are Huffman lengths, capped to a byte. */
  method BuildHuf(freqs: array<int>, lengths: array<byte>, nsyms: nat) returns (ghost d: Lengths)
    requires nsyms <= HUFMAX && nsyms <= freqs.Length && nsyms <= lengths.Length
    modifies lengths
    ensures IsHuffman(Active(freqs[..], nsyms), d)
    ensures forall i :: 0 <= i < nsyms ==> lengths[i] == WrittenLength(d, i) == HufLength(freqs[..], nsyms, i)
    ensures forall i :: nsyms <= i < lengths.Length ==> lengths[i] == old(lengths[i])
  {
    hide Finished, IsHuffman, HeapHolds, Heap.Stores, Heap.Ordered, Depth, WellLinked, Depths, Linked, Filled, Steps, HufLength;
    var parent := new int[2 * HUFMAX - 1](_ => 0);
    var length := new int[2 * HUFMAX - 1](_ => 0);
    var heap := new int[2 * HUFMAX];
    var heapsize;
    ghost var ns;
    heapsize, ns := FillHeap(freqs, nsyms, heap);
    var n;
    ghost var h;
    n, h := MergeAll(heap, parent, heapsize, ns, freqs[..], nsyms);
    ghost var par := parent[..];
    h, d := HufIsHuffman(freqs[..], nsyms);
    RootsBeyond(h, par, n);
    CountDepths(parent, length, n);
    WriteLengths(length, lengths, nsyms, par);
    LengthsAre(h, par, freqs[..], nsyms);
  }

  lemma LengthsAre(h: History, par: seq<int>, fs: seq<int>, n: nat)
    requires Finished(h, par) && n <= |fs| && n <= HUFMAX && par == ParentsOf(fs, n)
    ensures forall i :: 0 <= i < n ==> HufLength(fs, n, i) == Capped(Depth(par, i))
  {
    hide Linked, Filled, Depth;
    forall i | 0 <= i < n ensures HufLength(fs, n, i) == Capped(Depth(par, i)) {
      StepsIsDepth(par, i, 2 * HUFMAX);
    }
  }

  /** The symbols' depths, and 0 for symbols that do not occur. */
  lemma DepthsOfSymbols(h: History, par: seq<int>) returns (d: Lengths)
    requires Finished(h, par) && |par| == 2 * HUFMAX - 1
    ensures |h.alphabets| > 0 && IsHuffman(h.alphabets[0], d)
    ensures forall i :: 0 <= i < HUFMAX ==> WrittenLength(d, i) == Capped(Depth(par, i))
  {
    d := Depths(h, par, 0);
    UnusedDepth(h, par);
    FinishedIsHuffman(h, par, d);
  }

  /** Node n - 1 and the nodes above it have no parent. */
  lemma RootsBeyond(h: History, par: seq<int>, n: nat)
    requires Finished(h, par) && n == HUFMAX + |h.merges|
    ensures WellLinked(par) && n <= |par| && forall i :: n - 1 <= i < |par| ==> par[i] == 0
  {
    forall i | n - 1 <= i < |par|
      ensures par[i] == 0
    {
      LinkedBelow(h, par, i);
    }
  }

  /** A symbol that does not occur gets depth 0. */
  lemma UnusedDepth(h: History, par: seq<int>)
    requires Finished(h, par)
    ensures forall i :: 0 <= i < HUFMAX && i !in h.alphabets[0] ==> Depth(par, i) == 0
  {
    forall i | 0 <= i < HUFMAX && i !in h.alphabets[0]
      ensures Depth(par, i) == 0
    {
      if par[i] != 0 {
        var k, u := Sibling(h, par, i);
        Persist(h, 0, k, i);
      }
    }
  }
}

/** The binary heap under the Huffman builder: an array of ints with two ints
    per node, user data first and key second, smallest key at the root. */
module Heap {

  type Entry = (int, int)

  /** The array holds exactly the nodes ns, from its start. */
  ghost predicate Stores(heap: array<int>, ns: seq<Entry>)
    reads heap
  {
    && 2 * |ns| <= heap.Length
    && forall k {:trigger ns[k]} :: 0 <= k < |ns| ==> heap[2 * k] == ns[k].0 && heap[2 * k + 1] == ns[k].1
  }

  function Parent(k: int): int {
    (k - 1) / 2
  }

  ghost predicate Ordered(ns: seq<Entry>) {
    forall k {:trigger Parent(k)} :: 1 <= k < |ns| ==> ns[Parent(k)].1 <= ns[k].1
  }

  /** Heap order holds everywhere except that node m may be too small. */
  ghost predicate OrderedButUp(ns: seq<Entry>, m: nat) {
    && (forall k {:trigger Parent(k)} :: 1 <= k < |ns| && k != m ==> ns[Parent(k)].1 <= ns[k].1)
    && (forall k {:trigger Parent(k)} :: 1 <= m < |ns| && 1 <= k < |ns| && Parent(k) == m ==> ns[Parent(m)].1 <= ns[k].1)
  }

  /** Heap order holds everywhere except that node m may be too large. */
  ghost predicate OrderedButDown(ns: seq<Entry>, m: nat) {
    && (forall k {:trigger Parent(k)} :: 1 <= k < |ns| && Parent(k) != m ==> ns[Parent(k)].1 <= ns[k].1)
    && (forall k {:trigger Parent(k)} :: 1 <= m < |ns| && 1 <= k < |ns| && Parent(k) == m ==> ns[Parent(m)].1 <= ns[k].1)
  }

  function Swapped(ns: seq<Entry>, a: nat, b: nat): (r: seq<Entry>)
    requires a < |ns| && b < |ns|
    ensures |r| == |ns|
    ensures multiset(r) == multiset(ns)
  {
    ns[a := ns[b]][b := ns[a]]
  }

  // ---- What the two operations do, ties included

  /** Sifting node m towards the root. */
  function Up(ns: seq<Entry>, m: nat): (r: seq<Entry>)
    requires m < |ns|
    ensures |r| == |ns|
    decreases m
  {
    if m > 0 && ns[m].1 < ns[Parent(m)].1 then Up(Swapped(ns, m, Parent(m)), Parent(m)) else ns
  }

  function Inserted(ns: seq<Entry>, e: Entry): (r: seq<Entry>)
    ensures |r| == |ns| + 1
  {
    Up(ns + [e], |ns|)
  }

  /** The child that goes up: the right one of two equals. */
  function Child(ns: seq<Entry>, m: nat): (c: nat)
    requires 2 * m + 1 < |ns|
    ensures m < c < |ns|
  {
    if 2 * m + 2 >= |ns| || ns[2 * m + 1].1 < ns[2 * m + 2].1 then 2 * m + 1 else 2 * m + 2
  }

  /** Sifting node m down. */
  function Down(ns: seq<Entry>, m: nat): (r: seq<Entry>)
    ensures |r| == |ns|
    decreases |ns| - m
  {
    if 2 * m + 1 >= |ns| then ns else
      var c := Child(ns, m);
      if ns[m].1 > ns[c].1 then Down(Swapped(ns, m, c), c) else ns
  }

  /** Without the root; the last node takes its place first. */
  function Removed(ns: seq<Entry>): (r: seq<Entry>)
    requires ns != []
    ensures |r| == |ns| - 1
  {
    var n := |ns| - 1;
    if n == 0 then [] else Down(ns[..n][0 := ns[n]], 0)
  }

  lemma SwapUp(ns: seq<Entry>, m: nat)
    requires 1 <= m < |ns| && OrderedButUp(ns, m)
    requires ns[m].1 < ns[Parent(m)].1
    ensures OrderedButUp(Swapped(ns, m, Parent(m)), Parent(m))
  {
  }

  lemma SwapDown(ns: seq<Entry>, m: nat, c: nat)
    requires m < |ns| && 1 <= c < |ns| && Parent(c) == m && OrderedButDown(ns, m)
    requires forall k {:trigger Parent(k)} :: 1 <= k < |ns| && Parent(k) == m ==> ns[c].1 <= ns[k].1
    requires ns[c].1 < ns[m].1
    ensures OrderedButDown(Swapped(ns, m, c), c)
  {
  }

  /** The root of an ordered heap carries a minimal key. */
  lemma {:induction false} RootIsLeast(ns: seq<Entry>, k: nat)
    requires Ordered(ns) && k < |ns|
    ensures ns[0].1 <= ns[k].1
  {
    if k > 0 {
      assert ns[Parent(k)].1 <= ns[k].1;
      RootIsLeast(ns, Parent(k));
    }
  }

  lemma RootIsLeastOfAll(ns: seq<Entry>)
    requires ns != [] && Ordered(ns)
    ensures forall e :: e in ns ==> ns[0].1 <= e.1
  {
    forall k | 0 <= k < |ns|
      ensures ns[0].1 <= ns[k].1
    {
      RootIsLeast(ns, k);
    }
  }

  lemma {:induction false} UpKeeps(ns: seq<Entry>, m: nat)
    requires m < |ns| && OrderedButUp(ns, m)
    ensures Ordered(Up(ns, m)) && multiset(Up(ns, m)) == multiset(ns)
    decreases m
  {
    hide OrderedButUp, Ordered;
    if m > 0 && ns[m].1 < ns[Parent(m)].1 {
      SwapUp(ns, m);
      UpKeeps(Swapped(ns, m, Parent(m)), Parent(m));
    } else {
      SiftedUp(ns, m);
    }
  }

  /** Inserting keeps the order and adds exactly the new node. */
  lemma InsertedKeeps(ns: seq<Entry>, e: Entry)
    requires Ordered(ns)
    ensures Ordered(Inserted(ns, e)) && multiset(Inserted(ns, e)) == multiset(ns) + multiset{e}
  {
    hide OrderedButUp, Ordered, Up;
    Appended(ns, e);
    UpKeeps(ns + [e], |ns|);
  }

  lemma {:induction false} DownKeeps(ns: seq<Entry>, m: nat)
    requires OrderedButDown(ns, m)
    ensures Ordered(Down(ns, m)) && multiset(Down(ns, m)) == multiset(ns)
    decreases |ns| - m
  {
    hide OrderedButDown, Ordered;
    if 2 * m + 1 < |ns| && ns[m].1 > ns[Child(ns, m)].1 {
      SwapDownChild(ns, m, Child(ns, m));
      DownKeeps(Swapped(ns, m, Child(ns, m)), Child(ns, m));
    } else {
      SiftedDown(ns, m);
    }
  }

  /** Removing keeps the order and takes exactly the root, a least node. */
  lemma RemovedKeeps(ns: seq<Entry>)
    requires ns != [] && Ordered(ns)
    ensures Ordered(Removed(ns)) && multiset(ns) == multiset(Removed(ns)) + multiset{ns[0]}
    ensures forall e :: e in ns ==> ns[0].1 <= e.1
  {
    hide OrderedButDown, Ordered, Down;
    var n := |ns| - 1;
    var rest := if n == 0 then [] else ns[..n][0 := ns[n]];
    RootIsLeastOfAll(ns);
    DropRoot(ns, rest);
    DownKeeps(rest, 0);
    NothingDown(rest);
  }

  lemma NothingDown(ns: seq<Entry>)
    ensures ns == [] ==> Down(ns, 0) == []
  {
  }

  lemma ParentIndex(me: nat, m: nat)
    requires me == 2 * m > 0
    ensures (me - 2) / 4 * 2 == 2 * Parent(m) && 0 <= Parent(m) < m
  {
  }

  lemma ParentOf(k: nat)
    ensures Parent(2 * k + 1) == Parent(2 * k + 2) == k
    ensures forall c: nat {:trigger Parent(c)} :: c >= 1 && Parent(c) == k ==> c == 2 * k + 1 || c == 2 * k + 2
  {
  }

  lemma SiftedUp(ns: seq<Entry>, m: nat)
    requires OrderedButUp(ns, m) && m < |ns|
    requires m >= 1 ==> ns[Parent(m)].1 <= ns[m].1
    ensures Ordered(ns)
  {
  }

  lemma SiftedDown(ns: seq<Entry>, m: nat)
    requires OrderedButDown(ns, m)
    requires forall c {:trigger ns[c]} :: (c == 2 * m + 1 || c == 2 * m + 2) && c < |ns| ==> ns[m].1 <= ns[c].1
    ensures Ordered(ns)
  {
    ParentOf(m);
  }

  lemma SwapDownChild(ns: seq<Entry>, m: nat, c: nat)
    requires m < |ns| && (c == 2 * m + 1 || c == 2 * m + 2) && c < |ns| && OrderedButDown(ns, m)
    requires forall k {:trigger ns[k]} :: (k == 2 * m + 1 || k == 2 * m + 2) && k < |ns| ==> ns[c].1 <= ns[k].1
    requires ns[c].1 < ns[m].1
    ensures OrderedButDown(Swapped(ns, m, c), c)
  {
    ParentOf(m);
    SwapDown(ns, m, c);
  }

  /** The swaps of addheap and rmheap, two assignments a node. */
  method SwapNodes(heap: array<int>, a: nat, b: nat, ghost ns: seq<Entry>, ghost i: nat, ghost j: nat)
    requires Stores(heap, ns)
    requires i < |ns| && j < |ns| && a == 2 * i && b == 2 * j
    modifies heap
    ensures Stores(heap, Swapped(ns, i, j))
    ensures forall k :: 2 * |ns| <= k < heap.Length ==> heap[k] == old(heap[k])
  {
    assert heap[a] == ns[i].0 && heap[b] == ns[j].0;
    var tmp := heap[a];
    heap[a] := heap[b];
    heap[b] := tmp;
    tmp := heap[a + 1];
    heap[a + 1] := heap[b + 1];
    heap[b + 1] := tmp;
  }

  /** addheap: append a node and sift it towards the root. */
  method AddHeap(heap: array<int>, len: nat, userdata: int, key: int, ghost before: seq<Entry>)
    returns (newLen: nat, ghost after: seq<Entry>)
    requires len == 2 * |before| && len + 2 <= heap.Length
    requires Stores(heap, before) && Ordered(before)
    modifies heap
    ensures newLen == len + 2 == 2 * |after|
    ensures Stores(heap, after) && Ordered(after)
    ensures multiset(after) == multiset(before) + multiset{(userdata, key)}
    ensures after == Inserted(before, (userdata, key))
    ensures forall k :: newLen <= k < heap.Length ==> heap[k] == old(heap[k])
  {
    hide Ordered, Up;
    var me := len;
    ghost var m, e := |before|, (userdata, key);
    InsertedKeeps(before, e);
    heap[len] := userdata;
    heap[len + 1] := key;
    newLen := len + 2;
    after := before + [e];
    while me > 0
      invariant me == 2 * m < newLen == 2 * |after|
      invariant Stores(heap, after) && Up(after, m) == Inserted(before, e)
      invariant forall k :: newLen <= k < heap.Length ==> heap[k] == old(heap[k])
    {
      var dad := (me - 2) / 4 * 2;
      ParentIndex(me, m);
      UpStep(after, m);
      assert heap[me + 1] == after[m].1 && heap[dad + 1] == after[Parent(m)].1;
      if heap[me + 1] < heap[dad + 1] {
        SwapNodes(heap, me, dad, after, m, Parent(m));
        after := Swapped(after, m, Parent(m));
        me := dad;
        m := Parent(m);
      } else {
        break;
      }
    }
    UpStep(after, m);
  }

  lemma UpStep(ns: seq<Entry>, m: nat)
    requires m < |ns|
    ensures Up(ns, m) == if m > 0 && ns[m].1 < ns[Parent(m)].1 then Up(Swapped(ns, m, Parent(m)), Parent(m)) else ns
  {
  }

  lemma Appended(ns: seq<Entry>, e: Entry)
    requires Ordered(ns)
    ensures OrderedButUp(ns + [e], |ns|)
  {
  }

  /** rmheap: take the root off, move the last node there and sift it down. */
  method RmHeap(heap: array<int>, len: nat, ghost before: seq<Entry>)
    returns (newLen: nat, userdata: int, key: int, ghost after: seq<Entry>)
    requires 2 <= len == 2 * |before|
    requires Stores(heap, before) && Ordered(before)
    modifies heap
    ensures newLen == len - 2 == 2 * |after|
    ensures Stores(heap, after) && Ordered(after)
    ensures multiset(before) == multiset(after) + multiset{(userdata, key)}
    ensures forall e :: e in before ==> key <= e.1
    ensures (userdata, key) == before[0] && after == Removed(before)
    ensures forall k :: len <= k < heap.Length ==> heap[k] == old(heap[k])
  {
    hide Ordered, Down;
    newLen := len - 2;
    RemovedKeeps(before);
    assert heap[0] == before[0].0 && heap[newLen] == before[|before| - 1].0;
    userdata := heap[0];
    key := heap[1];
    heap[0] := heap[newLen];
    heap[1] := heap[newLen + 1];
    after := before[..|before| - 1];
    if newLen > 0 {
      after := after[0 := before[|before| - 1]];
    }
    after := SiftDown(heap, newLen, after);
    NothingDown([]);
  }

  /** The second half of rmheap. */
  method SiftDown(heap: array<int>, len: nat, ghost before: seq<Entry>) returns (ghost after: seq<Entry>)
    requires len == 2 * |before| && Stores(heap, before)
    modifies heap
    ensures Stores(heap, after) && |after| == |before| && after == Down(before, 0)
    ensures forall k :: len <= k < heap.Length ==> heap[k] == old(heap[k])
  {
    hide Down, Child;
    var me := 0;
    ghost var m := 0;
    after := before;
    while true
      invariant me == 2 * m && (len > 0 ==> me < len) && |after| == |before|
      invariant Stores(heap, after) && Down(after, m) == Down(before, 0)
      invariant forall k :: len <= k < heap.Length ==> heap[k] == old(heap[k])
      decreases len - me
    {
      var lc := me * 2 + 2;
      var rc := me * 2 + 4;
      DownStep(after, m);
      if lc >= len {
        break;
      }
      assert heap[lc + 1] == after[2 * m + 1].1 && heap[me + 1] == after[m].1;
      assert rc < len ==> heap[rc + 1] == after[2 * m + 2].1;
      var left := rc >= len || heap[lc + 1] < heap[rc + 1];
      var c := if left then lc else rc;
      ghost var ch := if left then 2 * m + 1 else 2 * m + 2;
      ChildIs(after, m, ch);
      if heap[me + 1] > heap[c + 1] {
        SwapNodes(heap, me, c, after, m, ch);
        after := Swapped(after, m, ch);
      } else {
        break;
      }
      me := c;
      m := ch;
    }
  }

  lemma ChildIs(ns: seq<Entry>, m: nat, c: nat)
    requires 2 * m + 1 < |ns|
    requires c == if 2 * m + 2 >= |ns| || ns[2 * m + 1].1 < ns[2 * m + 2].1 then 2 * m + 1 else 2 * m + 2
    ensures c == Child(ns, m)
  {
  }

  lemma DownStep(ns: seq<Entry>, m: nat)
    ensures Down(ns, m) == if 2 * m + 1 >= |ns| then ns else
      var c := Child(ns, m);
      if ns[m].1 > ns[c].1 then Down(Swapped(ns, m, c), c) else ns
  {
  }

  /** Overwriting the root by the last node and shortening the heap removes
      exactly the root, and only the new root can be out of order. */
  lemma DropRoot(before: seq<Entry>, after: seq<Entry>)
    requires before != [] && Ordered(before)
    requires |after| == |before| - 1
    requires forall k :: 1 <= k < |after| ==> after[k] == before[k]
    requires after != [] ==> after[0] == before[|after|]
    ensures multiset(before) == multiset(after) + multiset{before[0]}
    ensures OrderedButDown(after, 0)
  {
    var n := |after|;
    assert before == before[..n] + [before[n]];
    if n > 0 {
      assert after == before[..n][0 := before[n]];
    } else {
      assert after == [];
    }
  }
}

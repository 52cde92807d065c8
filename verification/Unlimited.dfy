/** Codes that deflate_buildhuf cannot limit. The frequencies of ten code-length symbols
    sum up to exactly 55 times the smallest of them, and the heap breaks every tie so that
    the deepest possible tree is built. Nothing is added to the frequencies, the same tree
    is built again, and its longest codes have eight bits. Which ten symbols they are does
    not matter, only their order. */
module Unlimited {
  import Heap
  import opened Huffman
  import opened HuffmanTheory
  import opened DeflateHuffman

  /** Ten symbols. */
  type Labels = a: seq<nat> | |a| == 10 witness [0, 1, 2, 3, 4, 5, 6, 7, 8, 9]

  predicate Rising(at: Labels) {
    && at[0] < at[1] < at[2] < at[3] < at[4] && at[4] < at[5] < at[6] < at[7] < at[8] < at[9] < 19
  }

  /** The frequency of symbol i. */
  function FreqAt(at: Labels, i: nat): nat {
    if i == at[0] then 8 else if i == at[1] then 1 else if i == at[2] then 5 else if i == at[3] then 3
    else if i == at[4] then 21 else if i == at[8] then 13
    else if i == at[5] || i == at[6] || i == at[7] || i == at[9] then 1 else 0
  }

  /** The table of frequencies. */
  function FreqsAt(at: Labels): (fs: seq<int>)
    ensures |fs| == 19
  {
    seq(19, i requires 0 <= i < 19 => FreqAt(at, i))
  }

  type Nodes = seq<Heap.Entry>

  // ---- The heap of the symbols

  lemma Put0(ns: Nodes, at: Labels)
    requires ns == []
    ensures var r := Heap.Inserted(ns, (at[0], 8));
      && |r| == 1 && r[0] == (at[0], 8)
  {
    hide Heap.Up;
    var s0 := ns + [(at[0], 8)];
    Heap.UpStep(s0, 0);
  }

  lemma Put1(ns: Nodes, at: Labels)
    requires |ns| == 1 && ns[0] == (at[0], 8)
    ensures var r := Heap.Inserted(ns, (at[1], 1));
      && |r| == 2 && r[0] == (at[1], 1) && r[1] == (at[0], 8)
  {
    hide Heap.Up;
    var s0 := ns + [(at[1], 1)];
    Heap.UpStep(s0, 1);
    var s1 := Heap.Swapped(s0, 1, 0);
    Heap.UpStep(s1, 0);
  }

  lemma Put2(ns: Nodes, at: Labels)
    requires |ns| == 2 && ns[0] == (at[1], 1) && ns[1] == (at[0], 8)
    ensures var r := Heap.Inserted(ns, (at[2], 5));
      && |r| == 3 && r[0] == (at[1], 1) && r[1] == (at[0], 8) && r[2] == (at[2], 5)
  {
    hide Heap.Up;
    var s0 := ns + [(at[2], 5)];
    Heap.UpStep(s0, 2);
  }

  lemma Put3(ns: Nodes, at: Labels)
    requires |ns| == 3 && ns[0] == (at[1], 1) && ns[1] == (at[0], 8) && ns[2] == (at[2], 5)
    ensures var r := Heap.Inserted(ns, (at[3], 3));
      && |r| == 4 && r[0] == (at[1], 1) && r[1] == (at[3], 3) && r[2] == (at[2], 5) && r[3] == (at[0], 8)
  {
    hide Heap.Up;
    var s0 := ns + [(at[3], 3)];
    Heap.UpStep(s0, 3);
    var s1 := Heap.Swapped(s0, 3, 1);
    Heap.UpStep(s1, 1);
  }

  lemma Put4(ns: Nodes, at: Labels)
    requires
      && |ns| == 4 && ns[0] == (at[1], 1) && ns[1] == (at[3], 3) && ns[2] == (at[2], 5) && ns[3] == (at[0], 8)
    ensures var r := Heap.Inserted(ns, (at[4], 21));
      && |r| == 5 && r[0] == (at[1], 1) && r[1] == (at[3], 3) && r[2] == (at[2], 5) && r[3] == (at[0], 8)
      && r[4] == (at[4], 21)
  {
    hide Heap.Up;
    var s0 := ns + [(at[4], 21)];
    Heap.UpStep(s0, 4);
  }

  lemma Put5(ns: Nodes, at: Labels)
    requires
      && |ns| == 5 && ns[0] == (at[1], 1) && ns[1] == (at[3], 3) && ns[2] == (at[2], 5) && ns[3] == (at[0], 8)
      && ns[4] == (at[4], 21)
    ensures var r := Heap.Inserted(ns, (at[5], 1));
      && |r| == 6 && r[0] == (at[1], 1) && r[1] == (at[3], 3) && r[2] == (at[5], 1) && r[3] == (at[0], 8)
      && r[4] == (at[4], 21) && r[5] == (at[2], 5)
  {
    hide Heap.Up;
    var s0 := ns + [(at[5], 1)];
    Heap.UpStep(s0, 5);
    var s1 := Heap.Swapped(s0, 5, 2);
    Heap.UpStep(s1, 2);
  }

  lemma Put6(ns: Nodes, at: Labels)
    requires
      && |ns| == 6 && ns[0] == (at[1], 1) && ns[1] == (at[3], 3) && ns[2] == (at[5], 1) && ns[3] == (at[0], 8)
      && ns[4] == (at[4], 21) && ns[5] == (at[2], 5)
    ensures var r := Heap.Inserted(ns, (at[6], 1));
      && |r| == 7 && r[0] == (at[1], 1) && r[1] == (at[3], 3) && r[2] == (at[5], 1) && r[3] == (at[0], 8)
      && r[4] == (at[4], 21) && r[5] == (at[2], 5) && r[6] == (at[6], 1)
  {
    hide Heap.Up;
    var s0 := ns + [(at[6], 1)];
    Heap.UpStep(s0, 6);
  }

  lemma Put7(ns: Nodes, at: Labels)
    requires
      && |ns| == 7 && ns[0] == (at[1], 1) && ns[1] == (at[3], 3) && ns[2] == (at[5], 1) && ns[3] == (at[0], 8)
      && ns[4] == (at[4], 21) && ns[5] == (at[2], 5) && ns[6] == (at[6], 1)
    ensures var r := Heap.Inserted(ns, (at[7], 1));
      && |r| == 8 && r[0] == (at[1], 1) && r[1] == (at[7], 1) && r[2] == (at[5], 1) && r[3] == (at[3], 3)
      && r[4] == (at[4], 21) && r[5] == (at[2], 5) && r[6] == (at[6], 1) && r[7] == (at[0], 8)
  {
    hide Heap.Up;
    var s0 := ns + [(at[7], 1)];
    Heap.UpStep(s0, 7);
    var s1 := Heap.Swapped(s0, 7, 3);
    Heap.UpStep(s1, 3);
    var s2 := Heap.Swapped(s1, 3, 1);
    Heap.UpStep(s2, 1);
  }

  lemma Put8(ns: Nodes, at: Labels)
    requires
      && |ns| == 8 && ns[0] == (at[1], 1) && ns[1] == (at[7], 1) && ns[2] == (at[5], 1) && ns[3] == (at[3], 3)
      && ns[4] == (at[4], 21) && ns[5] == (at[2], 5) && ns[6] == (at[6], 1) && ns[7] == (at[0], 8)
    ensures var r := Heap.Inserted(ns, (at[8], 13));
      && |r| == 9 && r[0] == (at[1], 1) && r[1] == (at[7], 1) && r[2] == (at[5], 1) && r[3] == (at[3], 3)
      && r[4] == (at[4], 21) && r[5] == (at[2], 5) && r[6] == (at[6], 1) && r[7] == (at[0], 8) && r[8] == (at[8], 13)
  {
    hide Heap.Up;
    var s0 := ns + [(at[8], 13)];
    Heap.UpStep(s0, 8);
  }

  lemma Put9(ns: Nodes, at: Labels)
    requires
      && |ns| == 9 && ns[0] == (at[1], 1) && ns[1] == (at[7], 1) && ns[2] == (at[5], 1) && ns[3] == (at[3], 3)
      && ns[4] == (at[4], 21) && ns[5] == (at[2], 5) && ns[6] == (at[6], 1) && ns[7] == (at[0], 8) && ns[8] == (at[8], 13)
    ensures var r := Heap.Inserted(ns, (at[9], 1));
      && |r| == 10 && r[0] == (at[1], 1) && r[1] == (at[7], 1) && r[2] == (at[5], 1) && r[3] == (at[3], 3)
      && r[4] == (at[9], 1) && r[5] == (at[2], 5) && r[6] == (at[6], 1) && r[7] == (at[0], 8) && r[8] == (at[8], 13)
      && r[9] == (at[4], 21)
  {
    hide Heap.Up;
    var s0 := ns + [(at[9], 1)];
    Heap.UpStep(s0, 9);
    var s1 := Heap.Swapped(s0, 9, 4);
    Heap.UpStep(s1, 4);
  }

  ghost predicate Gap(fs: seq<int>, j: nat, k: nat) {
    j <= k <= |fs| && forall i :: j <= i < k ==> fs[i] == 0
  }

  /** Symbols that do not occur change nothing. */
  lemma {:induction false} Skip(fs: seq<int>, j: nat, k: nat)
    requires Gap(fs, j, k)
    ensures Filled(fs, k) == Filled(fs, j) && Sum(fs, k) == Sum(fs, j)
    ensures Smallest(fs, k) == Smallest(fs, j) && CountPositive(fs, k) == CountPositive(fs, j)
  {
    if j < k {
      Skip(fs, j, k - 1);
    }
  }

  /** One that does, after some that do not. */
  lemma Take(fs: seq<int>, j: nat, k: nat)
    requires Gap(fs, j, k) && k < |fs| && fs[k] > 0
    ensures Filled(fs, k + 1) == Heap.Inserted(Filled(fs, j), (k, fs[k]))
  {
    Skip(fs, j, k);
  }

  lemma TakeNumbers(fs: seq<int>, j: nat, k: nat, f: int)
    requires Gap(fs, j, k) && k < |fs| && fs[k] == f > 0
    ensures Sum(fs, k + 1) == Sum(fs, j) + f && CountPositive(fs, k + 1) == CountPositive(fs, j) + 1
    ensures Smallest(fs, k + 1) == if Smallest(fs, j) < 0 || Smallest(fs, j) > f then f else Smallest(fs, j)
  {
    Skip(fs, j, k);
  }

  lemma Nothing(fs: seq<int>)
    ensures Filled(fs, 0) == [] && Sum(fs, 0) == 0 && Smallest(fs, 0) == -1 && CountPositive(fs, 0) == 0
  {
  }

  lemma Places(at: Labels)
    requires Rising(at)
    ensures |FreqsAt(at)| == 19
    ensures var fs := FreqsAt(at);
      && fs[at[0]] == 8
      && fs[at[1]] == 1
      && fs[at[2]] == 5
      && fs[at[3]] == 3
      && fs[at[4]] == 21
      && fs[at[5]] == 1
      && fs[at[6]] == 1
      && fs[at[7]] == 1
      && fs[at[8]] == 13
      && fs[at[9]] == 1
      && Gap(fs, 0, at[0])
      && Gap(fs, at[0] + 1, at[1])
      && Gap(fs, at[1] + 1, at[2])
      && Gap(fs, at[2] + 1, at[3])
      && Gap(fs, at[3] + 1, at[4])
      && Gap(fs, at[4] + 1, at[5])
      && Gap(fs, at[5] + 1, at[6])
      && Gap(fs, at[6] + 1, at[7])
      && Gap(fs, at[7] + 1, at[8])
      && Gap(fs, at[8] + 1, at[9])
      && Gap(fs, at[9] + 1, 19)
  {
  }

  /** The first four, in order. */
  lemma FilledFour(at: Labels)
    requires Rising(at)
    ensures |FreqsAt(at)| == 19
    ensures var r := Filled(FreqsAt(at), at[3] + 1);
      && |r| == 4 && r[0] == (at[1], 1) && r[1] == (at[3], 3) && r[2] == (at[2], 5) && r[3] == (at[0], 8)
  {
    Places(at);
    hide *;
    var fs := FreqsAt(at);
    Nothing(fs);
    Put0(Filled(fs, 0), at);
    Take(fs, 0, at[0]);
    Put1(Filled(fs, at[0] + 1), at);
    Take(fs, at[0] + 1, at[1]);
    Put2(Filled(fs, at[1] + 1), at);
    Take(fs, at[1] + 1, at[2]);
    Put3(Filled(fs, at[2] + 1), at);
    Take(fs, at[2] + 1, at[3]);
  }

  /** Three more. */
  lemma FilledSeven(at: Labels)
    requires Rising(at)
    ensures |FreqsAt(at)| == 19
    ensures var r := Filled(FreqsAt(at), at[6] + 1);
      && |r| == 7 && r[0] == (at[1], 1) && r[1] == (at[3], 3) && r[2] == (at[5], 1) && r[3] == (at[0], 8)
      && r[4] == (at[4], 21) && r[5] == (at[2], 5) && r[6] == (at[6], 1)
  {
    FilledFour(at);
    Places(at);
    hide *;
    var fs := FreqsAt(at);
    Put4(Filled(fs, at[3] + 1), at);
    Take(fs, at[3] + 1, at[4]);
    Put5(Filled(fs, at[4] + 1), at);
    Take(fs, at[4] + 1, at[5]);
    Put6(Filled(fs, at[5] + 1), at);
    Take(fs, at[5] + 1, at[6]);
  }

  /** All ten. */
  lemma FilledAll(at: Labels)
    requires Rising(at)
    ensures |FreqsAt(at)| == 19
    ensures var r := Filled(FreqsAt(at), 19);
      && |r| == 10 && r[0] == (at[1], 1) && r[1] == (at[7], 1) && r[2] == (at[5], 1) && r[3] == (at[3], 3)
      && r[4] == (at[9], 1) && r[5] == (at[2], 5) && r[6] == (at[6], 1) && r[7] == (at[0], 8) && r[8] == (at[8], 13)
      && r[9] == (at[4], 21)
  {
    FilledSeven(at);
    Places(at);
    hide *;
    var fs := FreqsAt(at);
    Put7(Filled(fs, at[6] + 1), at);
    Take(fs, at[6] + 1, at[7]);
    Put8(Filled(fs, at[7] + 1), at);
    Take(fs, at[7] + 1, at[8]);
    Put9(Filled(fs, at[8] + 1), at);
    Take(fs, at[8] + 1, at[9]);
    Skip(fs, at[9] + 1, 19);
  }

  lemma HalfTheNumbers(at: Labels)
    requires Rising(at)
    ensures |FreqsAt(at)| == 19
    ensures var fs, k := FreqsAt(at), at[4] + 1; Sum(fs, k) == 38 && Smallest(fs, k) == 1 && CountPositive(fs, k) == 5
  {
    Places(at);
    hide *;
    var fs := FreqsAt(at);
    Nothing(fs);
    TakeNumbers(fs, 0, at[0], 8);
    TakeNumbers(fs, at[0] + 1, at[1], 1);
    TakeNumbers(fs, at[1] + 1, at[2], 5);
    TakeNumbers(fs, at[2] + 1, at[3], 3);
    TakeNumbers(fs, at[3] + 1, at[4], 21);
  }

  lemma Numbers(at: Labels)
    requires Rising(at)
    ensures var fs := FreqsAt(at); Sum(fs, 19) == 55 && Smallest(fs, 19) == 1 && CountPositive(fs, 19) == 10
  {
    HalfTheNumbers(at);
    Places(at);
    hide *;
    var fs := FreqsAt(at);
    TakeNumbers(fs, at[4] + 1, at[5], 1);
    TakeNumbers(fs, at[5] + 1, at[6], 1);
    TakeNumbers(fs, at[6] + 1, at[7], 1);
    TakeNumbers(fs, at[7] + 1, at[8], 13);
    TakeNumbers(fs, at[8] + 1, at[9], 1);
    Skip(fs, at[9] + 1, 19);
  }

  // ---- The merges: two nodes out, their parent in

  lemma First286(ns: Nodes, at: Labels)
    requires
      && |ns| == 10 && ns[0] == (at[1], 1) && ns[1] == (at[7], 1) && ns[2] == (at[5], 1) && ns[3] == (at[3], 3)
      && ns[4] == (at[9], 1) && ns[5] == (at[2], 5) && ns[6] == (at[6], 1) && ns[7] == (at[0], 8) && ns[8] == (at[8], 13)
      && ns[9] == (at[4], 21)
    ensures var r := Heap.Removed(ns);
      && |r| == 9 && r[0] == (at[5], 1) && r[1] == (at[7], 1) && r[2] == (at[6], 1) && r[3] == (at[3], 3)
      && r[4] == (at[9], 1) && r[5] == (at[2], 5) && r[6] == (at[4], 21) && r[7] == (at[0], 8) && r[8] == (at[8], 13)
  {
    hide Heap.Down, Heap.Child;
    var s0 := ns[..9][0 := ns[9]];
    Heap.DownStep(s0, 0);
    Heap.ChildIs(s0, 0, 2);
    var s1 := Heap.Swapped(s0, 0, 2);
    Heap.DownStep(s1, 2);
    Heap.ChildIs(s1, 2, 6);
    var s2 := Heap.Swapped(s1, 2, 6);
    Heap.DownStep(s2, 6);
  }

  lemma Second286(one: Nodes, at: Labels)
    requires
      && |one| == 9 && one[0] == (at[5], 1) && one[1] == (at[7], 1) && one[2] == (at[6], 1) && one[3] == (at[3], 3)
      && one[4] == (at[9], 1) && one[5] == (at[2], 5) && one[6] == (at[4], 21) && one[7] == (at[0], 8)
      && one[8] == (at[8], 13)
    ensures var r := Heap.Removed(one);
      && |r| == 8 && r[0] == (at[6], 1) && r[1] == (at[7], 1) && r[2] == (at[2], 5) && r[3] == (at[3], 3)
      && r[4] == (at[9], 1) && r[5] == (at[8], 13) && r[6] == (at[4], 21) && r[7] == (at[0], 8)
  {
    hide Heap.Down, Heap.Child;
    var t0 := one[..8][0 := one[8]];
    Heap.DownStep(t0, 0);
    Heap.ChildIs(t0, 0, 2);
    var t1 := Heap.Swapped(t0, 0, 2);
    Heap.DownStep(t1, 2);
    Heap.ChildIs(t1, 2, 5);
    var t2 := Heap.Swapped(t1, 2, 5);
    Heap.DownStep(t2, 5);
  }

  lemma Merge286(ns: Nodes, at: Labels)
    requires
      && |ns| == 10 && ns[0] == (at[1], 1) && ns[1] == (at[7], 1) && ns[2] == (at[5], 1) && ns[3] == (at[3], 3)
      && ns[4] == (at[9], 1) && ns[5] == (at[2], 5) && ns[6] == (at[6], 1) && ns[7] == (at[0], 8) && ns[8] == (at[8], 13)
      && ns[9] == (at[4], 21)
    ensures Heap.Removed(ns)[0] == (at[5], 1)
    ensures var r := Heap.Inserted(Heap.Removed(Heap.Removed(ns)), (286, 2));
      && |r| == 9 && r[0] == (at[6], 1) && r[1] == (at[7], 1) && r[2] == (at[2], 5) && r[3] == (286, 2) && r[4] == (at[9], 1)
      && r[5] == (at[8], 13) && r[6] == (at[4], 21) && r[7] == (at[0], 8) && r[8] == (at[3], 3)
  {
    hide Heap.Removed, Heap.Up;
    First286(ns, at);
    var one := Heap.Removed(ns);
    Second286(one, at);
    var two := Heap.Removed(one);
    var u0 := two + [(286, 2)];
    Heap.UpStep(u0, 8);
    var u1 := Heap.Swapped(u0, 8, 3);
    Heap.UpStep(u1, 3);
  }

  lemma First287(ns: Nodes, at: Labels)
    requires
      && |ns| == 9 && ns[0] == (at[6], 1) && ns[1] == (at[7], 1) && ns[2] == (at[2], 5) && ns[3] == (286, 2)
      && ns[4] == (at[9], 1) && ns[5] == (at[8], 13) && ns[6] == (at[4], 21) && ns[7] == (at[0], 8) && ns[8] == (at[3], 3)
    ensures var r := Heap.Removed(ns);
      && |r| == 8 && r[0] == (at[7], 1) && r[1] == (at[9], 1) && r[2] == (at[2], 5) && r[3] == (286, 2) && r[4] == (at[3], 3)
      && r[5] == (at[8], 13) && r[6] == (at[4], 21) && r[7] == (at[0], 8)
  {
    hide Heap.Down, Heap.Child;
    var s0 := ns[..8][0 := ns[8]];
    Heap.DownStep(s0, 0);
    Heap.ChildIs(s0, 0, 1);
    var s1 := Heap.Swapped(s0, 0, 1);
    Heap.DownStep(s1, 1);
    Heap.ChildIs(s1, 1, 4);
    var s2 := Heap.Swapped(s1, 1, 4);
    Heap.DownStep(s2, 4);
  }

  lemma Second287(one: Nodes, at: Labels)
    requires
      && |one| == 8 && one[0] == (at[7], 1) && one[1] == (at[9], 1) && one[2] == (at[2], 5) && one[3] == (286, 2)
      && one[4] == (at[3], 3) && one[5] == (at[8], 13) && one[6] == (at[4], 21) && one[7] == (at[0], 8)
    ensures var r := Heap.Removed(one);
      && |r| == 7 && r[0] == (at[9], 1) && r[1] == (286, 2) && r[2] == (at[2], 5) && r[3] == (at[0], 8) && r[4] == (at[3], 3)
      && r[5] == (at[8], 13) && r[6] == (at[4], 21)
  {
    hide Heap.Down, Heap.Child;
    var t0 := one[..7][0 := one[7]];
    Heap.DownStep(t0, 0);
    Heap.ChildIs(t0, 0, 1);
    var t1 := Heap.Swapped(t0, 0, 1);
    Heap.DownStep(t1, 1);
    Heap.ChildIs(t1, 1, 3);
    var t2 := Heap.Swapped(t1, 1, 3);
    Heap.DownStep(t2, 3);
  }

  lemma Merge287(ns: Nodes, at: Labels)
    requires
      && |ns| == 9 && ns[0] == (at[6], 1) && ns[1] == (at[7], 1) && ns[2] == (at[2], 5) && ns[3] == (286, 2)
      && ns[4] == (at[9], 1) && ns[5] == (at[8], 13) && ns[6] == (at[4], 21) && ns[7] == (at[0], 8) && ns[8] == (at[3], 3)
    ensures Heap.Removed(ns)[0] == (at[7], 1)
    ensures var r := Heap.Inserted(Heap.Removed(Heap.Removed(ns)), (287, 2));
      && |r| == 8 && r[0] == (at[9], 1) && r[1] == (286, 2) && r[2] == (at[2], 5) && r[3] == (287, 2) && r[4] == (at[3], 3)
      && r[5] == (at[8], 13) && r[6] == (at[4], 21) && r[7] == (at[0], 8)
  {
    hide Heap.Removed, Heap.Up;
    First287(ns, at);
    var one := Heap.Removed(ns);
    Second287(one, at);
    var two := Heap.Removed(one);
    var u0 := two + [(287, 2)];
    Heap.UpStep(u0, 7);
    var u1 := Heap.Swapped(u0, 7, 3);
    Heap.UpStep(u1, 3);
  }

  lemma First288(ns: Nodes, at: Labels)
    requires
      && |ns| == 8 && ns[0] == (at[9], 1) && ns[1] == (286, 2) && ns[2] == (at[2], 5) && ns[3] == (287, 2)
      && ns[4] == (at[3], 3) && ns[5] == (at[8], 13) && ns[6] == (at[4], 21) && ns[7] == (at[0], 8)
    ensures var r := Heap.Removed(ns);
      && |r| == 7 && r[0] == (286, 2) && r[1] == (287, 2) && r[2] == (at[2], 5) && r[3] == (at[0], 8) && r[4] == (at[3], 3)
      && r[5] == (at[8], 13) && r[6] == (at[4], 21)
  {
    hide Heap.Down, Heap.Child;
    var s0 := ns[..7][0 := ns[7]];
    Heap.DownStep(s0, 0);
    Heap.ChildIs(s0, 0, 1);
    var s1 := Heap.Swapped(s0, 0, 1);
    Heap.DownStep(s1, 1);
    Heap.ChildIs(s1, 1, 3);
    var s2 := Heap.Swapped(s1, 1, 3);
    Heap.DownStep(s2, 3);
  }

  lemma Second288(one: Nodes, at: Labels)
    requires
      && |one| == 7 && one[0] == (286, 2) && one[1] == (287, 2) && one[2] == (at[2], 5) && one[3] == (at[0], 8)
      && one[4] == (at[3], 3) && one[5] == (at[8], 13) && one[6] == (at[4], 21)
    ensures var r := Heap.Removed(one);
      && |r| == 6 && r[0] == (287, 2) && r[1] == (at[3], 3) && r[2] == (at[2], 5) && r[3] == (at[0], 8)
      && r[4] == (at[4], 21) && r[5] == (at[8], 13)
  {
    hide Heap.Down, Heap.Child;
    var t0 := one[..6][0 := one[6]];
    Heap.DownStep(t0, 0);
    Heap.ChildIs(t0, 0, 1);
    var t1 := Heap.Swapped(t0, 0, 1);
    Heap.DownStep(t1, 1);
    Heap.ChildIs(t1, 1, 4);
    var t2 := Heap.Swapped(t1, 1, 4);
    Heap.DownStep(t2, 4);
  }

  lemma Merge288(ns: Nodes, at: Labels)
    requires
      && |ns| == 8 && ns[0] == (at[9], 1) && ns[1] == (286, 2) && ns[2] == (at[2], 5) && ns[3] == (287, 2)
      && ns[4] == (at[3], 3) && ns[5] == (at[8], 13) && ns[6] == (at[4], 21) && ns[7] == (at[0], 8)
    ensures Heap.Removed(ns)[0] == (286, 2)
    ensures var r := Heap.Inserted(Heap.Removed(Heap.Removed(ns)), (288, 3));
      && |r| == 7 && r[0] == (287, 2) && r[1] == (at[3], 3) && r[2] == (288, 3) && r[3] == (at[0], 8) && r[4] == (at[4], 21)
      && r[5] == (at[8], 13) && r[6] == (at[2], 5)
  {
    hide Heap.Removed, Heap.Up;
    First288(ns, at);
    var one := Heap.Removed(ns);
    Second288(one, at);
    var two := Heap.Removed(one);
    var u0 := two + [(288, 3)];
    Heap.UpStep(u0, 6);
    var u1 := Heap.Swapped(u0, 6, 2);
    Heap.UpStep(u1, 2);
  }

  lemma First289(ns: Nodes, at: Labels)
    requires
      && |ns| == 7 && ns[0] == (287, 2) && ns[1] == (at[3], 3) && ns[2] == (288, 3) && ns[3] == (at[0], 8)
      && ns[4] == (at[4], 21) && ns[5] == (at[8], 13) && ns[6] == (at[2], 5)
    ensures var r := Heap.Removed(ns);
      && |r| == 6 && r[0] == (288, 3) && r[1] == (at[3], 3) && r[2] == (at[2], 5) && r[3] == (at[0], 8)
      && r[4] == (at[4], 21) && r[5] == (at[8], 13)
  {
    hide Heap.Down, Heap.Child;
    var s0 := ns[..6][0 := ns[6]];
    Heap.DownStep(s0, 0);
    Heap.ChildIs(s0, 0, 2);
    var s1 := Heap.Swapped(s0, 0, 2);
    Heap.DownStep(s1, 2);
    Heap.ChildIs(s1, 2, 5);
  }

  lemma Second289(one: Nodes, at: Labels)
    requires
      && |one| == 6 && one[0] == (288, 3) && one[1] == (at[3], 3) && one[2] == (at[2], 5) && one[3] == (at[0], 8)
      && one[4] == (at[4], 21) && one[5] == (at[8], 13)
    ensures var r := Heap.Removed(one);
      && |r| == 5 && r[0] == (at[3], 3) && r[1] == (at[0], 8) && r[2] == (at[2], 5) && r[3] == (at[8], 13)
      && r[4] == (at[4], 21)
  {
    hide Heap.Down, Heap.Child;
    var t0 := one[..5][0 := one[5]];
    Heap.DownStep(t0, 0);
    Heap.ChildIs(t0, 0, 1);
    var t1 := Heap.Swapped(t0, 0, 1);
    Heap.DownStep(t1, 1);
    Heap.ChildIs(t1, 1, 3);
    var t2 := Heap.Swapped(t1, 1, 3);
    Heap.DownStep(t2, 3);
  }

  lemma Merge289(ns: Nodes, at: Labels)
    requires
      && |ns| == 7 && ns[0] == (287, 2) && ns[1] == (at[3], 3) && ns[2] == (288, 3) && ns[3] == (at[0], 8)
      && ns[4] == (at[4], 21) && ns[5] == (at[8], 13) && ns[6] == (at[2], 5)
    ensures Heap.Removed(ns)[0] == (288, 3)
    ensures var r := Heap.Inserted(Heap.Removed(Heap.Removed(ns)), (289, 5));
      && |r| == 6 && r[0] == (at[3], 3) && r[1] == (at[0], 8) && r[2] == (at[2], 5) && r[3] == (at[8], 13)
      && r[4] == (at[4], 21) && r[5] == (289, 5)
  {
    hide Heap.Removed, Heap.Up;
    First289(ns, at);
    var one := Heap.Removed(ns);
    Second289(one, at);
    var two := Heap.Removed(one);
    var u0 := two + [(289, 5)];
    Heap.UpStep(u0, 5);
  }

  lemma Merge290(ns: Nodes, at: Labels)
    requires
      && |ns| == 6 && ns[0] == (at[3], 3) && ns[1] == (at[0], 8) && ns[2] == (at[2], 5) && ns[3] == (at[8], 13)
      && ns[4] == (at[4], 21) && ns[5] == (289, 5)
    ensures Heap.Removed(ns)[0] == (289, 5)
    ensures var r := Heap.Inserted(Heap.Removed(Heap.Removed(ns)), (290, 8));
      && |r| == 5 && r[0] == (at[2], 5) && r[1] == (at[0], 8) && r[2] == (at[4], 21) && r[3] == (at[8], 13)
      && r[4] == (290, 8)
  {
    hide Heap.Down, Heap.Up, Heap.Child;
    var s0 := ns[..5][0 := ns[5]];
    Heap.DownStep(s0, 0);
    Heap.ChildIs(s0, 0, 2);
    var one := Heap.Removed(ns);
    var t0 := one[..4][0 := one[4]];
    Heap.DownStep(t0, 0);
    Heap.ChildIs(t0, 0, 2);
    var t1 := Heap.Swapped(t0, 0, 2);
    Heap.DownStep(t1, 2);
    var two := Heap.Removed(one);
    var u0 := two + [(290, 8)];
    Heap.UpStep(u0, 4);
  }

  lemma Merge291(ns: Nodes, at: Labels)
    requires
      && |ns| == 5 && ns[0] == (at[2], 5) && ns[1] == (at[0], 8) && ns[2] == (at[4], 21) && ns[3] == (at[8], 13)
      && ns[4] == (290, 8)
    ensures Heap.Removed(ns)[0] == (290, 8)
    ensures var r := Heap.Inserted(Heap.Removed(Heap.Removed(ns)), (291, 13));
      && |r| == 4 && r[0] == (at[0], 8) && r[1] == (at[8], 13) && r[2] == (at[4], 21) && r[3] == (291, 13)
  {
    hide Heap.Down, Heap.Up, Heap.Child;
    var s0 := ns[..4][0 := ns[4]];
    Heap.DownStep(s0, 0);
    Heap.ChildIs(s0, 0, 1);
    var one := Heap.Removed(ns);
    var t0 := one[..3][0 := one[3]];
    Heap.DownStep(t0, 0);
    Heap.ChildIs(t0, 0, 1);
    var t1 := Heap.Swapped(t0, 0, 1);
    Heap.DownStep(t1, 1);
    var two := Heap.Removed(one);
    var u0 := two + [(291, 13)];
    Heap.UpStep(u0, 3);
  }

  lemma Merge292(ns: Nodes, at: Labels)
    requires
      && |ns| == 4 && ns[0] == (at[0], 8) && ns[1] == (at[8], 13) && ns[2] == (at[4], 21) && ns[3] == (291, 13)
    ensures Heap.Removed(ns)[0] == (291, 13)
    ensures var r := Heap.Inserted(Heap.Removed(Heap.Removed(ns)), (292, 21));
      && |r| == 3 && r[0] == (at[8], 13) && r[1] == (at[4], 21) && r[2] == (292, 21)
  {
    hide Heap.Down, Heap.Up, Heap.Child;
    var s0 := ns[..3][0 := ns[3]];
    Heap.DownStep(s0, 0);
    Heap.ChildIs(s0, 0, 1);
    var one := Heap.Removed(ns);
    var t0 := one[..2][0 := one[2]];
    Heap.DownStep(t0, 0);
    Heap.ChildIs(t0, 0, 1);
    var t1 := Heap.Swapped(t0, 0, 1);
    Heap.DownStep(t1, 1);
    var two := Heap.Removed(one);
    var u0 := two + [(292, 21)];
    Heap.UpStep(u0, 2);
  }

  lemma Merge293(ns: Nodes, at: Labels)
    requires |ns| == 3 && ns[0] == (at[8], 13) && ns[1] == (at[4], 21) && ns[2] == (292, 21)
    ensures Heap.Removed(ns)[0] == (292, 21)
    ensures var r := Heap.Inserted(Heap.Removed(Heap.Removed(ns)), (293, 34));
      && |r| == 2 && r[0] == (at[4], 21) && r[1] == (293, 34)
  {
    hide Heap.Down, Heap.Up, Heap.Child;
    var s0 := ns[..2][0 := ns[2]];
    Heap.DownStep(s0, 0);
    Heap.ChildIs(s0, 0, 1);
    var one := Heap.Removed(ns);
    var t0 := one[..1][0 := one[1]];
    Heap.DownStep(t0, 0);
    var two := Heap.Removed(one);
    var u0 := two + [(293, 34)];
    Heap.UpStep(u0, 1);
  }

  lemma Merge294(ns: Nodes, at: Labels)
    requires |ns| == 2 && ns[0] == (at[4], 21) && ns[1] == (293, 34)
    ensures Heap.Removed(ns)[0] == (293, 34)
    ensures var r := Heap.Inserted(Heap.Removed(Heap.Removed(ns)), (294, 55));
      && |r| == 1 && r[0] == (294, 55)
  {
    hide Heap.Down, Heap.Up, Heap.Child;
    var s0 := ns[..1][0 := ns[1]];
    Heap.DownStep(s0, 0);
    var one := Heap.Removed(ns);
    Emptied(one);
    var two := Heap.Removed(one);
    var u0 := two + [(294, 55)];
    Heap.UpStep(u0, 0);
  }

  /** One merge. */
  lemma Step(ns: Nodes, par: seq<int>, n: int, a: nat, fa: int, b: nat, fb: int) returns (next: Nodes, p: seq<int>)
    requires |ns| > 1 && ns[0] == (a, fa) && Heap.Removed(ns)[0] == (b, fb) && |par| == 571 && a < 571 && b < 571
    ensures next == Heap.Inserted(Heap.Removed(Heap.Removed(ns)), (n, fa + fb)) && p == par[a := n][b := n]
    ensures Linked(ns, par, n) == Linked(next, p, n + 1)
  {
    hide Linked, Heap.Inserted, Heap.Removed;
    next, p := Heap.Inserted(Heap.Removed(Heap.Removed(ns)), (n, fa + fb)), par[a := n][b := n];
    LinkedStep(ns, par, n, a, fa, b, fb);
  }

  /** The second symbol and the nodes above it. */
  lemma Path(at: Labels)
    requires Rising(at)
    ensures var p := ParentsOf(FreqsAt(at), 19);
      && p[at[1]] == 286 && p[286] == 288 && p[288] == 289 && p[289] == 290 && p[290] == 291 && p[291] == 292
      && p[292] == 293 && p[293] == 294 && p[294] == 0
  {
    hide Filled, Linked, Heap.Inserted, Heap.Removed;
    FilledAll(at);
    hide FreqsAt;
    var fs := FreqsAt(at);
    var ns, p := Filled(fs, 19), seq(2 * HUFMAX - 1, _ => 0);
    ParentsAre(fs, 19, p);
    Merge286(ns, at);
    ns, p := Step(ns, p, 286, at[1], 1, at[5], 1);
    Merge287(ns, at);
    ns, p := Step(ns, p, 287, at[6], 1, at[7], 1);
    Merge288(ns, at);
    ns, p := Step(ns, p, 288, at[9], 1, 286, 2);
    Merge289(ns, at);
    ns, p := Step(ns, p, 289, 287, 2, 288, 3);
    Merge290(ns, at);
    ns, p := Step(ns, p, 290, at[3], 3, 289, 5);
    Merge291(ns, at);
    ns, p := Step(ns, p, 291, at[2], 5, 290, 8);
    Merge292(ns, at);
    ns, p := Step(ns, p, 292, at[0], 8, 291, 13);
    Merge293(ns, at);
    ns, p := Step(ns, p, 293, at[8], 13, 292, 21);
    Merge294(ns, at);
    ns, p := Step(ns, p, 294, at[4], 21, 293, 34);
    LinkedEnds(ns, p, 295);
  }

  lemma Emptied(ns: Nodes)
    requires |ns| == 1
    ensures Heap.Removed(ns) == []
  {
  }

  lemma EightSteps(p: seq<int>, i: nat)
    requires |p| == 571 && i < 19 && p[i] == 286 && p[286] == 288 && p[288] == 289 && p[289] == 290 && p[290] == 291
    requires p[291] == 292 && p[292] == 293 && p[293] == 294 && p[294] == 0
    ensures Steps(p, i, 572) == 8
  {
    assert Steps(p, 293, 565) == 1 + Steps(p, 294, 564) == 1;
    assert Steps(p, 291, 567) == 1 + Steps(p, 292, 566) == 3;
    assert Steps(p, 289, 569) == 1 + Steps(p, 290, 568) == 5;
    assert Steps(p, 286, 571) == 1 + Steps(p, 288, 570) == 7;
  }

  /** The assertion at the end of deflate_buildhuf fails for these frequencies. */
  lemma TheAssertionFails(at: Labels)
    requires Rising(at)
    ensures var fs := FreqsAt(at);
      HufLength(fs, 19, at[1]) == 8 && Excess(fs, 19, 7) == 0 && Adjusted(fs, 19, 7) == fs && !Codable(fs, 19, 7)
  {
    Numbers(at);
    Path(at);
    NoneNegative(at);
    var fs := FreqsAt(at);
    hide Sum, Smallest, CountPositive, Filled, Linked, Steps, FreqsAt, ParentsOf, FreqAt;
    EightSteps(ParentsOf(fs, 19), at[1]);
    assert HufLength(fs, 19, at[1]) == 8;
    RaisedByZero(fs, 19);
  }

  lemma NoneNegative(at: Labels)
    ensures forall i :: 0 <= i < 19 ==> FreqsAt(at)[i] >= 0
  {
  }

  /** For instance, with the first ten symbols. */
  lemma ForInstance()
    ensures !Codable([8, 1, 5, 3, 21, 1, 1, 1, 13, 1, 0, 0, 0, 0, 0, 0, 0, 0, 0], 19, 7)
  {
    FirstTen();
    hide *;
    TheAssertionFails([0, 1, 2, 3, 4, 5, 6, 7, 8, 9]);
  }

  lemma FirstTen()
    ensures Rising([0, 1, 2, 3, 4, 5, 6, 7, 8, 9])
    ensures FreqsAt([0, 1, 2, 3, 4, 5, 6, 7, 8, 9]) == [8, 1, 5, 3, 21, 1, 1, 1, 13, 1, 0, 0, 0, 0, 0, 0, 0, 0, 0]
  {
  }
}

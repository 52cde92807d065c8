/** Huffman lengths make complete canonical codes. */
module HuffmanCodes {
  import opened Bits
  import opened Kraft
  import opened HuffmanTheory
  import opened Huffman
  import Canonical

  /** With two symbols in a full code space, none can have length 0. */
  lemma NoZeroLength(d: Lengths, max: nat, a: int, b: int)
    requires forall i :: i in d ==> d[i] <= max
    requires KraftSum(d, max) <= Pow2(max) && a in d && b in d && a != b
    ensures d[a] > 0
  {
    KraftRemoveTwo(d, max, a, b);
    KraftNonNegative(d - {a} - {b}, max);
  }

  lemma {:induction false} KraftDown(d: Lengths, max: nat)
    requires (forall i :: i in d ==> d[i] <= 15) && max >= 15
    requires KraftSum(d, max) == Pow2(max)
    ensures KraftSum(d, 15) == Pow2(15)
    decreases max
  {
    hide Total, KraftSum;
    if max > 15 {
      KraftHalves(d, max);
      KraftDown(d, max - 1);
    }
  }

  ghost function Below(d: Lengths, n: int): Lengths {
    map i | i in d && i < n :: d[i]
  }

  lemma {:induction false} KraftByIndex(d: Lengths, ls: seq<Canonical.CodeLen>, n: nat)
    requires n <= |ls| && forall i :: i in d ==> 0 < d[i] <= 15
    requires forall i :: i in d ==> i >= 0
    requires forall i :: 0 <= i < |ls| ==> ls[i] == if i in d then d[i] else 0
    ensures Canonical.KraftTo(ls, n) == KraftSum(Below(d, n), 15)
  {
    hide Total, KraftSum;
    if n == 0 {
      KraftEmpty(Below(d, 0), 15);
    } else {
      KraftByIndex(d, ls, n - 1);
      if n - 1 in d {
        KraftRemove(Below(d, n), 15, n - 1);
        assert Below(d, n) - {n - 1} == Below(d, n - 1);
      } else {
        assert Below(d, n) == Below(d, n - 1);
      }
    }
  }

  /** Huffman lengths of at least two symbols, none above 15, are those of a
      complete canonical code. */
  lemma HuffmanComplete(w: Weights, d: Lengths, ls: seq<Canonical.CodeLen>, a: int, b: int)
    requires IsHuffman(w, d) && a in w && b in w && a != b
    requires forall i :: i in w ==> 0 <= i < |ls| && d[i] <= 15
    requires forall i :: 0 <= i < |ls| ==> ls[i] == if i in d then d[i] else 0
    ensures Canonical.Complete(ls)
    ensures forall i :: 0 <= i < |ls| ==> (ls[i] > 0 <==> i in w)
  {
    hide Total, KraftSum, Cost, Optimal, FibonacciBounded, Pow2;
    forall i | i in d
      ensures d[i] > 0
    {
      NoZeroLength(d, 2 * HUFMAX - 1, i, if i == a then b else a);
    }
    KraftDown(d, 2 * HUFMAX - 1);
    KraftByIndex(d, ls, |ls|);
    assert Below(d, |ls|) == d;
    Canonical.BaseIsKraft(ls, |ls|);
  }
}

/** How far input repeats what it had before, and input in which nothing is repeated. */
module Repeats {
  import opened Bits
  import opened Tokens

  /** How far the input from q on repeats what starts at p. */
  function Common(input: seq<byte>, q: nat, p: nat): (len: nat)
    requires p < q <= |input|
    ensures Agrees(input, q, q - p, len)
    ensures q + len == |input| || input[q + len] != input[p + len]
    decreases |input| - q
  {
    if q < |input| && input[q] == input[p] then 1 + Common(input, q + 1, p + 1) else 0
  }

  lemma {:induction false} CommonReaches(input: seq<byte>, q: nat, p: nat, len: nat)
    requires p < q <= |input| && Agrees(input, q, q - p, len)
    ensures len <= Common(input, q, p)
    decreases len
  {
    if len > 0 {
      assert input[q] == input[q - (q - p)];
      CommonReaches(input, q + 1, p + 1, len - 1);
    }
  }

  /** Nothing else agrees this far and no further. */
  lemma CommonIs(input: seq<byte>, q: nat, p: nat, len: nat)
    requires p < q <= |input| && Agrees(input, q, q - p, len)
    requires q + len == |input| || input[q + len] != input[p + len]
    ensures len == Common(input, q, p)
  {
    CommonReaches(input, q, p, len);
    assert q + len < |input| ==> input[q + len - (q - p)] != input[q + len];
  }

  function Four(input: seq<byte>, p: nat): seq<byte>
    requires p + 4 <= |input|
  {
    input[p..p + 4]
  }

  /** Any four bytes in a row occur only once. */
  ghost predicate NoFourTwice(input: seq<byte>) {
    forall p: nat, q: nat :: p < q && q + 4 <= |input| ==> Four(input, p) != Four(input, q)
  }

  /** Ascending bytes are such input. */
  function Ascending(n: nat): seq<byte>
    requires n <= 256
  {
    seq(n, i requires 0 <= i < n => i)
  }

  lemma AscendingOnce(n: nat)
    requires n <= 256
    ensures NoFourTwice(Ascending(n))
  {
    var input := Ascending(n);
    forall p: nat, q: nat | p < q && q + 4 <= |input| ensures Four(input, p) != Four(input, q) {
      assert Four(input, p)[0] == p && Four(input, q)[0] == q;
    }
  }

  /** In such input there is nothing to copy. */
  lemma NothingAgrees(input: seq<byte>, q: nat, d: nat, n: nat)
    requires NoFourTwice(input) && n >= 4
    ensures !Agrees(input, q, d, n)
  {
    if Agrees(input, q, d, n) {
      var was, now := Four(input, q - d), Four(input, q);
      forall i | 0 <= i < 4 ensures was[i] == now[i] {
        assert input[q + i] == input[q + i - d];
      }
    }
  }
}

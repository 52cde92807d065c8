/** What LZ77 hands on to the coder: literals and copies of earlier output. */
module Tokens {
  import opened Bits

  datatype Token = Literal(c: byte) | Copy(distance: nat, len: nat)

  const WINSIZE: nat := 32768

  /** Copying byte by byte, so that a copy may overlap itself. */
  function CopyBytes(hist: seq<byte>, d: nat, n: nat): (r: seq<byte>)
    requires 1 <= d <= |hist|
    ensures |r| == |hist| + n && hist <= r
    decreases n
  {
    if n == 0 then hist else CopyBytes(hist + [hist[|hist| - d]], d, n - 1)
  }

  lemma CopyUnfold(was: seq<byte>, d: nat, n: nat)
    requires 1 <= d <= |was|
    ensures was <= CopyBytes(was, d, n)
    ensures n == 0 ==> CopyBytes(was, d, n) == was
    ensures n > 0 ==> CopyBytes(was, d, n) == CopyBytes(was + [was[|was| - d]], d, n - 1)
  {
  }

  /** The token reaches back neither past the window nor past the start. */
  predicate LegalToken(hist: seq<byte>, t: Token) {
    t.Copy? ==> 1 <= t.distance <= WINSIZE && t.distance <= |hist| && t.len >= 3
  }

  function Apply(hist: seq<byte>, t: Token): (r: seq<byte>)
    requires LegalToken(hist, t)
    ensures hist <= r
  {
    match t
    case Literal(c) => hist + [c]
    case Copy(d, n) => CopyBytes(hist, d, n)
  }

  predicate Legal(hist: seq<byte>, ts: seq<Token>)
    decreases |ts|, 0
  {
    ts == [] || (Legal(hist, ts[..|ts| - 1]) && LegalToken(Expand(hist, ts[..|ts| - 1]), ts[|ts| - 1]))
  }

  /** The data after hist and everything the tokens stand for. */
  function Expand(hist: seq<byte>, ts: seq<Token>): (r: seq<byte>)
    requires Legal(hist, ts)
    ensures hist <= r
    decreases |ts|, 1
  {
    if ts == [] then hist else Apply(Expand(hist, ts[..|ts| - 1]), ts[|ts| - 1])
  }

  lemma ExpandOne(hist: seq<byte>, ts: seq<Token>, t: Token)
    requires Legal(hist, ts) && LegalToken(Expand(hist, ts), t)
    ensures Legal(hist, ts + [t]) && Expand(hist, ts + [t]) == Apply(Expand(hist, ts), t)
  {
    assert (ts + [t])[..|ts|] == ts;
  }

  /** The n bytes of input at p repeat the bytes d earlier. */
  predicate Agrees(input: seq<byte>, p: nat, d: nat, n: nat) {
    1 <= d <= p && p + n <= |input| && forall i :: p <= i < p + n ==> input[i] == input[i - d]
  }

  /** A verified match stands for the bytes it was found at. */
  lemma {:induction false} CopyOfMatch(input: seq<byte>, p: nat, d: nat, n: nat)
    requires Agrees(input, p, d, n)
    ensures CopyBytes(input[..p], d, n) == input[..p + n]
    decreases n
  {
    if n > 0 {
      CopyOfMatch(input, p + 1, d, n - 1);
      assert input[..p] + [input[p - d]] == input[..p + 1];
    }
  }
}

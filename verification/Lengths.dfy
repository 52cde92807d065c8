/** Lengths written as bytes of 255 and a last smaller one. */
module Lengths {
  import opened Bits

  function Tail(n: nat): (b: seq<byte>)
    ensures |b| == n / 255 + 1
  {
    if n >= 255 then [255] + Tail(n - 255) else [n]
  }

  method WriteTail(out: array<byte>, dst: nat, n: nat) returns (dst': nat)
    requires dst + |Tail(n)| <= out.Length
    modifies out
    ensures dst' == dst + |Tail(n)| && out[..dst'] == old(out[..dst]) + Tail(n)
    ensures out[dst'..] == old(out[dst'..])
  {
    dst' := dst;
    var left := n;
    while left >= 255
      invariant dst <= dst' && dst' + |Tail(left)| <= out.Length
      invariant out[..dst'] + Tail(left) == old(out[..dst]) + Tail(n)
      invariant forall k :: dst' <= k < out.Length ==> out[k] == old(out[k])
    {
      ghost var was := out[..dst'];
      out[dst'] := 255;
      dst' := dst' + 1;
      assert out[..dst'] == was + [255];
      left := left - 255;
    }
    ghost var was := out[..dst'];
    out[dst'] := left;
    dst' := dst' + 1;
    assert out[..dst'] == was + [left];
  }
}

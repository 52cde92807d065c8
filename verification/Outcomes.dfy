/** When the compressor fails, for calls that fill a single block: exactly if the symbols
    of all the data have no trees. And data for which they are literals. */
module Outcomes {
  import opened Bits
  import opened Symbols
  import opened Tokens
  import opened BlockTrees
  import opened Encoding
  import LZ77

  // ---- A single block

  /** All symbols of the calls. */
  ghost function AllSyms(calls: seq<Call>): seq<Sym> {
    if calls == [] then [] else
      var n := |calls| - 1;
      AllSyms(calls[..n]) + SymsFrom(DataOf(calls), |DataOf(calls[..n])|)
  }

  predicate Unflushed(calls: seq<Call>) {
    forall i :: 0 <= i < |calls| ==> !calls[i].sync
  }

  lemma {:induction false} AllBuffered(calls: seq<Call>)
    requires Unflushed(calls) && |AllSyms(calls)| < SYMLIMIT
    ensures Encoding.After(calls) == Encoder([], AllSyms(calls), false)
  {
    hide SymsFrom, Pushes, SYMLIMIT;
    if calls != [] {
      var n := |calls| - 1;
      AllBuffered(calls[..n]);
      NotFull(Encoding.After(calls[..n]), SymsFrom(DataOf(calls), |DataOf(calls[..n])|));
    }
  }

  /** As long as no block is sent before the end, an assertion fails exactly if the symbols
      have no trees. */
  lemma SingleBlock(calls: seq<Call>, last: seq<byte>)
    requires var all := calls + [Call(last, false)]; Unflushed(all) && |AllSyms(all)| < SYMLIMIT
    ensures Fails(calls, last) <==> !Plannable(AllSyms(calls + [Call(last, false)]))
  {
    var all := calls + [Call(last, false)];
    assert all[..|calls|] == calls;
    AllBuffered(all);
    hide Plannable, Fed, AllSyms, Dynamic;
    var e := Encoding.After(all);
    assert e == Fed(Encoding.After(calls), DataOf(calls), last);
    assert e.buf[..|e.buf|] == e.buf;
  }

  // ---- Data that stays literal

  /** From p on, no three bytes are found in the window. */
  ghost predicate NothingFound(full: seq<byte>, p: nat) {
    forall q :: p <= q && q + LZ77.HASHCHARS <= |full| ==> !LZ77.Repeats(full, q)
  }

  lemma OneLiteral(c: byte)
    ensures CallSyms([Literal(c)]) == [LitLenSym(c)] == Literals([c])
  {
    assert [Literal(c)][..0] == [] && [c][..0] == [];
    assert CallSyms([]) == [] && Literals([]) == [];
  }

  /** Then lazy matching makes literals of all that follows. */
  lemma {:induction false} OnlyLiterals(full: seq<byte>, p: nat)
    requires p <= |full| && NothingFound(full, p)
    ensures SymsFrom(full, p) == Literals(full[p..])
    decreases |full| - p
  {
    hide LZ77.Repeats, CallSyms, Literals;
    if p < |full| {
      LZ77.NoChoice(full, p, true);
      OnlyLiterals(full, p + 1);
      OneLiteral(full[p]);
      SymsAppend([Literal(full[p])], LZ77.Lazy(full, p + 1, true, LZ77.NONE));
      LiteralsJoin([full[p]], full[p + 1..]);
      assert full[p..] == [full[p]] + full[p + 1..];
    } else {
      NoSyms(full[p..]);
    }
  }

  lemma NoSyms(s: seq<byte>)
    requires s == []
    ensures CallSyms([]) == [] == Literals(s)
  {
  }

  /** One or two bytes at a time are never looked up. */
  lemma TinyBlock(before: seq<byte>, block: seq<byte>)
    requires |block| < LZ77.HASHCHARS
    ensures SymsFrom(before + block, |before|) == Literals(block)
  {
    hide LZ77.Repeats, SymsFrom, Literals;
    assert (before + block)[|before|..] == block;
    OnlyLiterals(before + block, |before|);
  }

  predicate Tiny(calls: seq<Call>) {
    forall i :: 0 <= i < |calls| ==> |calls[i].block| < LZ77.HASHCHARS
  }

  lemma {:induction false} TinyCalls(calls: seq<Call>)
    requires Tiny(calls)
    ensures AllSyms(calls) == Literals(DataOf(calls))
  {
    hide SymsFrom, Literals;
    if calls == [] {
      NoSyms([]);
    } else {
      var n := |calls| - 1;
      TinyCalls(calls[..n]);
      TinyBlock(DataOf(calls[..n]), calls[n].block);
      LiteralsJoin(DataOf(calls[..n]), calls[n].block);
    }
  }

  /** The same three bytes stand at i and at j. */
  predicate ThreeSame(data: seq<byte>, i: nat, j: nat)
    requires i + 3 <= |data| && j + 3 <= |data|
  {
    data[i] == data[j] && data[i + 1] == data[j + 1] && data[i + 2] == data[j + 2]
  }

  /** No three bytes stand together twice. */
  ghost predicate NoThreeTwice(data: seq<byte>) {
    forall i: nat, j: nat :: i < j && j + 3 <= |data| ==> !ThreeSame(data, i, j)
  }

  lemma NotBefore(data: seq<byte>, q: nat, d: nat)
    requires NoThreeTwice(data) && q + 3 <= |data| && 1 <= d
    ensures !Agrees(data, q, d, 3)
  {
    if Agrees(data, q, d, 3) {
      assert ThreeSame(data, q - d, q);
    }
  }

  lemma NothingTwice(data: seq<byte>)
    requires NoThreeTwice(data)
    ensures NothingFound(data, 0)
  {
    hide NoThreeTwice, Agrees;
    forall q | 0 <= q && q + LZ77.HASHCHARS <= |data| ensures !LZ77.Repeats(data, q) {
      forall d | 1 <= d <= WINSIZE ensures !Agrees(data, q, d, LZ77.HASHCHARS) {
        NotBefore(data, q, d);
      }
    }
  }

  /** Data of that kind, in one call, is sent as literals. */
  lemma AllLiteral(data: seq<byte>)
    requires NoThreeTwice(data)
    ensures AllSyms([Call(data, false)]) == Literals(data)
  {
    NothingTwice(data);
    OnlyLiterals(data, 0);
    hide NothingFound, SymsFrom, Literals;
    var calls := [Call(data, false)];
    assert calls[..0] == [] && DataOf([]) == [] && [] + data == data && data[0..] == data;
    assert DataOf(calls) == data && AllSyms([]) == [];
    assert [] + SymsFrom(data, 0) == SymsFrom(data, 0);
  }
}

/** The compressor as a function: which symbols the data becomes, where they are cut into
    blocks, and whether an assertion fails on the way. */
module Encoding {
  import opened Bits
  import opened Canonical
  import opened DeflateCodes
  import opened Symbols
  import opened SymbolCoding
  import opened TreeCoding
  import opened Blocks
  import opened BlockTrees
  import opened BlockChoice
  import opened Tokens
  import LZ77

  // ---- From calls of literal() and match() to symbols

  /** The first record from i on whose range does not end below v, or the last of all. */
  function Place(rs: seq<CodeRecord>, v: nat, i: nat): (k: nat)
    requires i < |rs|
    ensures i <= k < |rs|
    decreases |rs| - i
  {
    if v <= rs[i].max || i == |rs| - 1 then i else Place(rs, v, i + 1)
  }

  lemma {:induction false} PlaceIs(rs: seq<CodeRecord>, base: nat, lo: nat, hi: nat, v: nat, i: nat, k: nat)
    requires Tiles(rs, base, lo, hi) && i <= k < |rs| && rs[k].min <= v <= rs[k].max
    ensures Place(rs, v, i) == k
    decreases k - i
  {
    if i < k {
      TilesIncrease(rs, base, lo, hi, i, k);
      PlaceIs(rs, base, lo, hi, v, i + 1, k);
    }
  }

  /** A code and its extra bits, if any. */
  function WithExtra(s: Sym, r: CodeRecord, v: nat): seq<Sym> {
    if r.extrabits > 0 && v >= r.min then [s, ExtraBits(v - r.min, r.extrabits)] else [s]
  }

  /** A match of 3 to 258 bytes. */
  function ChunkSyms(distance: nat, n: nat): seq<Sym> {
    assert |LENCODES| == 29 && |DISTCODES| == 30;
    var l, d := LENCODES[Place(LENCODES, n, 0)], DISTCODES[Place(DISTCODES, distance, 0)];
    WithExtra(LitLenSym(l.code), l, n) + WithExtra(DistSym(d.code), d, distance)
  }

  /** How much of a match goes out at once. */
  function FirstChunk(len: nat): nat {
    if len > 260 then 258 else if len <= 258 then len else len - 3
  }

  function MatchSyms(distance: nat, len: nat): seq<Sym>
    decreases len
  {
    if len == 0 then [] else ChunkSyms(distance, FirstChunk(len)) + MatchSyms(distance, len - FirstChunk(len))
  }

  function TokenSyms(t: Token): seq<Sym> {
    match t
    case Literal(c) => [LitLenSym(c)]
    case Copy(d, n) => MatchSyms(d, n)
  }

  function CallSyms(calls: seq<Token>): seq<Sym> {
    if calls == [] then [] else CallSyms(calls[..|calls| - 1]) + TokenSyms(calls[|calls| - 1])
  }

  // ---- The sizes outblock() compares

  function SymLen(t: Codes, s: Sym): nat {
    match s
    case LitLenSym(c) => if c < |t.lit| then t.lit[c] else 0
    case DistSym(c) => if c < |t.dist| then t.dist[c] else 0
    case CodeLenSym(c) => if c < |t.lens| then t.lens[c] else 0
    case ExtraBits(_, n) => n
  }

  function SymLens(t: Codes, ss: seq<Sym>): nat {
    if ss == [] then 0 else SymLens(t, ss[..|ss| - 1]) + SymLen(t, ss[|ss| - 1])
  }

  lemma {:induction false} SymLensAre(t: Codes, ss: seq<Sym>)
    requires AllEncodable(t, ss)
    ensures |SymsBits(t, ss)| == SymLens(t, ss)
  {
    hide CodeBits, BitsOf;
    if ss != [] {
      SymLensAre(t, ss[..|ss| - 1]);
    }
  }

  function StaticSize(ss: seq<Sym>): nat {
    3 + SymLens(StaticCodes(), ss) + SymLen(StaticCodes(), LitLenSym(EOB))
  }

  function DynamicSize(t: Trees, ss: seq<Sym>): nat {
    3 + 5 + 5 + 4 + 3 * t.hclen + SymLens(CodesOf(t), t.spelling) + SymLens(CodesOf(t), ss) + SymLen(CodesOf(t), LitLenSym(EOB))
  }

  lemma SizesAre(final: bool, t: Trees, ss: seq<Sym>, plain: seq<Sym>)
    requires Sendable(t) && AllEncodable(CodesOf(t), ss) && AllEncodable(StaticCodes(), plain)
    ensures |DynamicBlockBits(final, t, ss)| == DynamicSize(t, ss) && |StaticBlockBits(final, plain)| == StaticSize(plain)
  {
    hide SymsBits, CodeBits, SymLens, Complete, AllEncodable, BitsOf;
    assert AllEncodable(CodesOf(t), t.spelling);
    SymLensAre(CodesOf(t), t.spelling);
    SymLensAre(CodesOf(t), ss);
    SymLensAre(StaticCodes(), plain);
  }

  /** Whether the first dynamicLen symbols as a dynamic block take fewer bits each than the
      first staticLen as a static one. */
  predicate Dynamic(ss: seq<Sym>, dynamicLen: nat, staticLen: nat)
    requires dynamicLen <= |ss| && staticLen <= |ss|
  {
    StaticSize(ss[..staticLen]) * dynamicLen > DynamicSize(TreesFor(ss[..dynamicLen]), ss[..dynamicLen]) * staticLen
  }

  // ---- The symbol buffer

  /** Symbols sent in blocks, and symbols in the buffer, unless an assertion has failed. */
  datatype Encoder = Encoder(done: seq<Sym>, buf: seq<Sym>, failed: bool)

  const FRESH: Encoder := Encoder([], [], false)

  /** outblock(). */
  function Cut(e: Encoder, dynamicLen: nat, staticLen: nat): Encoder
    requires dynamicLen <= |e.buf| && staticLen <= |e.buf|
  {
    if !Plannable(e.buf[..dynamicLen]) then e.(failed := true) else
      var n := if Dynamic(e.buf, dynamicLen, staticLen) then dynamicLen else staticLen;
      Encoder(e.done + e.buf[..n], e.buf[n..], false)
  }

  /** chooseblock(). */
  function CutSomewhere(e: Encoder): Encoder {
    var n := BestCut(e.buf, |e.buf|);
    if n <= 0 then e.(failed := true) else Cut(e, n, LastCut(e.buf, |e.buf|))
  }

  /** outsym(). */
  function Push(e: Encoder, s: Sym): Encoder {
    if e.failed then e else
      var f := e.(buf := e.buf + [s]);
      if |f.buf| == SYMLIMIT then CutSomewhere(f) else f
  }

  function Pushes(e: Encoder, ss: seq<Sym>): Encoder {
    if ss == [] then e else Push(Pushes(e, ss[..|ss| - 1]), ss[|ss| - 1])
  }

  /** flushblock(). */
  function Flushed(e: Encoder): Encoder {
    if e.failed then e else Cut(e, |e.buf|, |e.buf|)
  }

  /** The symbols of a call with the data from p on, which is all that has come by now. */
  ghost function SymsFrom(full: seq<byte>, p: nat): seq<Sym> {
    CallSyms(LZ77.Lazy(full, p, true, LZ77.NONE))
  }

  /** One call of deflate_compress_data. */
  ghost function Fed(e: Encoder, before: seq<byte>, block: seq<byte>): Encoder {
    Pushes(e, SymsFrom(before + block, |before|))
  }

  /** The same, with a flush or the end of the data behind it. */
  ghost function Called(e: Encoder, before: seq<byte>, block: seq<byte>, flush: bool): Encoder {
    if flush then Flushed(Fed(e, before, block)) else Fed(e, before, block)
  }

  // ---- All calls, from the first to the last

  datatype Call = Call(block: seq<byte>, sync: bool)

  function DataOf(calls: seq<Call>): seq<byte> {
    if calls == [] then [] else DataOf(calls[..|calls| - 1]) + calls[|calls| - 1].block
  }

  ghost function After(calls: seq<Call>): Encoder {
    if calls == [] then FRESH else
      var n := |calls| - 1;
      Called(After(calls[..n]), DataOf(calls[..n]), calls[n].block, calls[n].sync)
  }

  /** Some assertion fails in these calls or in the last one, that with the end of the data. */
  ghost predicate Fails(calls: seq<Call>, last: seq<byte>) {
    Called(After(calls), DataOf(calls), last, true).failed
  }

  lemma DataStep(calls: seq<Call>, i: nat)
    requires i < |calls|
    ensures DataOf(calls[..i + 1]) == DataOf(calls[..i]) + calls[i].block
    ensures After(calls[..i + 1]) == Called(After(calls[..i]), DataOf(calls[..i]), calls[i].block, calls[i].sync)
  {
    hide Called;
    assert calls[..i + 1][..i] == calls[..i];
  }

  lemma NoCalls(calls: seq<Call>)
    ensures DataOf(calls[..0]) == [] && After(calls[..0]) == FRESH
  {
  }

  lemma CalledStays(e: Encoder, before: seq<byte>, block: seq<byte>, flush: bool)
    requires e.failed
    ensures Called(e, before, block, flush) == e
  {
    hide LZ77.Lazy, CallSyms;
    FailedStays(e, SymsFrom(before + block, |before|));
  }

  /** What has failed stays so. */
  lemma {:induction false} FailedBefore(calls: seq<Call>, i: nat, last: seq<byte>)
    requires i <= |calls| && After(calls[..i]).failed
    ensures Fails(calls, last)
    decreases |calls| - i
  {
    hide Called, After;
    if i < |calls| {
      DataStep(calls, i);
      CalledStays(After(calls[..i]), DataOf(calls[..i]), calls[i].block, calls[i].sync);
      FailedBefore(calls, i + 1, last);
    } else {
      assert calls[..i] == calls;
      CalledStays(After(calls), DataOf(calls), last, true);
    }
  }

  // ---- Facts about it

  lemma {:induction false} PushAppend(e: Encoder, a: seq<Sym>, b: seq<Sym>)
    ensures Pushes(e, a + b) == Pushes(Pushes(e, a), b)
    decreases |b|
  {
    hide Push;
    if b == [] {
      assert a + b == a;
    } else {
      var n := |b| - 1;
      PushAppend(e, a, b[..n]);
      assert (a + b)[..|a| + n] == a + b[..n];
    }
  }

  lemma {:induction false} FailedStays(e: Encoder, ss: seq<Sym>)
    requires e.failed
    ensures Pushes(e, ss) == e
  {
    if ss != [] {
      FailedStays(e, ss[..|ss| - 1]);
    }
  }

  /** While the buffer does not fill up, nothing is sent and nothing fails. */
  lemma {:induction false} NotFull(e: Encoder, ss: seq<Sym>)
    requires !e.failed && |e.buf| + |ss| < SYMLIMIT
    ensures Pushes(e, ss) == e.(buf := e.buf + ss)
  {
    if ss == [] {
      assert e.buf + ss == e.buf;
    } else {
      var n := |ss| - 1;
      NotFull(e, ss[..n]);
      assert e.buf + ss == (e.buf + ss[..n]) + [ss[n]];
    }
  }

  lemma {:induction false} SymsAppend(a: seq<Token>, b: seq<Token>)
    ensures CallSyms(a + b) == CallSyms(a) + CallSyms(b)
    decreases |b|
  {
    hide TokenSyms;
    if b == [] {
      assert a + b == a;
    } else {
      var n := |b| - 1;
      SymsAppend(a, b[..n]);
      assert (a + b)[..|a| + n] == a + b[..n];
    }
  }

  lemma LastCall(calls: seq<Token>, t: Token)
    ensures CallSyms(calls + [t]) == CallSyms(calls) + TokenSyms(t)
  {
    assert (calls + [t])[..|calls|] == calls;
  }

  /** No more is ever sent than came in. */
  lemma CutKeeps(e: Encoder, dynamicLen: nat, staticLen: nat)
    requires dynamicLen <= |e.buf| && staticLen <= |e.buf|
    ensures var f := Cut(e, dynamicLen, staticLen); f.done + f.buf == e.done + e.buf
  {
    hide Plannable, Dynamic;
  }

  /** Symbols are neither lost nor made up, wherever the blocks are cut. */
  lemma {:induction false} PushesKeep(e: Encoder, ss: seq<Sym>)
    ensures var f := Pushes(e, ss); !f.failed ==> f.done + f.buf == e.done + e.buf + ss && !e.failed
  {
    hide Cut, BestCut, LastCut;
    if ss == [] {
      assert e.done + e.buf + ss == e.done + e.buf;
    } else {
      var n := |ss| - 1;
      PushesKeep(e, ss[..n]);
      var f := Pushes(e, ss[..n]);
      if !f.failed {
        PushKeeps(f, ss[n]);
        assert e.done + e.buf + ss[..n] + [ss[n]] == e.done + e.buf + ss;
      }
    }
  }

  lemma PushKeeps(f: Encoder, s: Sym)
    requires !f.failed
    ensures Push(f, s).done + Push(f, s).buf == f.done + f.buf + [s]
  {
    hide Cut, BestCut, LastCut;
    var g := f.(buf := f.buf + [s]);
    assert g.done + g.buf == f.done + f.buf + [s];
    var n := BestCut(g.buf, |g.buf|);
    if |g.buf| == SYMLIMIT && n > 0 {
      CutKeeps(g, n, LastCut(g.buf, |g.buf|));
    }
  }
}

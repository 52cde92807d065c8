/** Whole compressed streams: a header, blocks, and a trailer. Whatever way the
    symbols were divided into blocks, the decompressor recovers what they mean. */
module Streams {
  import opened Bits
  import opened Canonical
  import opened Checksums
  import opened DecodeTable
  import opened Inflate
  import opened Symbols
  import opened SymbolCoding
  import opened TreeCoding
  import opened Blocks
  import opened Containers

  datatype Block =
    | StaticBlock(final: bool, syms: seq<Sym>)
    | DynamicBlock(final: bool, trees: Trees, syms: seq<Sym>)
    | FlushBlock(pad: nat)

  const EMPTY: Player := Player([], AtSym)

  function Contents(b: Block): seq<Sym> {
    if b.FlushBlock? then [] else b.syms
  }

  predicate Final(b: Block) {
    !b.FlushBlock? && b.final
  }

  /** All symbols of the blocks, in order. */
  function SymsOf(bs: seq<Block>): seq<Sym> {
    if bs == [] then [] else SymsOf(bs[..|bs| - 1]) + Contents(bs[|bs| - 1])
  }

  ghost predicate BlockOk(b: Block) {
    match b
    case StaticBlock(_, ss) => AllEncodable(StaticCodes(), ss)
    case DynamicBlock(_, t, ss) => Sendable(t) && AllEncodable(CodesOf(t), ss)
    case FlushBlock(pad) => pad < 8
  }

  ghost function BlockAsBits(b: Block): (r: seq<bool>)
    requires BlockOk(b)
    ensures r != []
  {
    match b
    case StaticBlock(final, ss) => StaticBlockBits(final, ss)
    case DynamicBlock(final, t, ss) => DynamicBlockBits(final, t, ss)
    case FlushBlock(pad) => FlushBits(pad)
  }

  ghost predicate AllOk(bs: seq<Block>) {
    forall i :: 0 <= i < |bs| ==> BlockOk(bs[i])
  }

  ghost function StreamBits(kind: Kind, bs: seq<Block>): seq<bool>
    requires AllOk(bs)
  {
    if bs == [] then ContainerHeader(kind) else StreamBits(kind, bs[..|bs| - 1]) + BlockAsBits(bs[|bs| - 1])
  }

  /** Block b can follow the blocks bs. */
  ghost predicate CanFollow(kind: Kind, bs: seq<Block>, b: Block)
    requires AllOk(bs)
  {
    && BlockOk(b)
    && Playable(EMPTY, SymsOf(bs) + Contents(b)) && Played(EMPTY, SymsOf(bs) + Contents(b)).mode.AtSym?
    && (b.FlushBlock? ==> (|StreamBits(kind, bs)| + 3 + b.pad) % 8 == 0)
  }

  /** Each block ends between two literals or matches, flushes end on a byte
      boundary, and nothing follows a final block. */
  ghost predicate Legal(kind: Kind, bs: seq<Block>) {
    && AllOk(bs)
    && (bs != [] ==>
          && Legal(kind, bs[..|bs| - 1]) && CanFollow(kind, bs[..|bs| - 1], bs[|bs| - 1])
          && forall i :: 0 <= i < |bs| - 1 ==> !Final(bs[i]))
  }

  ghost predicate Open(bs: seq<Block>) {
    forall i :: 0 <= i < |bs| ==> !Final(bs[i])
  }

  lemma AddBlock(kind: Kind, bs: seq<Block>, b: Block)
    requires Legal(kind, bs) && Open(bs) && CanFollow(kind, bs, b)
    ensures Legal(kind, bs + [b]) && SymsOf(bs + [b]) == SymsOf(bs) + Contents(b)
    ensures StreamBits(kind, bs + [b]) == StreamBits(kind, bs) + BlockAsBits(b)
    ensures !Final(b) ==> Open(bs + [b])
  {
    hide CanFollow, BlockOk, BlockAsBits;
    assert (bs + [b])[..|bs|] == bs;
    assert BlockOk(b) by { FollowerOk(kind, bs, b); }
  }

  lemma FollowerOk(kind: Kind, bs: seq<Block>, b: Block)
    requires AllOk(bs) && CanFollow(kind, bs, b)
    ensures BlockOk(b)
  {
  }

  // ---- Decoding a stream

  /** The decompressor's state after a block. */
  ghost function Through(st: State, b: Block): State
    requires |st.before| == DWINSIZE && BlockOk(b) && Playable(Player(st.output, AtSym), Contents(b))
  {
    match b
    case StaticBlock(final, ss) => AfterStatic(st, final, ss)
    case DynamicBlock(final, t, ss) => AfterDynamic(st, final, t, ss)
    case FlushBlock(_) => AfterFlush(st)
  }

  /** The decompressor between two blocks, having produced what p stands for. */
  ghost predicate Between(st: State, start: State, p: Player, final: bool) {
    && Good(st) && st.before == start.before && st.kind == start.kind && st.output == p.hist && p.mode.AtSym?
    && st.lastblock == final && st.phase == (if final then End else OutsideBlk)
  }

  lemma ThroughKeeps(st: State, start: State, p: Player, b: Block)
    requires Between(st, start, p, false) && |st.before| == DWINSIZE && BlockOk(b)
    requires Playable(p, Contents(b)) && Played(p, Contents(b)).mode.AtSym?
    ensures Good(Through(st, b)) ==> Between(Through(st, b), start, Played(p, Contents(b)), Final(b))
  {
    hide Good, Playable, Played;
    assert p == Player(st.output, AtSym);
    match b {
      case StaticBlock(final, ss) =>
        ClosedKeeps(AfterHeader(st, final, 1), ss);
      case DynamicBlock(final, t, ss) =>
        hide Sendable, TreesIn, Closed;
        SendableSizes(t);
        SpellingFits(t);
        TreesInKeeps(AfterHeader(st, final, 2), t);
        ClosedKeeps(TreesIn(AfterHeader(st, final, 2), t), ss);
      case FlushBlock(_) =>
        PlayedNothing(p);
    }
  }

  lemma PlayedNothing(p: Player)
    ensures Playable(p, []) && Played(p, []) == p
  {
  }

  lemma BlockDecodes(st: State, start: State, p: Player, b: Block, rest: seq<bool>)
    requires Between(st, start, p, false) && |st.before| == DWINSIZE && BlockOk(b)
    requires Playable(p, Contents(b)) && Played(p, Contents(b)).mode.AtSym?
    requires b.FlushBlock? ==> |rest| % 8 == 0
    ensures Between(Through(st, b), start, Played(p, Contents(b)), Final(b))
    ensures Run(st, BlockAsBits(b) + rest) == Run(Through(st, b), rest)
  {
    hide Good, Playable, Played, Run, StaticBlockBits, DynamicBlockBits, FlushBits, AfterStatic, AfterDynamic, AfterFlush, Sendable, AllEncodable;
    assert p == Player(st.output, AtSym);
    ThroughKeeps(st, start, p, b);
    match b {
      case StaticBlock(final, ss) => StaticDecodes(st, final, ss, rest);
      case DynamicBlock(final, t, ss) => DynamicDecodes(st, final, t, ss, rest);
      case FlushBlock(pad) => FlushDecodes(st, pad, rest);
    }
  }

  /** A legal stream decodes, up to whatever follows it, to what its symbols mean. */
  lemma {:induction false} StreamDecodes(start: State, bs: seq<Block>, rest: seq<bool>) returns (st: State)
    requires Good(start) && Fresh(start)
    requires Legal(start.kind, bs) && (bs != [] || rest != []) && (|StreamBits(start.kind, bs)| + |rest|) % 8 == 0
    ensures Playable(EMPTY, SymsOf(bs))
    ensures Between(st, start, Played(EMPTY, SymsOf(bs)), bs != [] && Final(bs[|bs| - 1]))
    ensures Run(start, StreamBits(start.kind, bs) + rest) == Run(st, rest)
    decreases |bs|
  {
    hide *;
    if bs == [] {
      st := HeaderOnly(start, rest);
      assert bs == [];
    } else {
      var n := |bs| - 1;
      var a, b := bs[..n], bs[n];
      LastBlock(start.kind, bs);
      var bits := BlockAsBits(b);
      var m := StreamDecodes(start, a, bits + rest);
      PlayAppend(EMPTY, SymsOf(a), Contents(b));
      FlushLength(start.kind, a, b, |rest|);
      FreshBefore(start);
      BetweenBefore(m, start, Played(EMPTY, SymsOf(a)), a != [] && Final(a[|a| - 1]));
      st := Through(m, b);
      BlockDecodes(m, start, Played(EMPTY, SymsOf(a)), b, rest);
      assert StreamBits(start.kind, a) + bits + rest == StreamBits(start.kind, a) + (bits + rest);
    }
  }

  lemma FreshBefore(start: State)
    requires Fresh(start)
    ensures |start.before| == DWINSIZE
  {
  }

  lemma BetweenBefore(st: State, start: State, p: Player, final: bool)
    requires Between(st, start, p, final)
    ensures st.before == start.before && p == Player(st.output, AtSym)
  {
    hide Good;
  }

  /** A legal stream is a legal stream and one more block. */
  lemma LastBlock(kind: Kind, bs: seq<Block>)
    requires Legal(kind, bs) && bs != []
    ensures var a, b := bs[..|bs| - 1], bs[|bs| - 1];
      && Legal(kind, a) && AllOk(a) && BlockOk(b) && CanFollow(kind, a, b) && (a != [] ==> !Final(a[|a| - 1]))
      && AllOk(bs) && StreamBits(kind, bs) == StreamBits(kind, a) + BlockAsBits(b) && SymsOf(bs) == SymsOf(a) + Contents(b)
      && Playable(EMPTY, SymsOf(a) + Contents(b)) && Played(EMPTY, SymsOf(a) + Contents(b)).mode.AtSym?
  {
    hide BlockOk, BlockAsBits, Playable, Played, Final;
    assert |bs| > 1 ==> bs[..|bs| - 1][|bs| - 2] == bs[|bs| - 2];
  }

  lemma HeaderOnly(start: State, rest: seq<bool>) returns (st: State)
    requires Good(start) && Fresh(start) && rest != []
    ensures SymsOf([]) == [] && Playable(EMPTY, []) && StreamBits(start.kind, []) == ContainerHeader(start.kind)
    ensures Between(st, start, Played(EMPTY, []), false)
    ensures Run(start, StreamBits(start.kind, []) + rest) == Run(st, rest)
  {
    hide Good, Run, ContainerHeader;
    PlayedNothing(EMPTY);
    ContainerHeaderDecodes(start, rest);
    st := Opened(start);
  }

  /** What follows a flush starts on a byte boundary. */
  lemma FlushLength(kind: Kind, a: seq<Block>, b: Block, n: nat)
    requires AllOk(a) && CanFollow(kind, a, b) && BlockOk(b)
    requires (|StreamBits(kind, a)| + |BlockAsBits(b)| + n) % 8 == 0
    ensures b.FlushBlock? ==> n % 8 == 0
  {
    hide StreamBits, Playable, Played, SymsOf, AllOk;
    if b.FlushBlock? {
      FlushSize(b.pad);
      hide FlushBits;
      MultipleLeft(|StreamBits(kind, a)| + 3 + b.pad, n);
    }
  }

  lemma MultipleLeft(m: nat, n: nat)
    requires m % 8 == 0 && (m + 32 + n) % 8 == 0
    ensures n % 8 == 0
  {
  }

  lemma FlushSize(pad: nat)
    ensures |FlushBits(pad)| == 3 + pad + 32
  {
  }

  lemma LegalOk(kind: Kind, bs: seq<Block>)
    requires Legal(kind, bs)
    ensures AllOk(bs)
  {
    hide AllOk, CanFollow, StreamBits;
  }

  predicate Fresh(start: State) {
    AtStart(start) && start.output == [] && !start.lastblock && |start.before| == DWINSIZE
  }

  function Tail(kind: Kind, pad: nat, data: seq<byte>): seq<bool> {
    Zeros(pad) + Trailer(kind, SumWord(kind, data), |data|)
  }

  lemma TailDecodes(st: State, start: State, p: Player, pad: nat)
    requires Between(st, start, p, true) && pad < 8
    ensures var o := Run(st, Tail(start.kind, pad, p.hist));
      && o.err == NoError && o.rest == [] && o.st.output == p.hist
      && (o.st.phase.FinalSpin? <==> !(start.kind.Bare? && pad == 0))
  {
    hide Good, Run, SumWord, Trailer;
    EndDecodes(st, pad, SumWord(start.kind, p.hist));
  }

  /** A finished stream decodes without error to its data. The decompressor has then
      seen the end of it, unless the container is bare and no padding was needed. */
  lemma FinishedStream(start: State, bs: seq<Block>, bits: seq<bool>, pad: nat, data: seq<byte>)
    requires Good(start) && Fresh(start) && Legal(start.kind, bs) && bs != [] && Final(bs[|bs| - 1])
    requires bits == StreamBits(start.kind, bs) && pad < 8 && (|bits| + pad) % 8 == 0
    requires Playable(EMPTY, SymsOf(bs)) && data == Played(EMPTY, SymsOf(bs)).hist
    ensures var o := Run(start, bits + Tail(start.kind, pad, data));
      && o.err == NoError && o.rest == [] && o.st.output == data
      && (o.st.phase.FinalSpin? <==> !(start.kind.Bare? && pad == 0))
  {
    hide *;
    TailLength(start.kind, pad, data, |bits|);
    var st := StreamDecodes(start, bs, Tail(start.kind, pad, data));
    TailDecodes(st, start, Played(EMPTY, SymsOf(bs)), pad);
  }

  lemma TailLength(kind: Kind, pad: nat, data: seq<byte>, n: nat)
    ensures (n + |Tail(kind, pad, data)|) % 8 == (n + pad) % 8
  {
    hide Trailer, SumWord;
    assert |Tail(kind, pad, data)| == pad + 8 * (if kind.Bare? then 0 else if kind.Zlib? then 4 else 8);
  }

  /** A stream cut off right behind a flush delivers all its data so far. */
  lemma FlushedStream(start: State, bs: seq<Block>, bits: seq<bool>)
    requires Good(start) && Fresh(start) && Legal(start.kind, bs) && bs != [] && bs[|bs| - 1].FlushBlock?
    requires bits == StreamBits(start.kind, bs) && |bits| % 8 == 0
    ensures Playable(EMPTY, SymsOf(bs))
    ensures var o := Run(start, bits);
      o.err == NoError && o.rest == [] && o.st.output == Played(EMPTY, SymsOf(bs)).hist
  {
    hide Good, Run, Playable, Played, StreamBits, Legal;
    var st := StreamDecodes(start, bs, []);
    RunNothing(st);
    assert bits + [] == bits;
  }
}

/** Compressing and decompressing again: whatever calls the data is spread over,
    whatever blocks and flushes result, in all three containers. */
module RoundTrip {
  import opened Bits
  import opened Checksums
  import opened Inflate
  import opened Symbols
  import opened Streams
  import opened Containers
  import opened Compressor
  import opened Decompressor
  import E = Encoding

  /** bytes are a complete stream that stands for data. */
  ghost predicate IsStreamOf(kind: Kind, bytes: seq<byte>, data: seq<byte>) {
    exists bs: seq<Block>, pad: nat :: StreamWith(kind, bs, pad, bytes, data)
  }

  ghost predicate StreamWith(kind: Kind, bs: seq<Block>, pad: nat, bytes: seq<byte>, data: seq<byte>) {
    && Legal(kind, bs) && bs != [] && Final(bs[|bs| - 1])
    && Playable(EMPTY, SymsOf(bs)) && data == Played(EMPTY, SymsOf(bs)).hist
    && pad < 8 && (|StreamBits(kind, bs)| + pad) % 8 == 0
    && BytesToBits(bytes) == StreamBits(kind, bs) + Tail(kind, pad, data)
  }

  lemma StartIsFresh(kind: Kind, w: seq<byte>)
    requires |w| == DWINSIZE
    ensures Good(StartState(kind, w)) && Fresh(StartState(kind, w)) && StartState(kind, w).kind == kind
  {
    StartMatches(kind, w);
    hide Good;
  }

  /** The round trip: what the encoder finished decodes to what it was given, without
      error, whatever the decompressor's window memory held. */
  lemma StreamRoundTrip(kind: Kind, bytes: seq<byte>, data: seq<byte>, w: seq<byte>)
    requires IsStreamOf(kind, bytes, data) && |w| == DWINSIZE
    ensures Good(StartState(kind, w))
    ensures var o := Run(StartState(kind, w), BytesToBits(bytes));
      o.err == NoError && o.st.output == data && (!kind.Bare? ==> o.st.phase.FinalSpin?)
  {
    hide *;
    StartIsFresh(kind, w);
    var bs, pad := StreamParts(kind, bytes, data);
    var bits := StreamBits(kind, bs);
    FinishedStream(StartState(kind, w), bs, bits, pad, data);
  }

  lemma StreamParts(kind: Kind, bytes: seq<byte>, data: seq<byte>) returns (bs: seq<Block>, pad: nat)
    requires IsStreamOf(kind, bytes, data)
    ensures StreamWith(kind, bs, pad, bytes, data)
    ensures Legal(kind, bs) && bs != [] && Final(bs[|bs| - 1])
    ensures Playable(EMPTY, SymsOf(bs)) && data == Played(EMPTY, SymsOf(bs)).hist
    ensures AllOk(bs) && pad < 8 && (|StreamBits(kind, bs)| + pad) % 8 == 0
    ensures BytesToBits(bytes) == StreamBits(kind, bs) + Tail(kind, pad, data)
  {
    hide *;
    bs, pad := SomeStream(kind, bytes, data);
    StreamWithParts(kind, bs, pad, bytes, data);
  }

  lemma SomeStream(kind: Kind, bytes: seq<byte>, data: seq<byte>) returns (bs: seq<Block>, pad: nat)
    requires IsStreamOf(kind, bytes, data)
    ensures StreamWith(kind, bs, pad, bytes, data)
  {
    hide StreamWith;
    bs, pad :| StreamWith(kind, bs, pad, bytes, data);
  }

  /** Cutting the stream into pieces changes nothing. */
  lemma PiecesRoundTrip(kind: Kind, bytes: seq<byte>, data: seq<byte>, w: seq<byte>, pieces: seq<seq<byte>>)
    requires IsStreamOf(kind, bytes, data) && |w| == DWINSIZE && Concat(pieces) == bytes && pieces != []
    ensures Good(StartState(kind, w))
    ensures var o := FeedAll(Outcome(StartState(kind, w), [], NoError), pieces);
      o.err == NoError && o.st.output == data
  {
    hide *;
    StreamRoundTrip(kind, bytes, data, w);
    ChunkingIrrelevant(Outcome(StartState(kind, w), [], NoError), pieces);
    FeedFresh(StartState(kind, w), bytes);
    SameMeans(FeedAll(Outcome(StartState(kind, w), [], NoError), pieces), Feed(Outcome(StartState(kind, w), [], NoError), bytes));
  }

  lemma FeedFresh(st: State, bytes: seq<byte>)
    requires Good(st)
    ensures Feed(Outcome(st, [], NoError), bytes) == Run(st, BytesToBits(bytes))
  {
    hide Good, Run, BytesToBits;
    assert [] + BytesToBits(bytes) == BytesToBits(bytes);
  }

  lemma SameMeans(a: Outcome, b: Outcome)
    requires SameResult(a, b)
    ensures a.st == b.st && a.err == b.err
  {
  }

  /** A stream still being written never looks wrong to the decompressor. */
  lemma UnfinishedFine(start: State, bs: seq<Block>, bits: seq<bool>, bytes: seq<byte>, acc: nat, n: nat)
    requires Good(start) && Fresh(start) && Legal(start.kind, bs) && Open(bs)
    requires bits == StreamBits(start.kind, bs) && Written(bits, bytes, acc, n)
    ensures Run(start, BytesToBits(bytes)).err == NoError
  {
    hide *;
    var pad := (8 - (|bits| + 3) % 8) % 8;
    PadFits(|bits|);
    LegalStarts(start.kind, bs);
    FlushFollows(start.kind, bs, pad);
    LastIs(bs, FlushBlock(pad));
    FlushSize(pad);
    var whole := bits + Blocks.FlushBits(pad);
    FlushedStream(start, bs + [FlushBlock(pad)], whole);
    var rest := WrittenRest(bits, bytes, acc, n, Blocks.FlushBits(pad));
    RunAppend(start, BytesToBits(bytes), rest);
  }

  lemma PadFits(n: nat)
    ensures var pad := (8 - (n + 3) % 8) % 8; pad < 8 && (n + 3 + pad) % 8 == 0 && (n + (3 + pad + 32)) % 8 == 0
  {
  }

  lemma WrittenRest(bits: seq<bool>, bytes: seq<byte>, acc: nat, n: nat, more: seq<bool>) returns (rest: seq<bool>)
    requires Written(bits, bytes, acc, n) && (|bits| + |more|) % 8 == 0
    ensures |rest| % 8 == 0 && bits + more == BytesToBits(bytes) + rest
  {
    hide BytesToBits, BitsOf;
    rest := BitsOf(acc, n) + more;
  }

  /** A bare stream that ends on a byte boundary without padding leaves the
      decompressor one step short: asked at the end of the file whether the stream
      was complete, it says no. In all other cases it says yes. */
  lemma EndIsSeen(kind: Kind, bs: seq<Block>, pad: nat, bytes: seq<byte>, data: seq<byte>, w: seq<byte>)
    requires StreamWith(kind, bs, pad, bytes, data) && |w| == DWINSIZE
    ensures Good(StartState(kind, w)) && AllOk(bs)
    ensures CodeOf(Run(StartState(kind, w), BytesToBits(bytes))) ==
      if kind.Bare? && |StreamBits(kind, bs)| % 8 == 0 then UnexpectedEof else Success
  {
    hide *;
    StartIsFresh(kind, w);
    StreamWithParts(kind, bs, pad, bytes, data);
    var bits := StreamBits(kind, bs);
    FinishedStream(StartState(kind, w), bs, bits, pad, data);
    PadIsNone(|bits|, pad);
    CodeIs(Run(StartState(kind, w), BytesToBits(bytes)));
  }

  lemma CodeIs(o: Outcome)
    ensures o.err.NoError? ==> CodeOf(o) == if o.st.phase.FinalSpin? then Success else UnexpectedEof
  {
  }

  lemma PadIsNone(n: nat, pad: nat)
    requires pad < 8 && (n + pad) % 8 == 0
    ensures pad == 0 <==> n % 8 == 0
  {
  }

  lemma StreamWithParts(kind: Kind, bs: seq<Block>, pad: nat, bytes: seq<byte>, data: seq<byte>)
    requires StreamWith(kind, bs, pad, bytes, data)
    ensures Legal(kind, bs) && bs != [] && Final(bs[|bs| - 1]) && AllOk(bs)
    ensures Playable(EMPTY, SymsOf(bs)) && data == Played(EMPTY, SymsOf(bs)).hist
    ensures pad < 8 && (|StreamBits(kind, bs)| + pad) % 8 == 0
    ensures BytesToBits(bytes) == StreamBits(kind, bs) + Tail(kind, pad, data)
  {
    hide Legal, StreamBits, Playable, Played, Tail, BytesToBits;
    LegalOk(kind, bs);
  }

  // ---- Drivers

  /** Any sequence of calls of deflate_compress_data, the last with DEFLATE_END_OF_DATA.
      It fails exactly if the function of the calls says so. */
  method CompressAll(kind: Kind, calls: seq<E.Call>, last: seq<byte>) returns (ok: bool, bytes: seq<byte>)
    ensures ok <==> !E.Fails(calls, last)
    ensures ok ==> IsStreamOf(kind, bytes, E.DataOf(calls) + last)
  {
    FailsIs(calls, last);
    hide *;
    var ctx := new CompressContext(kind);
    NewContext(ctx);
    bytes := [];
    ok := true;
    E.NoCalls(calls);
    for i := 0 to |calls|
      invariant ok && ctx.Valid() && ctx.kind == kind && bytes == ctx.returned + ctx.outbuf
      invariant ctx.lz.input == E.DataOf(calls[..i]) && ctx.enc == E.After(calls[..i])
      invariant fresh(ctx) && fresh(ctx.syms) && fresh(ctx.lz)
      invariant fresh(ctx.lz.win) && fresh(ctx.lz.data) && fresh(ctx.lz.hashtab) && fresh(ctx.lz.pending)
    {
      var out;
      ok, out := ctx.CompressData(calls[i].block, if calls[i].sync then SyncFlush else NoFlush);
      E.DataStep(calls, i);
      if !ok {
        E.FailedBefore(calls, i + 1, last);
        return;
      }
      bytes := bytes + out;
    }
    assert calls[..|calls|] == calls;
    var out;
    ok, out := ctx.CompressData(last, EndOfData);
    if ok {
      bytes := bytes + out;
      WholeStream(ctx, E.DataOf(calls) + last);
    }
  }

  lemma FailsIs(calls: seq<E.Call>, last: seq<byte>)
    ensures E.Fails(calls, last) <==> E.Called(E.After(calls), E.DataOf(calls), last, true).failed
  {
  }

  lemma NewContext(ctx: CompressContext)
    requires ctx.Valid() && ctx.returned == [] && ctx.firstblock
    ensures ctx.outbuf == []
  {
  }

  lemma WholeStreamOf(kind: Kind, bs: seq<Block>, bytes: seq<byte>, data: seq<byte>)
    requires Ends(kind, bs, bytes, data)
    ensures IsStreamOf(kind, bytes, data)
  {
    hide Legal, StreamBits, Playable, Played, Tail, BytesToBits, AllOk;
    LegalOk(kind, bs);
    var bits := StreamBits(kind, bs);
    var pad: nat :| pad < 8 && (|bits| + pad) % 8 == 0 && BytesToBits(bytes) == bits + Tail(kind, pad, data);
    assert StreamWith(kind, bs, pad, bytes, data);
  }

  lemma WholeStream(ctx: CompressContext, data: seq<byte>)
    requires ctx.Complete(data)
    ensures IsStreamOf(ctx.kind, ctx.returned + ctx.outbuf, data)
  {
    WholeStreamOf(ctx.kind, ctx.blocks, ctx.returned + ctx.outbuf, data);
  }

  /** Pieces of data as calls without a flush. */
  function Calls(pieces: seq<seq<byte>>): (calls: seq<E.Call>)
    ensures |calls| == |pieces|
  {
    seq(|pieces|, i requires 0 <= i < |pieces| => E.Call(pieces[i], false))
  }

  /** The program's self-test: every piece read is compressed and what comes out is
      decompressed at once; at the end of the file both are told. The result is the
      input and no error, unless an assertion fails in the function of the calls. */
  method SelfTest(kind: Kind, pieces: seq<seq<byte>>) returns (ok: bool, code: ReturnCode, plain: seq<byte>)
    requires !kind.Bare?
    ensures ok <==> !E.Fails(Calls(pieces), [])
    ensures ok ==> code == Success && plain == Concat(pieces)
  {
    FailsIs(Calls(pieces), []);
    hide *;
    var comp, dec;
    ghost var w;
    comp, dec, w := BothContexts(kind);
    ghost var start, calls := dec.st, Calls(pieces);
    plain := [];
    ghost var sent: seq<byte> := [];
    code := Success;
    E.NoCalls(calls);
    for i := 0 to |pieces|
      invariant comp.Valid() && comp.kind == kind && comp.lz.input == E.DataOf(calls[..i]) && sent == comp.returned + comp.outbuf
      invariant comp.enc == E.After(calls[..i])
      invariant dec.Valid() && plain == dec.st.output && code == Success
      invariant Good(start) && Run(start, BytesToBits(sent)) == Outcome(dec.st, dec.buf, NoError)
      invariant fresh(comp) && fresh(comp.syms) && fresh(comp.lz)
      invariant fresh(comp.lz.win) && fresh(comp.lz.data) && fresh(comp.lz.hashtab) && fresh(comp.lz.pending)
      invariant fresh(dec) && fresh(dec.lenlen) && fresh(dec.lengths) && fresh(dec.window)
    {
      var out;
      ok, out := comp.CompressData(pieces[i], NoFlush);
      PieceCalled(pieces, i);
      if !ok {
        E.FailedBefore(calls, i + 1, []);
        return;
      }
      NeverWrong(comp, start);
      code, plain := Deliver(dec, out, plain, start, sent);
      sent := sent + out;
    }
    AllPieces(pieces);
    var out;
    ok, out := comp.CompressData([], EndOfData);
    if !ok {
      return;
    }
    WholeRoundTrip(comp, Concat(pieces), w);
    code, plain := DeliverLast(dec, out, plain, start, sent);
  }

  /** Both contexts, at the start. */
  method BothContexts(kind: Kind) returns (comp: CompressContext, dec: DecompressContext, ghost w: seq<byte>)
    ensures comp.Valid() && comp.kind == kind && comp.lz.input == [] && comp.returned + comp.outbuf == [] && comp.enc == E.FRESH
    ensures |w| == DWINSIZE && Good(StartState(kind, w)) && Fresh(StartState(kind, w)) && StartState(kind, w).kind == kind
    ensures dec.Valid() && dec.st == StartState(kind, w) && dec.st.output == []
    ensures Run(dec.st, BytesToBits([])) == Outcome(dec.st, dec.buf, NoError)
    ensures fresh(comp) && fresh(comp.syms) && fresh(comp.lz)
    ensures fresh(comp.lz.win) && fresh(comp.lz.data) && fresh(comp.lz.hashtab) && fresh(comp.lz.pending)
    ensures fresh(dec) && fresh(dec.lenlen) && fresh(dec.lengths) && fresh(dec.window)
    ensures {comp as object, comp.syms, comp.lz, comp.lz.win, comp.lz.data, comp.lz.hashtab, comp.lz.pending}
            !! {dec as object, dec.lenlen, dec.lengths, dec.window}
  {
    hide *;
    comp := new CompressContext(kind);
    NewContext(comp);
    dec := new DecompressContext(kind);
    w :| |w| == DWINSIZE && dec.st == StartState(kind, w);
    StartIsFresh(kind, w);
    StartsEmpty(dec.st);
  }

  lemma PieceCalled(pieces: seq<seq<byte>>, i: nat)
    requires i < |pieces|
    ensures var calls := Calls(pieces);
      && E.DataOf(calls[..i + 1]) == E.DataOf(calls[..i]) + pieces[i]
      && E.After(calls[..i + 1]) == E.Called(E.After(calls[..i]), E.DataOf(calls[..i]), pieces[i], false)
  {
    E.DataStep(Calls(pieces), i);
    hide E.After, E.DataOf, E.Called;
  }

  lemma {:induction false} DataIsConcat(pieces: seq<seq<byte>>, i: nat)
    requires i <= |pieces|
    ensures E.DataOf(Calls(pieces)[..i]) == Concat(pieces[..i])
  {
    hide Concat, E.After, E.Called;
    if i == 0 {
      ConcatNone(pieces);
    } else {
      hide E.DataOf;
      DataIsConcat(pieces, i - 1);
      PieceCalled(pieces, i - 1);
      ConcatStep(pieces, i - 1);
    }
  }

  lemma AllPieces(pieces: seq<seq<byte>>)
    ensures var calls := Calls(pieces); calls[..|pieces|] == calls && E.DataOf(calls) + [] == Concat(pieces)
  {
    DataIsConcat(pieces, |pieces|);
    assert pieces[..|pieces|] == pieces && Calls(pieces)[..|pieces|] == Calls(pieces);
    hide E.DataOf, Concat, Calls;
  }

  lemma WholeRoundTrip(ctx: CompressContext, data: seq<byte>, w: seq<byte>)
    requires ctx.Complete(data) && |w| == DWINSIZE && !ctx.kind.Bare?
    ensures Good(StartState(ctx.kind, w))
    ensures var o := Run(StartState(ctx.kind, w), BytesToBits(ctx.returned + ctx.outbuf));
      o.err == NoError && o.st.output == data && o.st.phase.FinalSpin?
  {
    hide *;
    WholeStream(ctx, data);
    StreamRoundTrip(ctx.kind, ctx.returned + ctx.outbuf, data, w);
  }

  /** Decompress what has just been compressed, if anything. */
  method Deliver(dec: DecompressContext, out: seq<byte>, plain: seq<byte>, ghost start: State, ghost sent: seq<byte>)
    returns (code: ReturnCode, all: seq<byte>)
    requires dec.Valid() && plain == dec.st.output
    requires Good(start) && Run(start, BytesToBits(sent)) == Outcome(dec.st, dec.buf, NoError)
    requires Run(start, BytesToBits(sent + out)).err == NoError
    modifies dec, dec.lenlen, dec.lengths, dec.window
    ensures code == Success && dec.Valid() && all == dec.st.output
    ensures Run(start, BytesToBits(sent + out)) == Outcome(dec.st, dec.buf, NoError)
  {
    hide *;
    code, all := Success, plain;
    if out == [] {
      assert sent + out == sent;
    } else {
      dec.KnowRegs();
      RunOn(start, sent, out, dec.st, dec.buf);
      var block;
      code, block := dec.DecompressData(out);
      all := all + block;
    }
  }

  /** The last of the stream, and the question whether that was all. */
  method DeliverLast(dec: DecompressContext, out: seq<byte>, plain: seq<byte>, ghost start: State, ghost sent: seq<byte>)
    returns (code: ReturnCode, all: seq<byte>)
    requires dec.Valid() && plain == dec.st.output
    requires Good(start) && Run(start, BytesToBits(sent)) == Outcome(dec.st, dec.buf, NoError)
    requires Run(start, BytesToBits(sent + out)).err == NoError && Run(start, BytesToBits(sent + out)).st.phase.FinalSpin?
    modifies dec, dec.lenlen, dec.lengths, dec.window
    ensures code == Success && all == Run(start, BytesToBits(sent + out)).st.output
  {
    hide *;
    code, all := Deliver(dec, out, plain, start, sent);
    var nothing;
    code, nothing := dec.DecompressData([]);
  }

  lemma RunOn(start: State, sent: seq<byte>, out: seq<byte>, st: State, buf: seq<bool>)
    requires Good(start) && Good(st) && Run(start, BytesToBits(sent)) == Outcome(st, buf, NoError)
    ensures Run(start, BytesToBits(sent + out)) == Feed(Outcome(st, buf, NoError), out)
  {
    hide *;
    BytesToBitsAppend(sent, out);
    WholeBytes(out);
    RunAppend(start, BytesToBits(sent), BytesToBits(out));
    FeedIs(st, buf, out);
  }

  lemma WholeBytes(b: seq<byte>)
    ensures |BytesToBits(b)| % 8 == 0
  {
    hide BytesToBits;
  }

  lemma FeedIs(st: State, buf: seq<bool>, piece: seq<byte>)
    requires Good(st)
    ensures Feed(Outcome(st, buf, NoError), piece) == Run(st, buf + BytesToBits(piece))
  {
    hide Good, Run, BytesToBits;
  }

  lemma NeverWrong(comp: CompressContext, start: State)
    requires comp.Valid() && Good(start) && Fresh(start) && start.kind == comp.kind
    ensures Run(start, BytesToBits(comp.returned + comp.outbuf)).err == NoError
  {
    hide Good, Run, Fresh, Legal, StreamBits, Written, Open, BytesToBits;
    if comp.firstblock {
      NothingWritten(comp.bits, comp.returned + comp.outbuf, comp.outbits, comp.noutbits);
      RunNothing(start);
    } else {
      UnfinishedFine(start, comp.blocks, comp.bits, comp.returned + comp.outbuf, comp.outbits, comp.noutbits);
    }
  }

  lemma NothingWritten(bits: seq<bool>, bytes: seq<byte>, acc: nat, n: nat)
    requires Written(bits, bytes, acc, n) && bits == []
    ensures BytesToBits(bytes) == []
  {
    assert |BytesToBits(bytes)| == 0;
  }

  lemma StartsEmpty(st: State)
    requires Good(st) && Fresh(st)
    ensures st.output == [] && Run(st, BytesToBits([])) == Outcome(st, [], NoError)
  {
    RunNothing(st);
  }

  lemma ConcatNone(pieces: seq<seq<byte>>)
    ensures Concat(pieces[..0]) == []
  {
  }

  lemma {:induction false} ConcatStep(pieces: seq<seq<byte>>, i: nat)
    requires i < |pieces|
    ensures Concat(pieces[..i + 1]) == Concat(pieces[..i]) + pieces[i]
    decreases |pieces|
  {
    if i > 0 {
      ConcatStep(pieces[1..], i - 1);
      assert pieces[1..][..i] == pieces[..i + 1][1..] && pieces[1..][..i - 1] == pieces[..i][1..];
    } else {
      assert pieces[..1][1..] == [];
    }
  }
}

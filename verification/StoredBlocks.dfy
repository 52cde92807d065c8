/** Stored blocks (section 3.2.4 of RFC 1951), which the compressor only sends empty:
    the decompressor takes their bytes as they are. */
module StoredBlocks {
  import opened Bits
  import opened DeflateCodes
  import opened Checksums
  import opened Inflate
  import opened Symbols
  import opened SymbolCoding
  import opened Blocks
  import opened Decompressor

  /** The final bit, type 00, and whatever fills up the byte; then the length n and, if all is
      well, its complement m, low byte first. */
  function StoredHead(final: bool, pad: seq<bool>, n: nat, m: nat): seq<bool>
    requires n < 0x1_0000 && m < 0x1_0000
  {
    [final, false, false] + pad + BytesToBits([n % 256, n / 256, m % 256, m / 256])
  }

  function StoredBits(final: bool, pad: seq<bool>, data: seq<byte>): seq<bool>
    requires |data| < 0x1_0000
  {
    StoredHead(final, pad, |data|, 65535 - |data|) + BytesToBits(data)
  }

  function AfterStored(st: State, final: bool, data: seq<byte>): State {
    st.(output := st.output + data, lastblock := st.lastblock || final, uncomplen := 0,
        phase := if st.lastblock || final then End else OutsideBlk)
  }

  // ---- The header

  lemma TwoBytes(n: nat)
    requires n < 0x1_0000
    ensures BytesToBits([n % 256, n / 256]) == BitsOf(n, 16)
  {
    SixteenBits();
    assert Pow2(8) == 256 by { Powers(); }
    var a, b := BitsOf(n % 256, 8), BitsOf(n / 256, 8);
    assert [n % 256, n / 256][1..] == [n / 256] && [n / 256][1..] == [];
    assert BytesToBits([n / 256]) == b + [] == b;
    assert BytesToBits([n % 256, n / 256]) == a + b;
    hide BitsOf, Pow2, BytesToBits;
    ValBitsOf(n % 256, 8);
    ValBitsOf(n / 256, 8);
    ValBitsOf(n, 16);
    ValAppend(a, b);
    ValInjective(a + b, BitsOf(n, 16));
  }

  lemma FourBytes(n: nat, m: nat)
    requires n < 0x1_0000 && m < 0x1_0000
    ensures BytesToBits([n % 256, n / 256, m % 256, m / 256]) == BitsOf(n, 16) + BitsOf(m, 16)
  {
    hide BytesToBits, BitsOf;
    var a, b := [n % 256, n / 256], [m % 256, m / 256];
    TwoBytes(n);
    TwoBytes(m);
    BytesToBitsAppend(a, b);
    assert [n % 256, n / 256, m % 256, m / 256] == a + b;
  }

  lemma TypeZero(final: bool)
    ensures HeaderBits(final, 0) == [final, false, false]
  {
    assert BitsOf(0, 1) == [false];
  }

  lemma Grouped(h: seq<bool>, pad: seq<bool>, x: seq<bool>, y: seq<bool>, rest: seq<bool>)
    ensures h + pad + (x + y) + rest == h + (pad + (x + (y + rest)))
  {
  }

  lemma HeadIs(final: bool, pad: seq<bool>, n: nat, m: nat, rest: seq<bool>)
    requires n < 0x1_0000 && m < 0x1_0000
    ensures StoredHead(final, pad, n, m) + rest == HeaderBits(final, 0) + (pad + (BitsOf(n, 16) + (BitsOf(m, 16) + rest)))
  {
    hide BitsOf, BytesToBits, HeaderBits;
    FourBytes(n, m);
    TypeZero(final);
    Grouped([final, false, false], pad, BitsOf(n, 16), BitsOf(m, 16), rest);
  }

  lemma SkipAny(pad: seq<bool>, b: seq<bool>)
    requires |pad| < 8 && |b| % 8 == 0
    ensures Aligned(pad + b) == b
  {
  }

  /** Up to the complement. */
  function Measured(st: State, final: bool, n: nat): State {
    AfterHeader(st, final, 0).(uncomplen := n, phase := UncompNLen)
  }

  lemma Opened(st: State, final: bool)
    ensures AfterHeader(st, final, 0).phase.UncompLen?
  {
  }

  lemma HeadDecodes(st: State, final: bool, pad: seq<bool>, n: nat, m: nat, rest: seq<bool>)
    requires Good(st) && st.phase.OutsideBlk? && n < 0x1_0000 && m < 0x1_0000 && |pad| < 8 && |rest| % 8 == 0
    ensures Good(Measured(st, final, n))
    ensures Run(st, StoredHead(final, pad, n, m) + rest) == Run(Measured(st, final, n), BitsOf(m, 16) + rest)
  {
    Lengths16(n, m, rest);
    MeasuredIs(st, final, n);
    hide *;
    SixteenBits();
    var more := BitsOf(m, 16) + rest;
    HeadIs(final, pad, n, m, rest);
    Opened(st, final);
    HeaderDecodes(st, final, 0, pad + (BitsOf(n, 16) + more));
    SkipAny(pad, BitsOf(n, 16) + more);
    LenFieldDecodes(AfterHeader(st, final, 0), n, more);
  }

  lemma MeasuredIs(st: State, final: bool, n: nat)
    ensures Measured(st, final, n) == AfterHeader(st, final, 0).(uncomplen := n, phase := UncompNLen)
  {
  }

  lemma Lengths16(n: nat, m: nat, rest: seq<bool>)
    requires |rest| % 8 == 0
    ensures |BitsOf(n, 16) + (BitsOf(m, 16) + rest)| % 8 == 0
  {
  }

  lemma ComplementStep(st: State, m: nat, b: seq<bool>)
    requires Good(st) && st.phase.UncompNLen? && |b| >= 16 && Field(b, 16) == m
    ensures st.uncomplen + m != 65535 ==> Step(st, b) == Fail(UncompHdr)
    ensures st.uncomplen + m == 65535 && st.uncomplen > 0 ==> Step(st, b) == Next(st.(phase := UncompData), 16)
  {
    hide Checksum, Reduced, Field;
  }

  /** A wrong complement is an error. */
  lemma WrongComplement(st: State, final: bool, pad: seq<bool>, n: nat, m: nat, rest: seq<bool>)
    requires Good(st) && st.phase.OutsideBlk? && n < 0x1_0000 && m < 0x1_0000 && |pad| < 8 && |rest| % 8 == 0
    requires n + m != 65535
    ensures Run(st, StoredHead(final, pad, n, m) + rest).err == Bad(UncompHdr)
  {
    hide Good, Run, BitsOf, Pow2, StoredHead, Field, Step;
    SixteenBits();
    HeadDecodes(st, final, pad, n, m, rest);
    var b := BitsOf(m, 16) + rest;
    FieldKnown(m, 16, rest);
    ComplementStep(Measured(st, final, n), m, b);
    RunOnce(Measured(st, final, n), b);
  }

  // ---- The bytes

  lemma OneByteStep(st: State, c: byte, b: seq<bool>)
    requires Good(st) && st.phase.UncompData? && |b| >= 8 && Field(b, 8) == c
    ensures Step(st, b) == Next(
      if st.uncomplen == 1 then AfterBlock(st.(output := st.output + [c], uncomplen := 0))
      else st.(output := st.output + [c], uncomplen := st.uncomplen - 1), 8)
  {
    hide Checksum, Reduced, Field;
  }

  lemma FirstByte(data: seq<byte>, rest: seq<bool>)
    requires data != []
    ensures BytesToBits(data) + rest == BitsOf(data[0], 8) + (BytesToBits(data[1..]) + rest)
  {
    hide BitsOf;
  }

  /** All bytes delivered. */
  function Delivered(st: State, data: seq<byte>): State {
    AfterBlock(st.(output := st.output + data, uncomplen := 0))
  }

  lemma {:induction false} DataDecodes(st: State, data: seq<byte>, rest: seq<bool>)
    requires Good(st) && st.phase.UncompData? && st.uncomplen == |data| > 0
    ensures Good(Delivered(st, data)) && Run(st, BytesToBits(data) + rest) == Run(Delivered(st, data), rest)
    decreases |data|
  {
    assert Pow2(8) == 256 by { Powers(); }
    LastByteIs(st, data);
    hide *;
    var more := BytesToBits(data[1..]) + rest;
    FirstByte(data, rest);
    FieldKnown(data[0], 8, more);
    OneByteStep(st, data[0], BitsOf(data[0], 8) + more);
    RunOne(st, BitsOf(data[0], 8) + more);
    if |data| == 1 {
      NoBytes(data[1..], rest);
    } else {
      var next := st.(output := st.output + [data[0]], uncomplen := |data| - 1);
      DataDecodes(next, data[1..], rest);
    }
  }

  lemma LastByteIs(st: State, data: seq<byte>)
    requires data != []
    ensures |data| == 1 ==> Delivered(st, data) == AfterBlock(st.(output := st.output + [data[0]], uncomplen := 0))
    ensures Delivered(st, data) == Delivered(st.(output := st.output + [data[0]], uncomplen := |data| - 1), data[1..])
  {
    assert |data| == 1 ==> data == [data[0]];
    assert st.output + [data[0]] + data[1..] == st.output + data;
  }

  lemma NoBytes(data: seq<byte>, rest: seq<bool>)
    requires data == []
    ensures BytesToBits(data) + rest == rest
  {
  }

  lemma ComplementDecodes(st: State, rest: seq<bool>)
    requires Good(st) && st.phase.UncompNLen? && 0 < st.uncomplen <= 65535
    ensures var s := st.(phase := UncompData);
      Good(s) && Run(st, BitsOf(65535 - st.uncomplen, 16) + rest) == Run(s, rest)
  {
    hide Good, Run, BitsOf, Pow2, Field, Step;
    SixteenBits();
    var m := 65535 - st.uncomplen;
    FieldKnown(m, 16, rest);
    ComplementStep(st, m, BitsOf(m, 16) + rest);
    RunOne(st, BitsOf(m, 16) + rest);
  }

  lemma States(st: State, final: bool, data: seq<byte>)
    ensures AfterStored(st, final, data) == Delivered(Measured(st, final, |data|).(phase := UncompData), data)
    ensures data == [] ==> AfterStored(st, final, data) == AfterBlock(Measured(st, final, 0))
    ensures Measured(st, final, |data|).uncomplen == |data| && Measured(st, final, |data|).phase.UncompNLen?
  {
    assert data == [] ==> st.output + data == st.output;
  }

  /** A stored block adds its bytes to the output, whatever fills up its first byte. */
  lemma StoredDecodes(st: State, final: bool, pad: seq<bool>, data: seq<byte>, rest: seq<bool>)
    requires Good(st) && st.phase.OutsideBlk? && |data| < 0x1_0000 && |pad| < 8 && |rest| % 8 == 0
    ensures Good(AfterStored(st, final, data))
    ensures Run(st, StoredBits(final, pad, data) + rest) == Run(AfterStored(st, final, data), rest)
  {
    var n, body := |data|, BytesToBits(data);
    States(st, final, data);
    BitsAre(final, pad, data, rest);
    hide *;
    HeadDecodes(st, final, pad, n, 65535 - n, body + rest);
    SixteenBits();
    var st1 := Measured(st, final, n);
    if n == 0 {
      NoBytes(data, rest);
      EmptyStoredDecodes(st1, rest);
    } else {
      ComplementDecodes(st1, body + rest);
      DataDecodes(st1.(phase := UncompData), data, rest);
    }
  }

  lemma BitsAre(final: bool, pad: seq<bool>, data: seq<byte>, rest: seq<bool>)
    requires |data| < 0x1_0000
    ensures StoredBits(final, pad, data) + rest == StoredHead(final, pad, |data|, 65535 - |data|) + (BytesToBits(data) + rest)
    ensures |rest| % 8 == 0 ==> |BytesToBits(data) + rest| % 8 == 0
  {
    hide StoredHead;
  }

  // ---- Whole streams of stored blocks

  /** A stored block as bytes, if it begins on a byte boundary. */
  function BlockOf(final: bool, data: seq<byte>): seq<byte>
    requires |data| <= 65535
  {
    [if final then 1 else 0, |data| % 256, |data| / 256, 255 - |data| % 256, 255 - |data| / 256] + data
  }

  /** Data of any length in stored blocks. */
  function Stored(data: seq<byte>): seq<byte>
    decreases |data|
  {
    if |data| <= 65535 then BlockOf(true, data) else BlockOf(false, data[..65535]) + Stored(data[65535..])
  }

  lemma ComplementBytes(n: nat)
    requires n < 0x1_0000
    ensures (65535 - n) % 256 == 255 - n % 256 && (65535 - n) / 256 == 255 - n / 256
  {
  }

  lemma Pieces(f: byte, a: seq<byte>, data: seq<byte>, more: seq<byte>)
    ensures BytesToBits([f] + a + data + more) == BytesToBits([f]) + BytesToBits(a) + BytesToBits(data) + BytesToBits(more)
  {
    hide BytesToBits;
    BytesToBitsAppend([f] + a + data, more);
    BytesToBitsAppend([f] + a, data);
    BytesToBitsAppend([f], a);
  }

  lemma Joined(final: bool, pad: seq<bool>, x: seq<bool>)
    ensures [final] + [false, false] + pad + x == [final, false, false] + pad + x
  {
  }

  lemma BlockBytes(final: bool, data: seq<byte>, more: seq<byte>)
    requires |data| < 0x1_0000
    ensures BytesToBits(BlockOf(final, data) + more) ==
      StoredBits(final, [false, false, false, false, false], data) + BytesToBits(more)
  {
    hide BytesToBits, BitsOf;
    var n, f := |data|, if final then 1 else 0;
    var a := [n % 256, n / 256, 255 - n % 256, 255 - n / 256];
    ComplementBytes(n);
    EightBits(f);
    Pieces(f, a, data, more);
    Joined(final, [false, false, false, false, false], BytesToBits(a));
    assert [f, n % 256, n / 256, 255 - n % 256, 255 - n / 256] == [f] + a;
  }

  lemma {:induction false} ZeroBits(n: nat)
    ensures BitsOf(0, n) == Zeros(n)
  {
    if n > 0 {
      ZeroBits(n - 1);
    }
  }

  lemma EightBits(f: byte)
    requires f < 2
    ensures BytesToBits([f]) == [f == 1] + [false, false] + [false, false, false, false, false]
  {
    assert [f][1..] == [] && BytesToBits([f]) == BitsOf(f, 8) + BytesToBits([]);
    assert BitsOf(f, 8) == [f == 1] + BitsOf(0, 7);
    hide BitsOf, BytesToBits;
    ZeroBits(7);
  }

  /** Whatever has been decompressed before, all of it is appended. */
  lemma {:induction false} StoredRuns(st: State, data: seq<byte>)
    requires Good(st) && st.phase.OutsideBlk? && !st.lastblock
    ensures var s := AfterStored(st, true, data); Good(s) && Run(st, BytesToBits(Stored(data))) == Run(s, [])
    decreases |data|
  {
    var pad := [false, false, false, false, false];
    StoredIs(data);
    NoBits();
    hide *;
    if |data| <= 65535 {
      BlockBytes(true, data, []);
      StoredDecodes(st, true, pad, data, []);
    } else {
      var first, more := data[..65535], data[65535..];
      Appended(st, first, more, data);
      OutsideStill(st, first);
      BlockBytes(false, first, Stored(more));
      StoredDecodes(st, false, pad, first, BytesToBits(Stored(more)));
      StoredRuns(AfterStored(st, false, first), more);
    }
  }

  lemma StoredIs(data: seq<byte>)
    ensures |data| <= 65535 ==> Stored(data) == BlockOf(true, data) + []
    ensures |data| > 65535 ==> Stored(data) == BlockOf(false, data[..65535]) + Stored(data[65535..])
  {
    hide BlockOf;
  }

  lemma Appended(st: State, first: seq<byte>, more: seq<byte>, data: seq<byte>)
    requires first + more == data && !st.lastblock
    ensures AfterStored(AfterStored(st, false, first), true, more) == AfterStored(st, true, data)
  {
    assert st.output + first + more == st.output + data;
  }

  lemma OutsideStill(st: State, data: seq<byte>)
    requires st.phase.OutsideBlk? && !st.lastblock
    ensures var s := AfterStored(st, false, data); s.phase.OutsideBlk? && !s.lastblock
  {
  }

  lemma NoBits()
    ensures BytesToBits([]) == []
  {
  }

  lemma BareStart(w: seq<byte>, data: seq<byte>)
    ensures var st := StartState(Bare, w);
      && st.phase.OutsideBlk? && !st.lastblock && st.output == [] && AfterStored(st, true, data).output == data
  {
    assert [] + data == data;
  }

  lemma NothingMore(st: State)
    requires Good(st)
    ensures Run(st, []) == Outcome(st, [], NoError)
  {
  }

  lemma StoredNotEmpty(data: seq<byte>)
    ensures Stored(data) != []
  {
  }

  lemma EmptyBuffer(b: seq<bool>)
    ensures [] + b == b
  {
  }

  /** The decompressor on a bare stream of stored blocks. */
  method Unstore(data: seq<byte>) returns (out: seq<byte>)
    ensures out == data
  {
    hide *;
    var ctx := new DecompressContext(Bare);
    ghost var w :| |w| == DWINSIZE && ctx.st == StartState(Bare, w);
    var code;
    StoredNotEmpty(data);
    BareStart(w, data);
    StartMatches(Bare, w);
    StoredRuns(ctx.st, data);
    NothingMore(AfterStored(ctx.st, true, data));
    EmptyBuffer(BytesToBits(Stored(data)));
    FeedIs(Outcome(ctx.st, ctx.buf, NoError), Stored(data));
    code, out := ctx.DecompressData(Stored(data));
    assert [] + out == out;
  }

  lemma FeedIs(o: Outcome, piece: seq<byte>)
    requires Good(o.st) && o.err.NoError?
    ensures Feed(o, piece) == Run(o.st, o.rest + BytesToBits(piece))
  {
  }
}

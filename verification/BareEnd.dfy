/** A complete stream that the decompressor takes for one cut short: bare, and ending on
    a byte boundary by itself. */
module BareEnd {
  import opened Bits
  import opened Canonical
  import opened Checksums
  import opened Inflate
  import opened Symbols
  import opened SymbolCoding
  import opened Blocks
  import opened Containers
  import opened Streams
  import opened Decompressor
  import opened RoundTrip

  /** Byte values from 144 up have codes of nine bits. */
  lemma NineBits(c: byte)
    requires c >= 144
    ensures Encodable(StaticCodes(), LitLenSym(c)) && |SymBits(StaticCodes(), LitLenSym(c))| == 9
  {
  }

  lemma SevenBits()
    ensures EOB < |StaticCodes().lit| && StaticCodes().lit[EOB] == 7 && |CodeBits(StaticCodes().lit, EOB)| == 7
  {
  }

  lemma {:induction false} LiteralBits(data: seq<byte>)
    requires forall i :: 0 <= i < |data| ==> data[i] >= 144
    ensures AllEncodable(StaticCodes(), Literals(data)) && |SymsBits(StaticCodes(), Literals(data))| == 9 * |data|
  {
    hide StaticCodes, Encodable, SymBits;
    if data != [] {
      var n := |data| - 1;
      LiteralBits(data[..n]);
      NineBits(data[n]);
      SymsBitsOne(StaticCodes(), Literals(data[..n]), LitLenSym(data[n]));
    }
  }

  /** Whole bytes for whole groups of eight bits. */
  lemma {:induction false} BytesFor(s: seq<bool>) returns (bytes: seq<byte>)
    requires |s| % 8 == 0
    ensures BytesToBits(bytes) == s && 8 * |bytes| == |s|
    decreases |s|
  {
    hide BitsOf, Val;
    if s == [] {
      bytes := [];
    } else {
      var first := s[..8];
      ValBound(first);
      BitsOfVal(first);
      assert Pow2(8) == 256;
      var rest := BytesFor(s[8..]);
      bytes := [Val(first)] + rest;
      assert bytes[1..] == rest && s == first + s[8..];
    }
  }

  /** Six bytes from 144 up, as one static block: three bits, six codes of nine bits, seven
      bits for the end, and nothing behind them. */
  lemma EightBytes(data: seq<byte>) returns (bytes: seq<byte>)
    requires |data| == 6 && forall i :: 0 <= i < 6 ==> data[i] >= 144
    ensures |bytes| == 8 && StreamWith(Bare, [StaticBlock(true, Literals(data))], 0, bytes, data)
  {
    hide SymsBits, StaticCodes, Playable, Played, CodeBits, BytesToBits;
    var b := StaticBlock(true, Literals(data));
    LiteralsPlay([], data);
    assert [] + data == data;
    LiteralBits(data);
    SevenBits();
    assert [] + Literals(data) == Literals(data);
    NoBlocks();
    AddBlock(Bare, [], b);
    assert [] + [b] == [b];
    bytes := BytesFor(StreamBits(Bare, [b]));
    assert Tail(Bare, 0, data) == [];
    assert StreamBits(Bare, [b]) + [] == StreamBits(Bare, [b]);
  }

  lemma NoBlocks()
    ensures Legal(Bare, []) && Open([]) && StreamBits(Bare, []) == [] && SymsOf([]) == []
  {
  }

  /** At the end of the file such a stream is reported as cut short, though all its data is there. */
  lemma CompleteButUnexpected(data: seq<byte>, w: seq<byte>) returns (bytes: seq<byte>)
    requires |data| == 6 && (forall i :: 0 <= i < 6 ==> data[i] >= 144) && |w| == DWINSIZE
    ensures IsStreamOf(Bare, bytes, data) && |bytes| == 8 && Good(StartState(Bare, w))
    ensures Run(StartState(Bare, w), BytesToBits(bytes)).st.output == data
    ensures CodeOf(Run(StartState(Bare, w), BytesToBits(bytes))) == UnexpectedEof
  {
    hide *;
    bytes := EightBytes(data);
    var bs := [StaticBlock(true, Literals(data))];
    SomeStreamIs(bs, bytes, data);
    StreamRoundTrip(Bare, bytes, data, w);
    EndIsSeen(Bare, bs, 0, bytes, data, w);
    WholeBits(bs, bytes, data);
  }

  lemma SomeStreamIs(bs: seq<Block>, bytes: seq<byte>, data: seq<byte>)
    requires StreamWith(Bare, bs, 0, bytes, data)
    ensures IsStreamOf(Bare, bytes, data)
  {
    hide StreamWith;
  }

  lemma WholeBits(bs: seq<Block>, bytes: seq<byte>, data: seq<byte>)
    requires StreamWith(Bare, bs, 0, bytes, data)
    ensures AllOk(bs) && |StreamBits(Bare, bs)| % 8 == 0
  {
    hide Legal, StreamBits, Playable, Played, Tail, BytesToBits;
    LegalOk(Bare, bs);
  }
}

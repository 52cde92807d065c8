/** The zlib (RFC 1950) and gzip (RFC 1952) wrappings the encoder writes, and the
    decompressor accepting them. */
module Containers {
  import opened Bits
  import opened Canonical
  import opened Checksums
  import opened DeflateCodes
  import opened DecodeTable
  import opened Inflate
  import opened SymbolCoding

  /** The n low bits of v, and the rest. */
  function Low(v: nat, n: nat): nat {
    if n == 0 then 0 else v % 2 + 2 * Low(v / 2, n - 1)
  }

  function High(v: nat, n: nat): nat {
    if n == 0 then v else High(v / 2, n - 1)
  }

  lemma {:induction false} LowHigh(v: nat, n: nat)
    ensures High(v, n) == v / Pow2(n) && Low(v, n) == v % Pow2(n)
  {
    if n > 0 {
      LowHigh(v / 2, n - 1);
      HalfMod(v, Pow2(n - 1));
    }
  }

  lemma {:induction false} BitsOfSplit(v: nat, a: nat, b: nat)
    ensures BitsOf(v, a + b) == BitsOf(Low(v, a), a) + BitsOf(High(v, a), b)
  {
    if a > 0 {
      BitsOfSplit(v / 2, a - 1, b);
      assert Low(v, a) % 2 == v % 2 && Low(v, a) / 2 == Low(v / 2, a - 1);
      assert BitsOf(Low(v, a), a) == [v % 2 == 1] + BitsOf(Low(v / 2, a - 1), a - 1);
      assert BitsOf(v, a + b) == [v % 2 == 1] + BitsOf(v / 2, a - 1 + b);
    }
  }

  /** Dividing by 2 and then by p is dividing by 2 * p. */
  lemma HalfMod(v: nat, p: nat)
    requires p > 0
    ensures v / (2 * p) == v / 2 / p && v % (2 * p) % 2 == v % 2 && v % (2 * p) / 2 == v / 2 % p
  {
    var q, r, low := v / 2 / p, v / 2 % p, v % 2;
    assert v / 2 == p * q + r && v == 2 * (v / 2) + low;
    var rem := 2 * r + low;
    assert v == rem + (2 * p) * q;
    DivMod(q, rem, 2 * p);
  }

  /** Two bytes at the front of the stream. */
  function TwoBytes(lo: nat, hi: nat): (b: seq<bool>)
    ensures |b| == 16
  {
    BitsOf(lo, 8) + BitsOf(hi, 8)
  }

  lemma TwoBytesRead(lo: nat, hi: nat, rest: seq<bool>)
    requires lo < 256 && hi < 256
    ensures var b := TwoBytes(lo, hi) + rest;
      Field(b, 8) == lo && Field(b[8..], 8) == hi && b[16..] == rest && |b| == 16 + |rest|
  {
    Powers();
    hide Pow2, BitsOf, Field;
    var b := TwoBytes(lo, hi) + rest;
    assert b == BitsOf(lo, 8) + (BitsOf(hi, 8) + rest);
    FieldKnown(lo, 8, BitsOf(hi, 8) + rest);
    FieldKnown(hi, 8, rest);
    assert b[8..][8..] == b[16..];
  }

  lemma SixteenSplit(v: nat)
    requires v < 0x1_0000
    ensures BitsOf(v, 16) == TwoBytes(v % 256, v / 256)
  {
    Powers();
    hide Pow2, BitsOf, Low, High;
    LowHigh(v, 8);
    BitsOfSplit(v, 8, 8);
  }

  lemma ThirtyTwoSplit(v: nat)
    ensures BitsOf(v, 32) == TwoBytes(v % 256, v / 256 % 256) + TwoBytes(v / TWO16 % 256, v / TWO16 / 256 % 256)
  {
    Sixteen();
    hide Low, High;
    LowHigh(v, 16);
    BitsOfSplit(v, 16, 16);
    HalvesOf(v % TWO16);
    LowHalf(v / TWO16);
    HalvesOf(v / TWO16 % TWO16);
    hide BitsOf, TwoBytes, Pow2;
    BytesOfHalf(v);
    BytesOfHalf(v / TWO16);
  }

  lemma Sixteen()
    ensures Pow2(16) == TWO16 && Pow2(8) == 256
  {
    Powers();
    assert Pow2(16) == 8 * Pow2(13);
  }

  lemma HalvesOf(v: nat)
    requires v < TWO16
    ensures BitsOf(v, 16) == TwoBytes(v % 256, v / 256)
  {
    SixteenSplit(v);
  }

  lemma LowHalf(v: nat)
    ensures BitsOf(v, 16) == BitsOf(v % TWO16, 16)
  {
    Sixteen();
    hide Low, High;
    LowHigh(v, 16);
    BitsOfSplit(v, 16, 0);
    hide Pow2;
    assert BitsOf(v, 16 + 0) == BitsOf(v % TWO16, 16) + [];
  }

  lemma BytesOfHalf(v: nat)
    ensures v % TWO16 % 256 == v % 256 && v % TWO16 / 256 == v / 256 % 256
  {
  }

  // ---- The header

  function ContainerHeader(kind: Kind): seq<bool> {
    match kind
    case Bare => []
    case Zlib => BitsOf(0x9C78, 16)
    case Gzip => BitsOf(0x00088B1F, 32) + BitsOf(0, 32) + BitsOf(0xFF02, 16)
  }

  /** A two-byte step of the header. */
  lemma HeaderStepDecodes(st: State, lo: nat, hi: nat, rest: seq<bool>)
    requires Good(st) && lo < 256 && hi < 256
    requires st.phase.ZlibStart? || st.phase.GzipStart? || st.phase.GzipMethFlags?
      || st.phase.GzipIgnore1? || st.phase.GzipIgnore2? || st.phase.GzipIgnore3?
    requires st.phase.ZlibStart? ==> lo == 0x78 && hi == 0x9C
    requires st.phase.GzipStart? ==> lo == 0x1F && hi == 0x8B
    requires st.phase.GzipMethFlags? ==> lo == 8 && hi == 0
    ensures var s := HeaderNext(st);
      Good(s) && Run(st, TwoBytes(lo, hi) + rest) == Run(s, rest)
  {
    hide Good, Step, TwoBytes, Field, Run;
    TwoBytesRead(lo, hi, rest);
    HeaderStepIs(st, lo, hi, TwoBytes(lo, hi) + rest);
    RunOne(st, TwoBytes(lo, hi) + rest);
  }

  function HeaderNext(st: State): State {
    match st.phase
    case ZlibStart => st.(phase := OutsideBlk)
    case GzipStart => st.(phase := GzipMethFlags)
    case GzipMethFlags => st.(phase := GzipIgnore1, gzflags := 0)
    case GzipIgnore1 => st.(phase := GzipIgnore2)
    case GzipIgnore2 => st.(phase := GzipIgnore3)
    case _ => st.(phase := GzipExtra)
  }

  lemma HeaderStepIs(st: State, lo: nat, hi: nat, b: seq<bool>)
    requires Good(st) && |b| >= 16 && Field(b, 8) == lo && Field(b[8..], 8) == hi
    requires st.phase.ZlibStart? || st.phase.GzipStart? || st.phase.GzipMethFlags?
      || st.phase.GzipIgnore1? || st.phase.GzipIgnore2? || st.phase.GzipIgnore3?
    requires st.phase.ZlibStart? ==> lo == 0x78 && hi == 0x9C
    requires st.phase.GzipStart? ==> lo == 0x1F && hi == 0x8B
    requires st.phase.GzipMethFlags? ==> lo == 8 && hi == 0
    ensures Step(st, b) == Next(HeaderNext(st), 16)
  {
    hide Complete, Checksum, Reduced, Field;
    assert 0x789C % 31 == 0 && 0x789C / 0x20 % 2 == 0 && 0x789C / 0x1000 % 16 == 7 && 0x789C / 0x100 % 16 == 8;
  }

  /** No optional gzip fields are announced, so none are looked for. */
  lemma NoOptionalFields(st: State, b: seq<bool>)
    requires Good(st) && st.phase.GzipExtra? && st.gzflags == 0 && b != []
    ensures var s := st.(phase := OutsideBlk); Good(s) && Run(st, b) == Run(s, b)
  {
    var st1, st2 := st.(phase := GzipFName), st.(phase := GzipComment);
    OptionalSkips(st, b);
    RunOne(st, b);
    OptionalSkips(st1, b);
    RunOne(st1, b);
    OptionalSkips(st2, b);
    RunOne(st2, b);
    hide Good, Step, Run;
    assert b[0..] == b;
  }

  lemma OptionalSkips(st: State, b: seq<bool>)
    requires Good(st) && st.gzflags == 0
    ensures st.phase.GzipExtra? ==> Step(st, b) == Next(st.(phase := GzipFName), 0)
    ensures st.phase.GzipFName? ==> Step(st, b) == Next(st.(phase := GzipComment), 0)
    ensures st.phase.GzipComment? ==> Step(st, b) == Next(st.(phase := OutsideBlk), 0)
  {
    hide Complete, Checksum, Reduced, Field;
  }

  /** The state of the decompressor behind the header. */
  function Opened(st: State): State {
    st.(phase := OutsideBlk, gzflags := if st.kind.Gzip? then 0 else st.gzflags)
  }

  predicate AtStart(st: State) {
    st.phase == match st.kind case Bare => OutsideBlk case Zlib => ZlibStart case Gzip => GzipStart
  }

  lemma GzipBits()
    ensures ContainerHeader(Gzip) ==
      TwoBytes(0x1F, 0x8B) + TwoBytes(8, 0) + TwoBytes(0, 0) + TwoBytes(0, 0) + TwoBytes(2, 0xFF)
  {
    hide TwoBytes, BitsOf;
    ThirtyTwoSplit(0x00088B1F);
    ThirtyTwoSplit(0);
    SixteenSplit(0xFF02);
  }

  lemma ZlibBits()
    ensures ContainerHeader(Zlib) == TwoBytes(0x78, 0x9C)
  {
    hide TwoBytes, BitsOf;
    SixteenSplit(0x9C78);
  }

  lemma GzipHeaderDecodes(st: State, rest: seq<bool>)
    requires Good(st) && st.phase.GzipStart? && st.kind.Gzip? && rest != []
    ensures Good(Opened(st)) && Run(st, ContainerHeader(Gzip) + rest) == Run(Opened(st), rest)
  {
    hide Good, Run, TwoBytes, ContainerHeader;
    GzipBits();
    var a, b, c, d, e := TwoBytes(0x1F, 0x8B), TwoBytes(8, 0), TwoBytes(0, 0), TwoBytes(0, 0), TwoBytes(2, 0xFF);
    var st1 := HeaderNext(st);
    var st2 := HeaderNext(st1);
    var st3 := HeaderNext(st2);
    var st4 := HeaderNext(st3);
    HeaderStepDecodes(st, 0x1F, 0x8B, b + (c + (d + (e + rest))));
    HeaderStepDecodes(st1, 8, 0, c + (d + (e + rest)));
    HeaderStepDecodes(st2, 0, 0, d + (e + rest));
    HeaderStepDecodes(st3, 0, 0, e + rest);
    HeaderStepDecodes(st4, 2, 0xFF, rest);
    NoOptionalFields(HeaderNext(st4), rest);
    Regroup4(a, b, c, d, e);
    assert a + b + c + d + e + rest == a + (b + (c + (d + (e + rest))));
  }

  lemma ContainerHeaderDecodes(st: State, rest: seq<bool>)
    requires Good(st) && AtStart(st) && rest != []
    ensures Good(Opened(st)) && Run(st, ContainerHeader(st.kind) + rest) == Run(Opened(st), rest)
  {
    hide Good, Run, TwoBytes;
    if st.kind.Gzip? {
      GzipHeaderDecodes(st, rest);
    } else if st.kind.Zlib? {
      hide ContainerHeader;
      ZlibBits();
      HeaderStepDecodes(st, 0x78, 0x9C, rest);
    } else {
      assert [] + rest == rest;
    }
  }

  // ---- The trailer

  /** The checksum of the data as the number the trailer holds. */
  function SumWord(kind: Kind, data: seq<byte>): (w: nat)
    ensures w < TWO32
  {
    ChecksumReduced(kind, data);
    Word(Checksum(kind, data))
  }

  /** What is written behind the last block: zlib's checksum is big-endian. */
  function Trailer(kind: Kind, w: nat, size: nat): (b: seq<bool>)
    ensures |b| == if kind.Bare? then 0 else if kind.Zlib? then 32 else 64
  {
    match kind
    case Bare => []
    case Zlib => BitsOf(w / 0x100_0000 % 256, 8) + BitsOf(w / TWO16 % 256, 8) + BitsOf(w / 256 % 256, 8) + BitsOf(w % 256, 8)
    case Gzip => BitsOf(w, 32) + BitsOf(size, 32)
  }

  predicate InChecks(p: Phase) {
    p.Adler1? || p.Adler2? || p.Crc1? || p.Crc2? || p.ILen1? || p.ILen2?
  }

  /** The 16 bits the decompressor expects next. */
  function Due(p: Phase, w: nat, size: nat): nat {
    if p.Adler1? || p.Crc2? then w / TWO16 % TWO16
    else if p.Adler2? || p.Crc1? then w % TWO16
    else if p.ILen1? then size % TWO16
    else size / TWO16 % TWO16
  }

  function CheckNext(st: State): State {
    st.(phase := if st.phase.Adler1? then Adler2 else if st.phase.Crc1? then Crc2 else if st.phase.Crc2? then ILen1
                 else if st.phase.ILen1? then ILen2 else FinalSpin)
  }

  function Pair(p: Phase, lo: nat, hi: nat): nat {
    if p.Adler1? || p.Adler2? then hi + 256 * lo else lo + 256 * hi
  }

  lemma CheckStepIs(st: State, lo: nat, hi: nat, b: seq<bool>)
    requires Good(st) && InChecks(st.phase) && |b| >= 16 && Field(b, 8) == lo && Field(b[8..], 8) == hi
    requires Due(st.phase, SumWord(st.kind, st.output), |st.output|) == Pair(st.phase, lo, hi)
    ensures Step(st, b) == Next(CheckNext(st), 16)
  {
    hide Complete, Checksum, Reduced, Field, Word;
  }

  lemma CheckDecodes(st: State, w: nat, lo: nat, hi: nat, rest: seq<bool>)
    requires Good(st) && InChecks(st.phase) && lo < 256 && hi < 256 && w == SumWord(st.kind, st.output)
    requires Due(st.phase, w, |st.output|) == Pair(st.phase, lo, hi)
    ensures Good(CheckNext(st)) && Run(st, TwoBytes(lo, hi) + rest) == Run(CheckNext(st), rest)
  {
    hide Good, Step, TwoBytes, Field, Run, Due, CheckNext, SumWord, Pair;
    TwoBytesRead(lo, hi, rest);
    CheckStepIs(st, lo, hi, TwoBytes(lo, hi) + rest);
    RunOne(st, TwoBytes(lo, hi) + rest);
  }

  lemma BigEndian(w: nat)
    requires w < TWO32
    ensures w / TWO16 % TWO16 == w / TWO16 % 256 + 256 * (w / 0x100_0000 % 256)
    ensures w % TWO16 == w % 256 + 256 * (w / 256 % 256)
  {
  }

  lemma LittleEndian(w: nat)
    ensures w % TWO16 == w % 256 + 256 * (w / 256 % 256)
  {
  }

  lemma ZlibTrailerIs(w: nat, size: nat)
    ensures Trailer(Zlib, w, size) ==
      TwoBytes(w / 0x100_0000 % 256, w / TWO16 % 256) + (TwoBytes(w / 256 % 256, w % 256) + [])
  {
    hide BitsOf;
  }

  lemma ZlibTrailerDecodes(st: State, w: nat, size: nat)
    requires Good(st) && st.phase.Adler1? && w == SumWord(st.kind, st.output)
    ensures Run(st, Trailer(Zlib, w, size)) == Outcome(st.(phase := FinalSpin), [], NoError)
  {
    hide Good, TwoBytes, Trailer, Step, Run, SumWord;
    ZlibTrailerIs(w, size);
    BigEndian(w);
    var a, b, c, d := w / 0x100_0000 % 256, w / TWO16 % 256, w / 256 % 256, w % 256;
    CheckDecodes(st, w, a, b, TwoBytes(c, d) + []);
    CheckDecodes(CheckNext(st), w, c, d, []);
    RunNothing(st.(phase := FinalSpin));
  }

  lemma GzipTrailerIs(w: nat, size: nat)
    ensures var v, t := w / TWO16, size / TWO16;
      Trailer(Gzip, w, size) ==
        TwoBytes(w % 256, w / 256 % 256) + (TwoBytes(v % 256, v / 256 % 256)
        + (TwoBytes(size % 256, size / 256 % 256) + (TwoBytes(t % 256, t / 256 % 256) + [])))
  {
    hide BitsOf, TwoBytes;
    ThirtyTwoSplit(w);
    ThirtyTwoSplit(size);
  }

  lemma GzipTrailerDecodes(st: State, w: nat, size: nat)
    requires Good(st) && st.phase.Crc1? && w == SumWord(st.kind, st.output) && size == |st.output|
    ensures Run(st, Trailer(Gzip, w, size)) == Outcome(st.(phase := FinalSpin), [], NoError)
  {
    hide Good, TwoBytes, Trailer, Step, Run, SumWord;
    GzipTrailerIs(w, size);
    var v, t := w / TWO16, size / TWO16;
    LittleEndian(w);
    LittleEndian(v);
    LittleEndian(size);
    LittleEndian(t);
    var b4 := TwoBytes(t % 256, t / 256 % 256) + [];
    var b3 := TwoBytes(size % 256, size / 256 % 256) + b4;
    var st2, st3, st4 := st.(phase := Crc2), st.(phase := ILen1), st.(phase := ILen2);
    CheckDecodes(st, w, w % 256, w / 256 % 256, TwoBytes(v % 256, v / 256 % 256) + b3);
    CheckDecodes(st2, w, v % 256, v / 256 % 256, b3);
    CheckDecodes(st3, w, size % 256, size / 256 % 256, b4);
    CheckDecodes(st4, w, t % 256, t / 256 % 256, []);
    RunNothing(st.(phase := FinalSpin));
  }

  /** The end of the stream: padding to a byte boundary, then the trailer. Only an
      unpadded bare stream leaves the decompressor short of its final state. */
  lemma EndDecodes(st: State, pad: nat, w: nat)
    requires Good(st) && st.phase.End? && pad < 8 && w == SumWord(st.kind, st.output)
    ensures Run(st, Zeros(pad) + Trailer(st.kind, w, |st.output|)) ==
      Outcome(if st.kind.Bare? && pad == 0 then st else st.(phase := FinalSpin), [], NoError)
  {
    hide Good, Run, SumWord, Step, Zeros;
    var t := Trailer(st.kind, w, |st.output|);
    var b := Zeros(pad) + t;
    hide Trailer;
    if b == [] {
      RunNothing(st);
    } else {
      EndSkips(st, b, pad);
      RunOne(st, b);
      assert b[pad..] == t;
      if st.kind.Zlib? {
        ZlibTrailerDecodes(st.(phase := Adler1), w, |st.output|);
      } else if st.kind.Gzip? {
        GzipTrailerDecodes(st.(phase := Crc1), w, |st.output|);
      } else {
        RunNothing(st.(phase := FinalSpin));
      }
    }
  }

  lemma RunNothing(st: State)
    requires Good(st)
    ensures Run(st, []) == Outcome(st, [], NoError)
  {
  }

  lemma EndSkips(st: State, b: seq<bool>, pad: nat)
    requires Good(st) && st.phase.End? && pad < 8 && |b| % 8 == pad
    ensures Step(st, b) == Next(st.(phase := if st.kind.Zlib? then Adler1 else if st.kind.Gzip? then Crc1 else FinalSpin), pad)
  {
    hide Complete, Checksum, Reduced;
  }
}

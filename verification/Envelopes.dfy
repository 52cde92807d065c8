/** What the decompressor accepts around the blocks: every zlib header that RFC 1950 allows
    without a dictionary, every gzip header that RFC 1952 allows without a header CRC, and the
    trailers that belong to the data; and what it says to the others. */
module Envelopes {
  import opened Bits
  import opened Canonical
  import opened Checksums
  import opened ChecksumValues
  import opened DeflateCodes
  import opened DecodeTable
  import opened Inflate
  import opened SymbolCoding
  import opened Containers

  lemma OneByte(a: byte)
    ensures BytesToBits([a]) == BitsOf(a, 8)
  {
    assert [a][1..] == [] && BytesToBits([a]) == BitsOf(a, 8) + BytesToBits([]);
  }

  lemma PairOfBytes(a: byte, b: byte)
    ensures BytesToBits([a, b]) == TwoBytes(a, b)
  {
    hide BytesToBits, BitsOf;
    OneByte(a);
    OneByte(b);
    BytesToBitsAppend([a], [b]);
    assert [a] + [b] == [a, b];
  }

  lemma FirstTwo(s: seq<byte>, rest: seq<bool>)
    requires |s| >= 2
    ensures BytesToBits(s) + rest == TwoBytes(s[0], s[1]) + (BytesToBits(s[2..]) + rest)
  {
    hide BytesToBits, TwoBytes;
    PairOfBytes(s[0], s[1]);
    BytesToBitsAppend([s[0], s[1]], s[2..]);
    assert s == [s[0], s[1]] + s[2..];
  }

  lemma FirstOne(s: seq<byte>, rest: seq<bool>)
    requires s != []
    ensures BytesToBits(s) + rest == BitsOf(s[0], 8) + (BytesToBits(s[1..]) + rest)
  {
    hide BitsOf;
  }

  lemma None(s: seq<byte>, rest: seq<bool>)
    requires s == []
    ensures BytesToBits(s) + rest == rest
  {
  }

  // ---- zlib (section 2.2 of RFC 1950)

  /** Method 8, a window of at most 32K, no dictionary, and the check bits. */
  predicate ZlibHeaderOk(cmf: byte, flg: byte) {
    cmf % 16 == 8 && cmf / 16 <= 7 && flg / 32 % 2 == 0 && (256 * cmf + flg) % 31 == 0
  }

  lemma ZlibFields(cmf: byte, flg: byte)
    ensures var h := flg + 256 * cmf;
      h / 0x1000 % 16 == cmf / 16 && h / 0x20 % 2 == flg / 32 % 2 && h / 0x100 % 16 == cmf % 16
  {
  }

  lemma ZlibStep(st: State, cmf: byte, flg: byte, b: seq<bool>)
    requires Good(st) && st.phase.ZlibStart? && |b| >= 16 && Field(b, 8) == cmf && Field(b[8..], 8) == flg
    ensures Step(st, b) ==
      if ZlibHeaderOk(cmf, flg) then Next(st.(phase := OutsideBlk), 16)
      else Fail(if cmf / 16 > 7 || flg / 32 % 2 != 0 || (256 * cmf + flg) % 31 != 0 then ZlibHeader else ZlibWrongComp)
  {
    ZlibFields(cmf, flg);
    hide Checksum, Reduced, Field, Complete;
  }

  /** These two bytes are accepted, all others refused. */
  lemma ZlibHeaders(st: State, cmf: byte, flg: byte, rest: seq<bool>)
    requires Good(st) && st.phase.ZlibStart?
    ensures ZlibHeaderOk(cmf, flg) ==>
      var s := st.(phase := OutsideBlk); Good(s) && Run(st, BytesToBits([cmf, flg]) + rest) == Run(s, rest)
    ensures !ZlibHeaderOk(cmf, flg) ==>
      Run(st, BytesToBits([cmf, flg]) + rest).err ==
        Bad(if cmf / 16 > 7 || flg / 32 % 2 != 0 || (256 * cmf + flg) % 31 != 0 then ZlibHeader else ZlibWrongComp)
  {
    hide *;
    var b := TwoBytes(cmf, flg) + rest;
    PairOfBytes(cmf, flg);
    TwoBytesRead(cmf, flg, rest);
    ZlibStep(st, cmf, flg, b);
    RunOnce(st, b);
  }

  // ---- gzip (section 2.3 of RFC 1952)

  /** What the first four bytes lead to: magic number, method 8, and no header CRC. */
  lemma GzipStep(st: State, lo: byte, hi: byte, b: seq<bool>)
    requires Good(st) && |b| >= 16 && Field(b, 8) == lo && Field(b[8..], 8) == hi
    ensures st.phase.GzipStart? ==>
      Step(st, b) == if lo == 0x1F && hi == 0x8B then Next(st.(phase := GzipMethFlags), 16) else Fail(GzipHeader)
    ensures st.phase.GzipMethFlags? ==>
      Step(st, b) ==
        if lo != 8 then Fail(GzipWrongComp)
        else if hi / 2 % 2 == 1 then Fail(GzipFhcrc)
        else Next(st.(phase := GzipIgnore1, gzflags := hi), 16)
    ensures st.phase.GzipIgnore1? ==> Step(st, b) == Next(st.(phase := GzipIgnore2), 16)
    ensures st.phase.GzipIgnore2? ==> Step(st, b) == Next(st.(phase := GzipIgnore3), 16)
    ensures st.phase.GzipIgnore3? ==> Step(st, b) == Next(st.(phase := GzipExtra), 16)
  {
    hide Checksum, Reduced, Field, Complete;
  }

  predicate GzipFixed(p: Phase) {
    p.GzipStart? || p.GzipMethFlags? || p.GzipIgnore1? || p.GzipIgnore2? || p.GzipIgnore3?
  }

  lemma GzipTwo(st: State, lo: byte, hi: byte, rest: seq<bool>)
    requires Good(st) && GzipFixed(st.phase)
    ensures var b := TwoBytes(lo, hi) + rest;
      && |b| >= 16 && Field(b, 8) == lo && Field(b[8..], 8) == hi
      && var r := Step(st, b);
      && (r.Next? && r.used == 16 ==> Good(r.st) && Run(st, b) == Run(r.st, rest))
      && (r.Fail? ==> Run(st, b).err == Bad(r.err))
  {
    hide *;
    TwoBytesRead(lo, hi, rest);
    RunOnce(st, TwoBytes(lo, hi) + rest);
  }

  /** Two bytes of the fixed part are accepted, and what follows them. */
  lemma GzipAccepts(st: State, lo: byte, hi: byte, rest: seq<bool>, s: State)
    requires Good(st) && GzipFixed(st.phase)
    requires st.phase.GzipStart? ==> lo == 0x1F && hi == 0x8B && s == st.(phase := GzipMethFlags)
    requires st.phase.GzipMethFlags? ==> lo == 8 && hi / 2 % 2 == 0 && s == st.(phase := GzipIgnore1, gzflags := hi)
    requires st.phase.GzipIgnore1? ==> s == st.(phase := GzipIgnore2)
    requires st.phase.GzipIgnore2? ==> s == st.(phase := GzipIgnore3)
    requires st.phase.GzipIgnore3? ==> s == st.(phase := GzipExtra)
    ensures Good(s) && Run(st, TwoBytes(lo, hi) + rest) == Run(s, rest)
  {
    hide Good, Step, Run, Field, TwoBytes;
    GzipTwo(st, lo, hi, rest);
    GzipStep(st, lo, hi, TwoBytes(lo, hi) + rest);
  }

  /** A wrong magic number, another method, a header CRC. */
  lemma GzipRefuses(st: State, lo: byte, hi: byte, rest: seq<bool>)
    requires Good(st)
    ensures st.phase.GzipStart? && (lo != 0x1F || hi != 0x8B) ==> Run(st, BytesToBits([lo, hi]) + rest).err == Bad(GzipHeader)
    ensures st.phase.GzipMethFlags? && lo != 8 ==> Run(st, BytesToBits([lo, hi]) + rest).err == Bad(GzipWrongComp)
    ensures st.phase.GzipMethFlags? && lo == 8 && hi / 2 % 2 == 1 ==> Run(st, BytesToBits([lo, hi]) + rest).err == Bad(GzipFhcrc)
  {
    hide Good, Step, Run, Field, TwoBytes, BytesToBits;
    PairOfBytes(lo, hi);
    if st.phase.GzipStart? || st.phase.GzipMethFlags? {
      GzipTwo(st, lo, hi, rest);
      GzipStep(st, lo, hi, TwoBytes(lo, hi) + rest);
    }
  }

  // ---- The optional fields

  lemma ExtraStep(st: State, b: seq<bool>)
    requires Good(st) && st.phase.GzipExtra? && st.gzflags / 4 % 2 == 1
    ensures st.gzextralen == 0 && |b| >= 16 ==> Step(st, b) == Next(st.(gzextralen := Field(b, 16)), 16)
    ensures st.gzextralen > 0 && |b| >= 8 ==>
      Step(st, b) == Next(if st.gzextralen == 1 then st.(gzextralen := 0, phase := GzipFName) else st.(gzextralen := st.gzextralen - 1), 8)
  {
    hide Checksum, Reduced, Field, Complete;
  }

  lemma EightUsed(c: byte, rest: seq<bool>)
    ensures var b := BitsOf(c, 8) + rest; |b| >= 8 && Field(b, 8) == c && b[8..] == rest
  {
    assert Pow2(8) == 256 by { Powers(); }
    hide Pow2, BitsOf, Field;
    FieldKnown(c, 8, rest);
  }

  lemma {:induction false} ExtraBytes(st: State, extra: seq<byte>, rest: seq<bool>)
    requires Good(st) && st.phase.GzipExtra? && st.gzflags / 4 % 2 == 1 && st.gzextralen == |extra| > 0
    ensures var s := st.(gzextralen := 0, phase := GzipFName);
      Good(s) && Run(st, BytesToBits(extra) + rest) == Run(s, rest)
    decreases |extra|
  {
    hide *;
    var more := BytesToBits(extra[1..]) + rest;
    FirstOne(extra, rest);
    EightUsed(extra[0], more);
    ExtraStep(st, BitsOf(extra[0], 8) + more);
    RunOne(st, BitsOf(extra[0], 8) + more);
    if |extra| == 1 {
      None(extra[1..], rest);
    } else {
      ExtraBytes(st.(gzextralen := |extra| - 1), extra[1..], rest);
    }
  }

  lemma LengthField(n: nat, rest: seq<bool>)
    requires n < 0x1_0000
    ensures var b := BytesToBits([n % 256, n / 256]) + rest; |b| >= 16 && Field(b, 16) == n && b[16..] == rest
  {
    Sixteen();
    hide Pow2, BitsOf, Field, TwoBytes, BytesToBits;
    PairOfBytes(n % 256, n / 256);
    SixteenSplit(n);
    FieldKnown(n, 16, rest);
  }

  /** An extra field of at least one byte is skipped. One of none is not seen as that: the two
      bytes behind its length are taken for a length again. */
  lemma ExtraField(st: State, extra: seq<byte>, rest: seq<bool>)
    requires Good(st) && st.phase.GzipExtra? && st.gzflags / 4 % 2 == 1 && st.gzextralen == 0 && |extra| < 0x1_0000
    ensures var s := if extra == [] then st else st.(phase := GzipFName);
      Good(s) && Run(st, BytesToBits([|extra| % 256, |extra| / 256] + extra) + rest) == Run(s, rest)
  {
    hide *;
    var n := |extra|;
    BytesToBitsAppend([n % 256, n / 256], extra);
    Assoc(BytesToBits([n % 256, n / 256]), BytesToBits(extra), rest);
    LengthField(n, BytesToBits(extra) + rest);
    var b := BytesToBits([n % 256, n / 256]) + (BytesToBits(extra) + rest);
    ExtraStep(st, b);
    RunOne(st, b);
    if n == 0 {
      None(extra, rest);
    } else {
      ExtraBytes(st.(gzextralen := n), extra, rest);
    }
  }

  /** File name and comment: the flag that announces each, and what comes behind it. */
  function TextFlag(p: Phase): (f: nat)
    ensures f > 0
  {
    if p.GzipFName? then 8 else 16
  }

  function TextNext(st: State): State {
    st.(phase := if st.phase.GzipFName? then GzipComment else OutsideBlk)
  }

  lemma TextStep(st: State, b: seq<bool>)
    requires Good(st) && (st.phase.GzipFName? || st.phase.GzipComment?)
    ensures st.gzflags / TextFlag(st.phase) % 2 == 0 ==> Step(st, b) == Next(TextNext(st), 0)
    ensures st.gzflags / TextFlag(st.phase) % 2 == 1 && |b| >= 8 ==>
      Step(st, b) == Next(if Field(b, 8) == 0 then TextNext(st) else st, 8)
  {
    hide Checksum, Reduced, Field, Complete;
  }

  lemma {:induction false} TextBytes(st: State, text: seq<byte>, rest: seq<bool>)
    requires Good(st) && (st.phase.GzipFName? || st.phase.GzipComment?) && st.gzflags / TextFlag(st.phase) % 2 == 1
    requires 0 !in text
    ensures Good(TextNext(st)) && Run(st, BytesToBits(text + [0]) + rest) == Run(TextNext(st), rest)
    decreases |text|
  {
    hide *;
    var s := text + [0];
    var more := BytesToBits(s[1..]) + rest;
    FirstOne(s, rest);
    EightUsed(s[0], more);
    TextStep(st, BitsOf(s[0], 8) + more);
    RunOne(st, BitsOf(s[0], 8) + more);
    if text == [] {
      None(s[1..], rest);
    } else {
      assert s[1..] == text[1..] + [0];
      TextBytes(st, text[1..], rest);
    }
  }

  /** A field that ends with a zero byte, if its flag is set. */
  function Text(announced: bool, text: seq<byte>): seq<byte> {
    if announced then text + [0] else []
  }

  lemma TextField(st: State, text: seq<byte>, rest: seq<bool>)
    requires Good(st) && (st.phase.GzipFName? || st.phase.GzipComment?) && 0 !in text && rest != []
    ensures var announced := st.gzflags / TextFlag(st.phase) % 2 == 1;
      Good(TextNext(st)) && Run(st, BytesToBits(Text(announced, text)) + rest) == Run(TextNext(st), rest)
  {
    hide Good, Run, Step, BytesToBits, TextFlag, TextNext;
    if st.gzflags / TextFlag(st.phase) % 2 == 1 {
      TextBytes(st, text, rest);
    } else {
      None([], rest);
      TextStep(st, rest);
      RunOne(st, rest);
      assert rest[0..] == rest;
    }
  }

  /** The extra field, if its flag is set. */
  function Extra(announced: bool, extra: seq<byte>): seq<byte>
    requires |extra| < 0x1_0000
  {
    if announced then [|extra| % 256, |extra| / 256] + extra else []
  }

  lemma NoExtra(st: State, rest: seq<bool>)
    requires Good(st) && st.phase.GzipExtra? && st.gzflags / 4 % 2 == 0 && rest != []
    ensures var s := st.(phase := GzipFName); Good(s) && Run(st, rest) == Run(s, rest)
  {
    hide *;
    NoExtraStep(st, rest);
    RunOne(st, rest);
    assert rest[0..] == rest;
  }

  lemma NoExtraStep(st: State, b: seq<bool>)
    requires Good(st) && st.phase.GzipExtra? && st.gzflags / 4 % 2 == 0
    ensures Step(st, b) == Next(st.(phase := GzipFName), 0)
  {
    hide Checksum, Reduced, Field, Complete;
  }

  lemma TextPhases(st: State)
    requires st.phase.GzipExtra?
    ensures var s := st.(phase := GzipFName);
      && TextFlag(s.phase) == 8 && TextNext(s) == st.(phase := GzipComment)
      && TextFlag(TextNext(s).phase) == 16 && TextNext(TextNext(s)) == st.(phase := OutsideBlk)
  {
  }

  /** Whatever is announced is skipped. */
  lemma OptionalFields(st: State, extra: seq<byte>, name: seq<byte>, comment: seq<byte>, rest: seq<bool>)
    requires Good(st) && st.phase.GzipExtra? && st.gzextralen == 0 && 0 < |extra| < 0x1_0000
    requires 0 !in name && 0 !in comment && rest != []
    ensures var f, s := st.gzflags, st.(phase := OutsideBlk);
      && Good(s)
      && Run(st, BytesToBits(Extra(f / 4 % 2 == 1, extra))
               + (BytesToBits(Text(f / 8 % 2 == 1, name)) + (BytesToBits(Text(f / 16 % 2 == 1, comment)) + rest))) == Run(s, rest)
  {
    var f := st.gzflags;
    var c := BytesToBits(Text(f / 16 % 2 == 1, comment)) + rest;
    var n := BytesToBits(Text(f / 8 % 2 == 1, name)) + c;
    assert Extra(f / 4 % 2 == 1, extra) == if f / 4 % 2 == 1 then [|extra| % 256, |extra| / 256] + extra else [];
    hide *;
    TextPhases(st);
    if f / 4 % 2 == 1 {
      ExtraField(st, extra, n);
    } else {
      None(Extra(false, extra), n);
      NoExtra(st, n);
    }
    TextField(st.(phase := GzipFName), name, c);
    TextField(st.(phase := GzipComment), comment, rest);
  }

  /** A whole gzip header: magic number, method, flags, six bytes, and what the flags announce. */
  lemma GzipHeaders(st: State, flags: byte, six: seq<byte>, extra: seq<byte>, name: seq<byte>, comment: seq<byte>, rest: seq<bool>)
    requires Good(st) && st.phase.GzipStart? && st.gzextralen == 0 && flags / 2 % 2 == 0 && |six| == 6
    requires 0 < |extra| < 0x1_0000 && 0 !in name && 0 !in comment && rest != []
    ensures var s := st.(phase := OutsideBlk, gzflags := flags);
      && Good(s)
      && Run(st, BytesToBits([0x1F, 0x8B, 8, flags] + six)
               + (BytesToBits(Extra(flags / 4 % 2 == 1, extra))
               + (BytesToBits(Text(flags / 8 % 2 == 1, name)) + (BytesToBits(Text(flags / 16 % 2 == 1, comment)) + rest)))) == Run(s, rest)
  {
    hide *;
    var h := [0x1F, 0x8B, 8, flags] + six;
    var more := BytesToBits(Extra(flags / 4 % 2 == 1, extra))
      + (BytesToBits(Text(flags / 8 % 2 == 1, name)) + (BytesToBits(Text(flags / 16 % 2 == 1, comment)) + rest));
    TenBytes(h, more);
    var st1 := st.(phase := GzipMethFlags);
    var st2 := st1.(phase := GzipIgnore1, gzflags := flags);
    var st3, st4, st5 := st2.(phase := GzipIgnore2), st2.(phase := GzipIgnore3), st2.(phase := GzipExtra);
    Fixed();
    GzipAccepts(st, 0x1F, 0x8B, TwoBytes(h[2], h[3]) + (TwoBytes(h[4], h[5]) + (TwoBytes(h[6], h[7]) + (TwoBytes(h[8], h[9]) + more))), st1);
    GzipAccepts(st1, 8, flags, TwoBytes(h[4], h[5]) + (TwoBytes(h[6], h[7]) + (TwoBytes(h[8], h[9]) + more)), st2);
    GzipAccepts(st2, h[4], h[5], TwoBytes(h[6], h[7]) + (TwoBytes(h[8], h[9]) + more), st3);
    GzipAccepts(st3, h[6], h[7], TwoBytes(h[8], h[9]) + more, st4);
    GzipAccepts(st4, h[8], h[9], more, st5);
    OptionalFields(st5, extra, name, comment, rest);
  }

  lemma Fixed()
    ensures GzipFixed(GzipStart) && GzipFixed(GzipMethFlags) && GzipFixed(GzipIgnore1) && GzipFixed(GzipIgnore2) && GzipFixed(GzipIgnore3)
  {
  }

  lemma TenBytes(h: seq<byte>, more: seq<bool>)
    requires |h| == 10
    ensures BytesToBits(h) + more == TwoBytes(h[0], h[1]) + (TwoBytes(h[2], h[3]) + (TwoBytes(h[4], h[5])
      + (TwoBytes(h[6], h[7]) + (TwoBytes(h[8], h[9]) + more))))
  {
    hide BytesToBits, TwoBytes;
    FirstTwo(h, more);
    FirstTwo(h[2..], more);
    FirstTwo(h[4..], more);
    FirstTwo(h[6..], more);
    FirstTwo(h[8..], more);
    None(h[10..], more);
    assert h[2..][2..] == h[4..] && h[4..][2..] == h[6..] && h[6..][2..] == h[8..] && h[8..][2..] == h[10..];
  }

  // ---- What the compressor writes around the blocks

  lemma WrittenHeaders()
    ensures ContainerHeader(Zlib) == BytesToBits([0x78, 0x9C])
    ensures ContainerHeader(Gzip) == BytesToBits([0x1F, 0x8B, 8, 0, 0, 0, 0, 0, 2, 0xFF])
  {
    hide *;
    ZlibBits();
    GzipBits();
    PairOfBytes(0x78, 0x9C);
    var h := [0x1F, 0x8B, 8, 0, 0, 0, 0, 0, 2, 0xFF];
    TenBytes(h, []);
    Regroup4(TwoBytes(0x1F, 0x8B), TwoBytes(8, 0), TwoBytes(0, 0), TwoBytes(0, 0), TwoBytes(2, 0xFF));
    assert TwoBytes(2, 0xFF) + [] == TwoBytes(2, 0xFF) && BytesToBits(h) + [] == BytesToBits(h);
  }

  /** The two Adler sums of the data. */
  function AdlerLow(data: seq<byte>): nat {
    (1 + ByteSum(data, |data|)) % 65521
  }

  function AdlerHigh(data: seq<byte>): nat {
    (|data| + Weighted(data, |data|, |data|)) % 65521
  }

  /** The CRC of the data as a number. */
  function CrcNumber(data: seq<byte>): nat {
    Xor(Register(0xFFFFFFFF, data), 0xFFFFFFFF) as nat
  }

  lemma Words(data: seq<byte>)
    ensures SumWord(Zlib, data) == AdlerHigh(data) * 0x1_0000 + AdlerLow(data)
    ensures SumWord(Gzip, data) == CrcNumber(data) < 0x1_0000_0000
  {
    hide Register, ByteSum, Weighted, Xor, Updated;
    AdlerValue(data);
    CrcValue(data);
    hide Checksum;
  }

  /** Two bytes, highest first, and lowest first. */
  function BigHalf(h: nat): (b: seq<byte>)
    requires h < 0x1_0000
    ensures |b| == 2
  {
    [h / 256, h % 256]
  }

  function LittleHalf(h: nat): (b: seq<byte>)
    requires h < 0x1_0000
    ensures |b| == 2
  {
    [h % 256, h / 256]
  }

  /** And four. */
  function Little(v: nat): (b: seq<byte>)
    requires v < 0x1_0000_0000
    ensures |b| == 4
  {
    LittleHalf(v % 0x1_0000) + LittleHalf(v / 0x1_0000)
  }

  /** The zlib trailer: the second sum first. */
  function AdlerBytes(data: seq<byte>): (b: seq<byte>)
    ensures |b| == 4
  {
    BigHalf(AdlerHigh(data)) + BigHalf(AdlerLow(data))
  }

  lemma HalfSums(h: nat, l: nat)
    requires h < 65521 && l < 65521
    ensures var v := h * 0x1_0000 + l; v < 0x1_0000_0000 && v / TWO16 == h && v % TWO16 == l && v / TWO16 % TWO16 == h
  {
  }

  lemma FourBytes(s: seq<byte>, rest: seq<bool>)
    requires |s| == 4
    ensures BytesToBits(s) + rest == TwoBytes(s[0], s[1]) + (TwoBytes(s[2], s[3]) + rest)
  {
    hide BytesToBits, TwoBytes;
    FirstTwo(s, rest);
    FirstTwo(s[2..], rest);
    None(s[4..], rest);
    assert s[2..][2..] == s[4..];
  }

  lemma WithNothing(a: seq<bool>)
    ensures a + [] == a
  {
  }

  lemma LowPart(v: nat)
    ensures v % 256 == v % 0x1_0000 % 256 && v / 256 % 256 == v % 0x1_0000 / 256
  {
  }

  lemma HighPartOf(v: nat)
    requires v < 0x1_0000_0000
    ensures var h := v / 0x1_0000; h < 0x1_0000 && h % 256 == h % 256 && h / 256 % 256 == h / 256 && v / 0x100_0000 % 256 == h / 256
  {
  }

  lemma HalvesAsBits(x: seq<byte>, y: seq<byte>)
    requires |x| == 2 && |y| == 2
    ensures BytesToBits(x + y) == TwoBytes(x[0], x[1]) + TwoBytes(y[0], y[1])
  {
    hide BytesToBits, TwoBytes;
    BytesToBitsAppend(x, y);
    PairOfBytes(x[0], x[1]);
    PairOfBytes(y[0], y[1]);
    assert x == [x[0], x[1]] && y == [y[0], y[1]];
  }

  lemma LittleAsBits(v: nat)
    requires v < 0x1_0000_0000
    ensures var h := v / TWO16;
      BytesToBits(Little(v)) == TwoBytes(v % 256, v / 256 % 256) + TwoBytes(h % 256, h / 256 % 256)
  {
    LowPart(v);
    HighPartOf(v);
    hide BytesToBits, TwoBytes;
    HalvesAsBits(LittleHalf(v % 0x1_0000), LittleHalf(v / 0x1_0000));
  }

  lemma BigAsBits(v: nat, h: nat, l: nat)
    requires v < 0x1_0000_0000 && h < 0x1_0000 && l < 0x1_0000 && v / TWO16 == h && v % TWO16 == l
    ensures BytesToBits(BigHalf(h) + BigHalf(l)) ==
      TwoBytes(v / 0x100_0000 % 256, v / TWO16 % 256) + TwoBytes(v / 256 % 256, v % 256)
  {
    LowPart(v);
    HighPartOf(v);
    hide BytesToBits, TwoBytes;
    HalvesAsBits(BigHalf(h), BigHalf(l));
  }

  lemma TrailerParts(a: seq<bool>, b: seq<bool>, c: seq<bool>, d: seq<bool>)
    ensures a + (b + []) == a + b && a + (b + (c + (d + []))) == (a + b) + (c + d)
  {
  }

  lemma NoTrailer(data: seq<byte>, size: nat)
    ensures Trailer(Bare, SumWord(Bare, data), size) == []
  {
  }

  /** What the compressor writes behind the blocks. */
  lemma WrittenTrailers(data: seq<byte>, size: nat)
    requires size < 0x1_0000_0000
    ensures Trailer(Bare, SumWord(Bare, data), size) == []
    ensures Trailer(Zlib, SumWord(Zlib, data), size) == BytesToBits(AdlerBytes(data))
    ensures CrcNumber(data) < 0x1_0000_0000
    ensures Trailer(Gzip, SumWord(Gzip, data), size) == BytesToBits(Little(CrcNumber(data))) + BytesToBits(Little(size))
  {
    NoTrailer(data, size);
    Words(data);
    SumsBounded(data);
    var v, c := SumWord(Zlib, data), CrcNumber(data);
    var x, y := c / TWO16, size / TWO16;
    assert AdlerBytes(data) == BigHalf(AdlerHigh(data)) + BigHalf(AdlerLow(data));
    hide *;
    ZlibTrailerIs(v, size);
    HalfSums(AdlerHigh(data), AdlerLow(data));
    BigAsBits(v, AdlerHigh(data), AdlerLow(data));
    TrailerParts(TwoBytes(v / 0x100_0000 % 256, v / TWO16 % 256), TwoBytes(v / 256 % 256, v % 256), [], []);
    GzipTrailerIs(c, size);
    LittleAsBits(c);
    LittleAsBits(size);
    TrailerParts(TwoBytes(c % 256, c / 256 % 256), TwoBytes(x % 256, x / 256 % 256),
                 TwoBytes(size % 256, size / 256 % 256), TwoBytes(y % 256, y / 256 % 256));
  }

  lemma SumsBounded(data: seq<byte>)
    ensures AdlerLow(data) < 65521 && AdlerHigh(data) < 65521
  {
    hide ByteSum, Weighted;
  }

  // ---- What the decompressor accepts behind the blocks

  lemma CheckStep(st: State, lo: nat, hi: nat, b: seq<bool>)
    requires Good(st) && InChecks(st.phase) && |b| >= 16 && Field(b, 8) == lo && Field(b[8..], 8) == hi
    ensures Step(st, b) ==
      if Due(st.phase, SumWord(st.kind, st.output), |st.output|) == Pair(st.phase, lo, hi) then Next(CheckNext(st), 16)
      else Fail(if st.phase.ILen1? || st.phase.ILen2? then BadInLen else BadChecksum)
  {
    hide Complete, Checksum, Reduced, Field, Word;
  }

  /** Two bytes of the trailer. */
  lemma CheckTwo(st: State, lo: byte, hi: byte, rest: seq<bool>)
    requires Good(st) && InChecks(st.phase)
    ensures var right := Due(st.phase, SumWord(st.kind, st.output), |st.output|) == Pair(st.phase, lo, hi);
      && (right ==> Good(CheckNext(st)) && Run(st, TwoBytes(lo, hi) + rest) == Run(CheckNext(st), rest))
      && (!right ==> Run(st, TwoBytes(lo, hi) + rest).err ==
                       Bad(if st.phase.ILen1? || st.phase.ILen2? then BadInLen else BadChecksum))
  {
    hide *;
    TwoBytesRead(lo, hi, rest);
    CheckStep(st, lo, hi, TwoBytes(lo, hi) + rest);
    RunOnce(st, TwoBytes(lo, hi) + rest);
  }

  lemma HalfDue(h: nat, a: byte, b: byte)
    requires h < 0x1_0000
    ensures LittleHalf(h) == [a, b] <==> h == a + 256 * b
    ensures BigHalf(h) == [a, b] <==> h == b + 256 * a
  {
  }

  lemma FourInHalves(w: seq<byte>, x: seq<byte>, y: seq<byte>)
    requires |w| == 4 && |x| == 2 && |y| == 2
    ensures w == x + y <==> x == [w[0], w[1]] && y == [w[2], w[3]]
  {
    if x == [w[0], w[1]] && y == [w[2], w[3]] {
      assert w == [w[0], w[1]] + [w[2], w[3]];
    }
  }

  /** What the bytes of the zlib trailer are compared with. */
  lemma ZlibDue(st: State, w: seq<byte>, size: nat)
    requires Good(st) && st.kind.Zlib? && st.phase.Adler1? && |w| == 4
    ensures var v, s := SumWord(Zlib, st.output), st.(phase := Adler2);
      && (w == AdlerBytes(st.output) <==>
            Due(Adler1, v, size) == Pair(Adler1, w[0], w[1]) && Due(Adler2, v, size) == Pair(Adler2, w[2], w[3]))
      && InChecks(Adler1) && InChecks(Adler2) && CheckNext(st) == s && CheckNext(s) == st.(phase := FinalSpin)
  {
    Words(st.output);
    SumsBounded(st.output);
    hide SumWord, AdlerHigh, AdlerLow, BigHalf, Good;
    HalfSums(AdlerHigh(st.output), AdlerLow(st.output));
    HalfDue(AdlerHigh(st.output), w[0], w[1]);
    HalfDue(AdlerLow(st.output), w[2], w[3]);
    FourInHalves(w, BigHalf(AdlerHigh(st.output)), BigHalf(AdlerLow(st.output)));
  }

  /** The zlib trailer is accepted exactly if it is that of the data. */
  lemma ZlibTrailers(st: State, w: seq<byte>, rest: seq<bool>)
    requires Good(st) && st.phase.Adler1? && st.kind.Zlib? && |w| == 4
    ensures w == AdlerBytes(st.output) ==>
      var s := st.(phase := FinalSpin); Good(s) && Run(st, BytesToBits(w) + rest) == Run(s, rest)
    ensures w != AdlerBytes(st.output) ==> Run(st, BytesToBits(w) + rest).err == Bad(BadChecksum)
  {
    hide *;
    ZlibDue(st, w, |st.output|);
    FourBytes(w, rest);
    CheckTwo(st, w[0], w[1], TwoBytes(w[2], w[3]) + rest);
    if Due(Adler1, SumWord(Zlib, st.output), |st.output|) == Pair(Adler1, w[0], w[1]) {
      CheckTwo(st.(phase := Adler2), w[2], w[3], rest);
    }
  }

  lemma LittleDue(v: nat, w: seq<byte>)
    requires v < 0x1_0000_0000 && |w| == 4
    ensures w == Little(v) <==> v % 0x1_0000 == w[0] as nat + 256 * w[1] as nat && v / 0x1_0000 == w[2] as nat + 256 * w[3] as nat
  {
    hide LittleHalf;
    HalfDue(v % 0x1_0000, w[0], w[1]);
    HalfDue(v / 0x1_0000, w[2], w[3]);
    FourInHalves(w, LittleHalf(v % 0x1_0000), LittleHalf(v / 0x1_0000));
  }

  lemma SmallHalf(v: nat)
    requires v < 0x1_0000_0000
    ensures v / 0x1_0000 % 0x1_0000 == v / 0x1_0000
  {
  }

  lemma SizeMod(size: nat)
    ensures var v := size % 0x1_0000_0000; v % 0x1_0000 == size % 0x1_0000 && v / 0x1_0000 == size / 0x1_0000 % 0x1_0000
  {
  }

  /** What the bytes of the gzip trailer are compared with. */
  lemma GzipDue(st: State, w: seq<byte>, size: seq<byte>)
    requires Good(st) && st.kind.Gzip? && st.phase.Crc1? && |w| == 4 && |size| == 4
    ensures CrcNumber(st.output) < 0x1_0000_0000
    ensures var v, n := SumWord(Gzip, st.output), |st.output|;
      && (w == Little(CrcNumber(st.output)) <==>
            Due(Crc1, v, n) == Pair(Crc1, w[0], w[1]) && Due(Crc2, v, n) == Pair(Crc2, w[2], w[3]))
      && (size == Little(n % 0x1_0000_0000) <==>
            Due(ILen1, v, n) == Pair(ILen1, size[0], size[1]) && Due(ILen2, v, n) == Pair(ILen2, size[2], size[3]))
  {
    Words(st.output);
    hide SumWord, CrcNumber, Little, Good;
    SmallHalf(SumWord(Gzip, st.output));
    SizeMod(|st.output|);
    LittleDue(CrcNumber(st.output), w);
    LittleDue(|st.output| % 0x1_0000_0000, size);
  }

  lemma GzipPhases(st: State)
    requires st.phase.Crc1?
    ensures InChecks(Crc1) && InChecks(Crc2) && InChecks(ILen1) && InChecks(ILen2)
    ensures CheckNext(st) == st.(phase := Crc2) && CheckNext(st.(phase := Crc2)) == st.(phase := ILen1)
    ensures CheckNext(st.(phase := ILen1)) == st.(phase := ILen2) && CheckNext(st.(phase := ILen2)) == st.(phase := FinalSpin)
  {
  }

  /** The CRC and the size in the gzip trailer likewise. */
  lemma GzipTrailers(st: State, w: seq<byte>, size: seq<byte>, rest: seq<bool>)
    requires Good(st) && st.phase.Crc1? && st.kind.Gzip? && |w| == 4 && |size| == 4
    ensures CrcNumber(st.output) < 0x1_0000_0000
    ensures var c, n, s := Little(CrcNumber(st.output)), Little(|st.output| % 0x1_0000_0000), st.(phase := FinalSpin);
      && var b := BytesToBits(w) + (BytesToBits(size) + rest);
      && (w == c && size == n ==> Good(s) && Run(st, b) == Run(s, rest))
      && (w != c ==> Run(st, b).err == Bad(BadChecksum))
      && (w == c && size != n ==> Run(st, b).err == Bad(BadInLen))
  {
    hide *;
    GzipDue(st, w, size);
    GzipPhases(st);
    FourBytes(w, BytesToBits(size) + rest);
    FourBytes(size, rest);
    var v, n := SumWord(Gzip, st.output), |st.output|;
    var d := TwoBytes(size[2], size[3]) + rest;
    var c := TwoBytes(size[0], size[1]) + d;
    CheckTwo(st, w[0], w[1], TwoBytes(w[2], w[3]) + c);
    if Due(Crc1, v, n) == Pair(Crc1, w[0], w[1]) {
      CheckTwo(st.(phase := Crc2), w[2], w[3], c);
      if Due(Crc2, v, n) == Pair(Crc2, w[2], w[3]) {
        SizeChecked(st.(phase := ILen1), size, rest);
      }
    }
  }

  lemma SizeChecked(st: State, size: seq<byte>, rest: seq<bool>)
    requires Good(st) && st.phase.ILen1? && st.kind.Gzip? && |size| == 4
    ensures var v, n, s := SumWord(Gzip, st.output), |st.output|, st.(phase := FinalSpin);
      && var right := Due(ILen1, v, n) == Pair(ILen1, size[0], size[1]) && Due(ILen2, v, n) == Pair(ILen2, size[2], size[3]);
      && var b := TwoBytes(size[0], size[1]) + (TwoBytes(size[2], size[3]) + rest);
      && (right ==> Good(s) && Run(st, b) == Run(s, rest))
      && (!right ==> Run(st, b).err == Bad(BadInLen))
  {
    hide *;
    GzipPhases(st.(phase := Crc1));
    CheckTwo(st, size[0], size[1], TwoBytes(size[2], size[3]) + rest);
    if Due(ILen1, SumWord(Gzip, st.output), |st.output|) == Pair(ILen1, size[0], size[1]) {
      CheckTwo(st.(phase := ILen2), size[2], size[3], rest);
    }
  }
}

/** deflate_decompress_data as a machine that takes the smallest possible steps
    on a bit stream, and why cutting the stream into pieces cannot matter. */
module Inflate {
  import opened Bits
  import opened Canonical
  import opened DecodeTable
  import opened DeflateCodes
  import opened Checksums

  datatype Phase =
    | ZlibStart
    | GzipStart | GzipMethFlags | GzipIgnore1 | GzipIgnore2 | GzipIgnore3 | GzipExtra | GzipFName | GzipComment
    | OutsideBlk | TreesHdr | TreesLenLen | TreesLen | TreesLenRep
    | InBlk | GotLenSym | GotLen | GotDistSym
    | UncompLen | UncompNLen | UncompData
    | End
    | Adler1 | Adler2
    | Crc1 | Crc2 | ILen1 | ILen2
    | FinalSpin

  /** Decoding errors. BeyondTables stands for the two distance codes, 30 and 31,
      that index past the source's distance table. */
  datatype Error =
    | ZlibHeader | ZlibWrongComp | GzipHeader | GzipWrongComp | GzipFhcrc
    | SmallTable | LargeTable | UncompHdr | NoDistTable | BadChecksum | BadInLen | BeyondTables

  datatype DistTree = NoDist | SomeDist(lens: seq<CodeLen>)

  const DWINSIZE: nat := 32768

  /** The decompressor's state between steps, less its bit buffer. before is
      what the window held initially, output all bytes produced since. */
  datatype State = State(
    kind: Kind,
    phase: Phase,
    before: seq<byte>,
    output: seq<byte>,
    lastblock: bool,
    sym: nat,
    hlit: nat, hdist: nat, hclen: nat,
    lenptr: nat,
    lenlen: seq<CodeLen>,
    lengths: seq<CodeLen>,
    lenextrabits: nat, lenaddon: nat, lenrep: CodeLen,
    litlen: seq<CodeLen>,
    dist: DistTree,
    len: nat,
    uncomplen: nat,
    gzflags: nat, gzextralen: nat)

  datatype StepResult = Stall | Fail(err: Error) | Next(st: State, used: nat)

  /** The number in the first n bits of the buffer. */
  function Field(buf: seq<bool>, n: nat): (v: nat)
    requires n <= |buf|
    ensures v < Pow2(n)
  {
    ValBound(buf[..n]);
    Val(buf[..n])
  }

  /** Decoding one symbol by definition: the symbol whose code starts the buffer. */
  ghost function DecodeSym(ls: seq<CodeLen>, buf: seq<bool>): (r: Lookup)
    ensures r.Found? ==> IsCode(ls, r.code, buf) && r.nbits == ls[r.code]
    ensures r.NotEnough? ==> forall i :: !IsCode(ls, i, buf)
  {
    if i :| IsCode(ls, i, buf) then Found(i, ls[i]) else NotEnough
  }

  function StaticLitLen(): (ls: seq<CodeLen>)
    ensures |ls| == 288
  {
    seq(288, i => if i < 144 then 8 else if i < 256 then 9 else if i < 280 then 7 else 8)
  }

  function StaticDist(): (ls: seq<CodeLen>)
    ensures |ls| == 32
  {
    seq(32, _ => 5)
  }

  /** emit_char. */
  function Emit(st: State, c: byte): State {
    st.(output := st.output + [c])
  }

  /** The byte d places back; before the first output lies the initial window. */
  function Back(st: State, d: nat): byte
    requires |st.before| == DWINSIZE && 1 <= d <= DWINSIZE
  {
    var hist := st.before + st.output;
    hist[|hist| - d]
  }

  /** The copy loop: byte by byte, so a copy may overlap itself. */
  function CopyMatch(st: State, d: nat, n: nat): (r: State)
    requires |st.before| == DWINSIZE && 1 <= d <= DWINSIZE
    ensures r == st.(output := r.output) && |r.output| == |st.output| + n && st.output <= r.output
    decreases n
  {
    if n == 0 then st else CopyMatch(Emit(st, Back(st, d)), d, n - 1)
  }

  function TableError(ls: seq<CodeLen>): Error {
    if KraftTo(ls, |ls|) > Pow2(15) then LargeTable else SmallTable
  }

  function AfterBlock(st: State): State {
    st.(phase := if st.lastblock then End else OutsideBlk)
  }

  function Repeat(x: CodeLen, n: nat): (s: seq<CodeLen>)
    ensures |s| == n && forall i :: 0 <= i < n ==> s[i] == x
  {
    seq(n, _ => x)
  }

  function Min(a: nat, b: nat): nat {
    if a < b then a else b
  }

  // ---- One step, phase group by phase group

  /** An n-bit field and what to do with it, or a stall. */
  function HeaderStep(st: State, buf: seq<bool>): StepResult
  {
    if |buf| < 16 then Stall else
    var lo, hi := Field(buf, 8), Field(buf[8..], 8);
    if st.phase.ZlibStart? then
      var header := hi + 256 * lo;
      if header / 0x1000 % 16 > 7 || header / 0x20 % 2 != 0 || header % 31 != 0 then Fail(ZlibHeader)
      else if header / 0x100 % 16 != 8 then Fail(ZlibWrongComp)
      else Next(st.(phase := OutsideBlk), 16)
    else if st.phase.GzipStart? then
      if lo + 256 * hi != 0x8B1F then Fail(GzipHeader) else Next(st.(phase := GzipMethFlags), 16)
    else if st.phase.GzipMethFlags? then
      if lo != 8 then Fail(GzipWrongComp)
      else if hi / 2 % 2 == 1 then Fail(GzipFhcrc)
      else Next(st.(phase := GzipIgnore1, gzflags := hi), 16)
    else if st.phase.GzipIgnore1? then Next(st.(phase := GzipIgnore2), 16)
    else if st.phase.GzipIgnore2? then Next(st.(phase := GzipIgnore3), 16)
    else Next(st.(phase := GzipExtra), 16)
  }

  function OptionalStep(st: State, buf: seq<bool>): StepResult
  {
    if st.phase.GzipExtra? then
      if st.gzflags / 4 % 2 == 0 then Next(st.(phase := GzipFName), 0)
      else if st.gzextralen == 0 then
        if |buf| < 16 then Stall else Next(st.(gzextralen := Field(buf, 16)), 16)
      else if |buf| < 8 then Stall
      else if st.gzextralen > 1 then Next(st.(gzextralen := st.gzextralen - 1), 8)
      else Next(st.(gzextralen := 0, phase := GzipFName), 8)
    else if st.phase.GzipFName? then
      if st.gzflags / 8 % 2 == 0 then Next(st.(phase := GzipComment), 0)
      else if |buf| < 8 then Stall
      else Next(if Field(buf, 8) == 0 then st.(phase := GzipComment) else st, 8)
    else
      if st.gzflags / 16 % 2 == 0 then Next(st.(phase := OutsideBlk), 0)
      else if |buf| < 8 then Stall
      else Next(if Field(buf, 8) == 0 then st.(phase := OutsideBlk) else st, 8)
  }

  function BlockHeaderStep(st: State, buf: seq<bool>): StepResult {
    if |buf| < 3 then Stall else
    var s := if buf[0] then st.(lastblock := true) else st;
    match Field(buf[1..], 2)
    case 0 => Next(s.(phase := UncompLen), 3 + (|buf| - 3) % 8)
    case 1 => Next(s.(phase := InBlk, litlen := StaticLitLen(), dist := SomeDist(StaticDist())), 3)
    case 2 => Next(s.(phase := TreesHdr), 3)
    case _ => Next(s, 3)
  }

  function TreesHdrStep(st: State, buf: seq<bool>): StepResult {
    if |buf| < 14 then Stall else
    Next(st.(hlit := 257 + Field(buf, 5), hdist := 1 + Field(buf[5..], 5), hclen := 4 + Field(buf[10..], 4),
             lenptr := 0, lenlen := Repeat(0, 19), lengths := [], phase := TreesLenLen), 14)
  }

  /** One code-length code length. */
  function TreesLenLenStep(st: State, buf: seq<bool>): StepResult
    requires st.lenptr < st.hclen <= 19 && |st.lenlen| == 19
  {
    if |buf| < 3 then Stall else
    assert Pow2(3) == 8;
    var ll := st.lenlen[LENLENMAP[st.lenptr] := Field(buf, 3)];
    var s := st.(lenlen := ll, lenptr := st.lenptr + 1);
    if s.lenptr < s.hclen then Next(s, 3)
    else if !Complete(ll) then Fail(TableError(ll))
    else Next(s.(phase := TreesLen, lenptr := 0), 3)
  }

  /** Both trees are in: build the two tables. */
  function TreesDone(st: State): StepResult
    requires st.hlit >= 1 && st.hdist >= 1 && |st.lengths| == st.hlit + st.hdist
  {
    var lit, dst := st.lengths[..st.hlit], st.lengths[st.hlit..];
    if !Complete(lit) then Fail(TableError(lit))
    else if st.hdist == 1 && dst[0] == 0 then Next(st.(litlen := lit, dist := NoDist, phase := InBlk), 0)
    else if !Complete(dst) then Fail(TableError(dst))
    else Next(st.(litlen := lit, dist := SomeDist(dst), phase := InBlk), 0)
  }

  ghost function TreesLenStep(st: State, buf: seq<bool>): StepResult
    requires st.hlit >= 1 && st.hdist >= 1 && |st.lengths| <= st.hlit + st.hdist && |st.lenlen| == 19
  {
    if |st.lengths| >= st.hlit + st.hdist then TreesDone(st) else TreesSymStep(st, buf)
  }

  /** One symbol of the code-length alphabet. */
  ghost function TreesSymStep(st: State, buf: seq<bool>): StepResult {
    match DecodeSym(st.lenlen, buf)
    case NotEnough => Stall
    case Found(code, n) =>
      if code < 16 then Next(st.(lengths := st.lengths + [code]), n)
      else Next(st.(lenextrabits := if code == 16 then 2 else if code == 17 then 3 else 7,
                    lenaddon := if code == 18 then 11 else 3,
                    lenrep := if code == 16 && st.lengths != [] then st.lengths[|st.lengths| - 1] else 0,
                    phase := TreesLenRep), n)
  }

  function TreesLenRepStep(st: State, buf: seq<bool>): StepResult
    requires |st.lengths| <= st.hlit + st.hdist
  {
    if |buf| < st.lenextrabits then Stall else
    var rep := Min(st.lenaddon + Field(buf, st.lenextrabits), st.hlit + st.hdist - |st.lengths|);
    Next(st.(lengths := st.lengths + Repeat(st.lenrep, rep), phase := TreesLen), st.lenextrabits)
  }

  ghost function InBlkStep(st: State, buf: seq<bool>): StepResult {
    match DecodeSym(st.litlen, buf)
    case NotEnough => Stall
    case Found(code, n) =>
      if code < 256 then Next(Emit(st, code), n)
      else if code == 256 then Next(AfterBlock(st), n)
      else if code < 286 then Next(st.(phase := GotLenSym, sym := code), n)
      else Next(st, n)
  }

  function GotLenSymStep(st: State, buf: seq<bool>): StepResult
    requires 257 <= st.sym < 286
  {
    var rec := LENCODES[st.sym - 257];
    if |buf| < rec.extrabits then Stall
    else Next(st.(len := rec.min + Field(buf, rec.extrabits), phase := GotLen), rec.extrabits)
  }

  ghost function GotLenStep(st: State, buf: seq<bool>): StepResult {
    match st.dist
    case NoDist => Fail(NoDistTable)
    case SomeDist(ls) =>
      match DecodeSym(ls, buf)
      case NotEnough => Stall
      case Found(code, n) => Next(st.(phase := GotDistSym, sym := code), n)
  }

  function GotDistSymStep(st: State, buf: seq<bool>): StepResult
    requires |st.before| == DWINSIZE
  {
    if st.sym >= |DISTCODES| then Fail(BeyondTables) else
    var rec := DISTCODES[st.sym];
    if |buf| < rec.extrabits then Stall
    else
      var d := rec.min + Field(buf, rec.extrabits);
      if d > DWINSIZE then Fail(BeyondTables) else
      Next(CopyMatch(st, d, st.len).(phase := InBlk, len := 0), rec.extrabits)
  }

  /** UNCOMP_LEN, UNCOMP_NLEN and UNCOMP_DATA. */
  function UncompStep(st: State, buf: seq<bool>): StepResult {
    if st.phase.UncompData? then
      if |buf| < 8 then Stall else
      assert Pow2(8) == 256 by { Powers(); }
      var s := Emit(st, Field(buf, 8));
      if st.uncomplen <= 1 then Next(AfterBlock(s.(uncomplen := 0)), 8)
      else Next(s.(uncomplen := st.uncomplen - 1), 8)
    else if |buf| < 16 then Stall
    else if st.phase.UncompLen? then Next(st.(uncomplen := Field(buf, 16), phase := UncompNLen), 16)
    else if st.uncomplen + Field(buf, 16) != 0xFFFF then Fail(UncompHdr)
    else if st.uncomplen == 0 then Next(AfterBlock(st), 16)
    else Next(st.(phase := UncompData), 16)
  }

  /** The 16-bit halves of the stored checksum, big-endian for zlib. */
  function TrailerStep(st: State, buf: seq<bool>): StepResult
    requires Reduced(Checksum(st.kind, st.output))
  {
    if |buf| < 16 then Stall else
    var lo, hi := Field(buf, 8), Field(buf[8..], 8);
    var word := Word(Checksum(st.kind, st.output));
    if st.phase.Adler1? then
      if hi + 256 * lo != word / TWO16 % TWO16 then Fail(BadChecksum) else Next(st.(phase := Adler2), 16)
    else if st.phase.Adler2? then
      if hi + 256 * lo != word % TWO16 then Fail(BadChecksum) else Next(st.(phase := FinalSpin), 16)
    else if st.phase.Crc1? then
      if lo + 256 * hi != word % TWO16 then Fail(BadChecksum) else Next(st.(phase := Crc2), 16)
    else if st.phase.Crc2? then
      if lo + 256 * hi != word / TWO16 % TWO16 then Fail(BadChecksum) else Next(st.(phase := ILen1), 16)
    else if st.phase.ILen1? then
      if lo + 256 * hi != |st.output| % TWO16 then Fail(BadInLen) else Next(st.(phase := ILen2), 16)
    else
      if lo + 256 * hi != |st.output| / TWO16 % TWO16 then Fail(BadInLen) else Next(st.(phase := FinalSpin), 16)
  }

  function EndStep(st: State, buf: seq<bool>): StepResult {
    Next(st.(phase := match st.kind case Zlib => Adler1 case Gzip => Crc1 case Bare => FinalSpin), |buf| % 8)
  }

  ghost predicate TreesReady(st: State) {
    Complete(st.litlen) && (st.dist.SomeDist? ==> Complete(st.dist.lens))
  }

  predicate TreeSizes(st: State) {
    && 257 <= st.hlit <= 288 && 1 <= st.hdist <= 32 && 4 <= st.hclen <= 19
    && |st.lenlen| == 19 && |st.lengths| <= st.hlit + st.hdist
  }

  /** What holds between steps. */
  ghost predicate Good(st: State) {
    && |st.before| == DWINSIZE
    && Reduced(Checksum(st.kind, st.output))
    && (st.phase.TreesLenLen? ==> TreeSizes(st) && st.lenptr < st.hclen && st.lengths == [])
    && (st.phase.TreesLen? || st.phase.TreesLenRep? ==> TreeSizes(st) && Complete(st.lenlen))
    && (st.phase.TreesLenRep? ==> st.lenextrabits in {2, 3, 7})
    && (st.phase.InBlk? || st.phase.GotLenSym? || st.phase.GotLen? || st.phase.GotDistSym? ==> TreesReady(st))
    && (st.phase.GotLenSym? ==> 257 <= st.sym < 286)
    && (st.phase.UncompData? ==> st.uncomplen > 0)
  }

  /** One step of the machine. */
  ghost function Step(st: State, buf: seq<bool>): StepResult
    requires Good(st)
  {
    match st.phase
    case ZlibStart => HeaderStep(st, buf)
    case GzipStart => HeaderStep(st, buf)
    case GzipMethFlags => HeaderStep(st, buf)
    case GzipIgnore1 => HeaderStep(st, buf)
    case GzipIgnore2 => HeaderStep(st, buf)
    case GzipIgnore3 => HeaderStep(st, buf)
    case GzipExtra => OptionalStep(st, buf)
    case GzipFName => OptionalStep(st, buf)
    case GzipComment => OptionalStep(st, buf)
    case OutsideBlk => BlockHeaderStep(st, buf)
    case TreesHdr => TreesHdrStep(st, buf)
    case TreesLenLen => TreesLenLenStep(st, buf)
    case TreesLen => TreesLenStep(st, buf)
    case TreesLenRep => TreesLenRepStep(st, buf)
    case InBlk => InBlkStep(st, buf)
    case GotLenSym => GotLenSymStep(st, buf)
    case GotLen => GotLenStep(st, buf)
    case GotDistSym => GotDistSymStep(st, buf)
    case UncompLen => UncompStep(st, buf)
    case UncompNLen => UncompStep(st, buf)
    case UncompData => UncompStep(st, buf)
    case End => EndStep(st, buf)
    case Adler1 => TrailerStep(st, buf)
    case Adler2 => TrailerStep(st, buf)
    case Crc1 => TrailerStep(st, buf)
    case Crc2 => TrailerStep(st, buf)
    case ILen1 => TrailerStep(st, buf)
    case ILen2 => TrailerStep(st, buf)
    case FinalSpin => if buf == [] then Stall else Next(st, 1)
  }

  /** Phases that can pass without eating a bit, in the order they pass. */
  function Rank(p: Phase): nat {
    match p
    case GzipExtra => 3
    case GzipFName => 2
    case GzipComment => 1
    case TreesLen => 1
    case GotLenSym => 2
    case GotLen => 1
    case GotDistSym => 1
    case End => 1
    case _ => 0
  }

  lemma {:induction false} ChecksumReduced(kind: Kind, data: seq<byte>)
    ensures Reduced(Checksum(kind, data))
  {
    if kind.Zlib? {
      AdlerStays(Initial(kind), data);
    } else {
      NotAdler(Initial(kind), data);
    }
  }

  lemma {:induction false} NotAdler(s: Sum, data: seq<byte>)
    requires !s.Adler?
    ensures !Updated(s, data).Adler?
  {
    if data != [] {
      NotAdler(s, data[..|data| - 1]);
    }
  }

  /** A step keeps the state good, only adds output and eats only buffered bits;
      eating none, it moves to a lower phase. */
  ghost predicate Fine(st: State, buf: seq<bool>, r: StepResult) {
    r.Next? ==> Good(r.st) && st.output <= r.st.output && r.used <= |buf| && (r.used == 0 ==> Rank(r.st.phase) < Rank(st.phase))
  }

  lemma HeaderFine(st: State, buf: seq<bool>)
    requires Good(st)
    ensures Fine(st, buf, HeaderStep(st, buf))
  {
    hide Field, Reduced, Checksum, Complete, TreesReady, TreeSizes;
  }

  lemma OptionalFine(st: State, buf: seq<bool>)
    requires Good(st) && (st.phase.GzipExtra? || st.phase.GzipFName? || st.phase.GzipComment?)
    ensures Fine(st, buf, OptionalStep(st, buf))
  {
    hide Field, Reduced, Checksum, Complete, TreesReady, TreeSizes;
  }

  lemma {:induction false} KraftRun(ls: seq<CodeLen>, a: nat, b: nat, len: nat)
    requires a <= b <= |ls| && 0 < len < 16 && forall i :: a <= i < b ==> ls[i] == len
    ensures KraftTo(ls, b) == KraftTo(ls, a) + (b - a) * Pow2(15 - len)
    decreases b
  {
    hide *;
    if a < b {
      KraftRun(ls, a, b - 1, len);
      KraftOne(ls, b, len);
      OnceMore(b - 1 - a, Pow2(15 - len));
      assert b - a == b - 1 - a + 1;
    } else {
      assert b - a == 0;
    }
  }

  lemma KraftOne(ls: seq<CodeLen>, b: nat, len: nat)
    requires 0 < b <= |ls| && 0 < len < 16 && ls[b - 1] == len
    ensures KraftTo(ls, b) == KraftTo(ls, b - 1) + Pow2(15 - len)
  {
  }

  lemma OnceMore(n: nat, p: nat)
    ensures (n + 1) * p == n * p + p
  {
  }

  lemma StaticLitLenComplete()
    ensures Complete(StaticLitLen())
  {
    Powers();
    assert Pow2(15) == 4 * Pow2(13) && KraftTo(StaticLitLen(), 0) == 0;
    hide Pow2, KraftTo, Base, Complete;
    var l := StaticLitLen();
    KraftRun(l, 0, 144, 8);
    KraftRun(l, 144, 256, 9);
    KraftRun(l, 256, 280, 7);
    KraftRun(l, 280, 288, 8);
    CompleteByKraft(l);
  }

  /** The static trees fill their code spaces. */
  lemma StaticComplete()
    ensures Complete(StaticLitLen()) && Complete(StaticDist())
  {
    StaticLitLenComplete();
    Powers();
    assert Pow2(15) == 4 * Pow2(13) && KraftTo(StaticDist(), 0) == 0;
    hide Pow2, KraftTo, Base, Complete, StaticLitLen;
    KraftRun(StaticDist(), 0, 32, 5);
    CompleteByKraft(StaticDist());
  }

  lemma CompleteByKraft(ls: seq<CodeLen>)
    requires KraftTo(ls, |ls|) == Pow2(15)
    ensures Complete(ls)
  {
    BaseIsKraft(ls, |ls|);
  }

  lemma BlockHeaderFine(st: State, buf: seq<bool>)
    requires Good(st) && st.phase.OutsideBlk?
    ensures Fine(st, buf, BlockHeaderStep(st, buf))
  {
    StaticComplete();
    hide Field, Reduced, Checksum, Complete, TreeSizes, StaticLitLen, StaticDist;
  }

  lemma TreesHdrFine(st: State, buf: seq<bool>)
    requires Good(st) && st.phase.TreesHdr?
    ensures Fine(st, buf, TreesHdrStep(st, buf))
  {
    Powers();
    hide Reduced, Checksum, Complete, TreesReady, Pow2, Val;
  }

  lemma TreesLenLenFine(st: State, buf: seq<bool>)
    requires Good(st) && st.phase.TreesLenLen?
    ensures Fine(st, buf, TreesLenLenStep(st, buf))
  {
    hide Field, Reduced, Checksum, Complete, TreesReady, TableError;
  }

  lemma TreesLenFine(st: State, buf: seq<bool>)
    requires Good(st) && st.phase.TreesLen?
    ensures Fine(st, buf, TreesLenStep(st, buf))
  {
    hide Reduced, Checksum, Complete, TableError;
    CodesNotEmpty(st.lenlen, buf);
  }

  lemma CodesNotEmpty(ls: seq<CodeLen>, buf: seq<bool>)
    ensures var r := DecodeSym(ls, buf); r.Found? ==> r.code < |ls| && 0 < r.nbits <= |buf| && r.nbits <= 15
  {
  }

  lemma TreesLenRepFine(st: State, buf: seq<bool>)
    requires Good(st) && st.phase.TreesLenRep?
    ensures Fine(st, buf, TreesLenRepStep(st, buf))
  {
    hide Field, Reduced, Checksum, Complete, TreesReady;
  }

  lemma InBlkFine(st: State, buf: seq<bool>)
    requires Good(st) && st.phase.InBlk?
    ensures Fine(st, buf, InBlkStep(st, buf))
  {
    hide Reduced, Checksum, Complete, DecodeSym;
    CodesNotEmpty(st.litlen, buf);
    match DecodeSym(st.litlen, buf) {
      case NotEnough =>
      case Found(code, n) =>
        if code < 256 {
          ChecksumReduced(st.kind, Emit(st, code).output);
        }
    }
  }

  lemma GotLenSymFine(st: State, buf: seq<bool>)
    requires Good(st) && st.phase.GotLenSym?
    ensures Fine(st, buf, GotLenSymStep(st, buf))
  {
    hide Field, Reduced, Checksum, Complete;
  }

  lemma GotLenFine(st: State, buf: seq<bool>)
    requires Good(st) && st.phase.GotLen?
    ensures Fine(st, buf, GotLenStep(st, buf))
  {
    hide Reduced, Checksum, Complete, DecodeSym;
    match st.dist {
      case NoDist =>
      case SomeDist(ls) => CodesNotEmpty(ls, buf);
    }
  }

  lemma GotDistSymFine(st: State, buf: seq<bool>)
    requires Good(st) && st.phase.GotDistSym?
    ensures Fine(st, buf, GotDistSymStep(st, buf))
  {
    hide Field, Reduced, Checksum, Complete, CopyMatch;
    var r := GotDistSymStep(st, buf);
    if r.Next? {
      ChecksumReduced(st.kind, r.st.output);
    }
  }

  lemma UncompFine(st: State, buf: seq<bool>)
    requires Good(st) && (st.phase.UncompLen? || st.phase.UncompNLen? || st.phase.UncompData?)
    ensures Fine(st, buf, UncompStep(st, buf))
  {
    hide Field, Reduced, Checksum, Complete;
    var r := UncompStep(st, buf);
    if r.Next? {
      ChecksumReduced(st.kind, r.st.output);
    }
  }

  lemma TrailerFine(st: State, buf: seq<bool>)
    requires Good(st)
    ensures Fine(st, buf, TrailerStep(st, buf))
  {
    ChecksumReduced(st.kind, st.output);
    hide Good, Field, Reduced, Checksum, Complete, Word;
    var r := TrailerStep(st, buf);
    if r.Next? {
      PhaseOnly(st, r.st);
    }
  }

  lemma PhaseOnly(st: State, s: State)
    requires Good(st) && s == st.(phase := s.phase)
    requires s.phase.Adler2? || s.phase.Crc2? || s.phase.ILen1? || s.phase.ILen2? || s.phase.FinalSpin?
    ensures Good(s)
  {
    hide Reduced, Checksum, Complete;
  }

  /** Every step is fine. */
  lemma StepFine(st: State, buf: seq<bool>)
    requires Good(st)
    ensures Fine(st, buf, Step(st, buf))
  {
    hide Good, Fine;
    hide HeaderStep, OptionalStep, BlockHeaderStep, TreesHdrStep, TreesLenLenStep, TreesLenStep, TreesLenRepStep;
    hide InBlkStep, GotLenSymStep, GotLenStep, GotDistSymStep, UncompStep, TrailerStep;
    match st.phase {
      case ZlibStart => HeaderFine(st, buf);
      case GzipStart => HeaderFine(st, buf);
      case GzipMethFlags => HeaderFine(st, buf);
      case GzipIgnore1 => HeaderFine(st, buf);
      case GzipIgnore2 => HeaderFine(st, buf);
      case GzipIgnore3 => HeaderFine(st, buf);
      case GzipExtra => OptionalFine(st, buf);
      case GzipFName => OptionalFine(st, buf);
      case GzipComment => OptionalFine(st, buf);
      case OutsideBlk => BlockHeaderFine(st, buf);
      case TreesHdr => TreesHdrFine(st, buf);
      case TreesLenLen => TreesLenLenFine(st, buf);
      case TreesLen => TreesLenFine(st, buf);
      case TreesLenRep => TreesLenRepFine(st, buf);
      case InBlk => InBlkFine(st, buf);
      case GotLenSym => GotLenSymFine(st, buf);
      case GotLen => GotLenFine(st, buf);
      case GotDistSym => GotDistSymFine(st, buf);
      case UncompLen => UncompFine(st, buf);
      case UncompNLen => UncompFine(st, buf);
      case UncompData => UncompFine(st, buf);
      case End => EndFine(st, buf);
      case Adler1 => TrailerFine(st, buf);
      case Adler2 => TrailerFine(st, buf);
      case Crc1 => TrailerFine(st, buf);
      case Crc2 => TrailerFine(st, buf);
      case ILen1 => TrailerFine(st, buf);
      case ILen2 => TrailerFine(st, buf);
      case FinalSpin => EndFine(st, buf);
    }
  }

  lemma EndFine(st: State, buf: seq<bool>)
    requires Good(st)
    ensures st.phase.End? ==> Fine(st, buf, EndStep(st, buf))
    ensures st.phase.FinalSpin? ==> Fine(st, buf, if buf == [] then Stall else Next(st, 1))
  {
    hide Reduced, Checksum, Complete;
  }

  // ---- More input never changes a step already possible

  /** What a byte-aligned continuation x of the buffer may not change. */
  ghost predicate Stable(buf: seq<bool>, r: StepResult, r': StepResult) {
    r.Stall? || r' == r
  }

  lemma FieldStable(buf: seq<bool>, x: seq<bool>, n: nat)
    requires n <= |buf|
    ensures Field(buf + x, n) == Field(buf, n)
    ensures (buf + x)[n..] == buf[n..] + x
  {
    assert (buf + x)[..n] == buf[..n];
  }

  lemma DecodeStable(ls: seq<CodeLen>, buf: seq<bool>, x: seq<bool>)
    requires Complete(ls) && DecodeSym(ls, buf).Found?
    ensures DecodeSym(ls, buf + x) == DecodeSym(ls, buf)
  {
    hide CodeBits, Complete;
    var i := DecodeSym(ls, buf).code;
    assert IsCode(ls, i, buf + x);
    BaseFull(ls);
    PrefixFree(ls, i, DecodeSym(ls, buf + x).code, buf + x);
  }

  lemma BaseFull(ls: seq<CodeLen>)
    requires Complete(ls)
    ensures Base(ls, 16) <= Pow2(15)
  {
  }

  lemma TwoFieldsStable(buf: seq<bool>, x: seq<bool>)
    requires |buf| >= 16
    ensures Field(buf + x, 8) == Field(buf, 8) && Field((buf + x)[8..], 8) == Field(buf[8..], 8)
  {
    FieldStable(buf, x, 8);
    FieldStable(buf[8..], x, 8);
  }

  lemma HeaderStable(st: State, buf: seq<bool>, x: seq<bool>)
    ensures Stable(buf, HeaderStep(st, buf), HeaderStep(st, buf + x))
  {
    if |buf| >= 16 {
      TwoFieldsStable(buf, x);
    }
  }

  lemma OptionalStable(st: State, buf: seq<bool>, x: seq<bool>)
    ensures Stable(buf, OptionalStep(st, buf), OptionalStep(st, buf + x))
  {
    if |buf| >= 8 {
      FieldStable(buf, x, 8);
    }
    if |buf| >= 16 {
      FieldStable(buf, x, 16);
    }
  }

  lemma BlockHeaderStable(st: State, buf: seq<bool>, x: seq<bool>)
    requires |x| % 8 == 0
    ensures Stable(buf, BlockHeaderStep(st, buf), BlockHeaderStep(st, buf + x))
  {
    hide StaticLitLen, StaticDist, Field;
    if |buf| >= 3 {
      FieldStable(buf, x, 1);
      FieldStable(buf[1..], x, 2);
    }
  }

  lemma TreesHdrStable(st: State, buf: seq<bool>, x: seq<bool>)
    ensures Stable(buf, TreesHdrStep(st, buf), TreesHdrStep(st, buf + x))
  {
    if |buf| >= 14 {
      FieldStable(buf, x, 5);
      FieldStable(buf[5..], x, 5);
      FieldStable(buf, x, 10);
      FieldStable(buf[10..], x, 4);
    }
  }

  lemma TreesLenLenStable(st: State, buf: seq<bool>, x: seq<bool>)
    requires Good(st) && st.phase.TreesLenLen?
    ensures Stable(buf, TreesLenLenStep(st, buf), TreesLenLenStep(st, buf + x))
  {
    hide Complete, TableError;
    if |buf| >= 3 {
      FieldStable(buf, x, 3);
    }
  }

  lemma TreesLenStable(st: State, buf: seq<bool>, x: seq<bool>)
    requires Good(st) && st.phase.TreesLen?
    ensures Stable(buf, TreesLenStep(st, buf), TreesLenStep(st, buf + x))
  {
    hide Complete, TableError, DecodeSym, Reduced, Checksum;
    if DecodeSym(st.lenlen, buf).Found? {
      DecodeStable(st.lenlen, buf, x);
    }
  }

  lemma TreesLenRepStable(st: State, buf: seq<bool>, x: seq<bool>)
    requires Good(st) && st.phase.TreesLenRep?
    ensures Stable(buf, TreesLenRepStep(st, buf), TreesLenRepStep(st, buf + x))
  {
    if |buf| >= st.lenextrabits {
      FieldStable(buf, x, st.lenextrabits);
    }
  }

  lemma InBlkStable(st: State, buf: seq<bool>, x: seq<bool>)
    requires Good(st) && st.phase.InBlk?
    ensures Stable(buf, InBlkStep(st, buf), InBlkStep(st, buf + x))
  {
    hide Complete, DecodeSym, Reduced, Checksum;
    if DecodeSym(st.litlen, buf).Found? {
      DecodeStable(st.litlen, buf, x);
    }
  }

  lemma GotLenSymStable(st: State, buf: seq<bool>, x: seq<bool>)
    requires Good(st) && st.phase.GotLenSym?
    ensures Stable(buf, GotLenSymStep(st, buf), GotLenSymStep(st, buf + x))
  {
    var n := LENCODES[st.sym - 257].extrabits;
    if |buf| >= n {
      FieldStable(buf, x, n);
    }
  }

  lemma GotLenStable(st: State, buf: seq<bool>, x: seq<bool>)
    requires Good(st) && st.phase.GotLen?
    ensures Stable(buf, GotLenStep(st, buf), GotLenStep(st, buf + x))
  {
    hide Complete, DecodeSym, Reduced, Checksum;
    if st.dist.SomeDist? && DecodeSym(st.dist.lens, buf).Found? {
      DecodeStable(st.dist.lens, buf, x);
    }
  }

  lemma GotDistSymStable(st: State, buf: seq<bool>, x: seq<bool>)
    requires Good(st)
    ensures Stable(buf, GotDistSymStep(st, buf), GotDistSymStep(st, buf + x))
  {
    hide CopyMatch, DISTCODES, Complete, Reduced, Checksum, Field;
    if st.sym < |DISTCODES| {
      var n := DISTCODES[st.sym].extrabits;
      if |buf| >= n {
        FieldStable(buf, x, n);
      }
    }
  }

  lemma UncompStable(st: State, buf: seq<bool>, x: seq<bool>)
    ensures Stable(buf, UncompStep(st, buf), UncompStep(st, buf + x))
  {
    if |buf| >= 8 {
      FieldStable(buf, x, 8);
    }
    if |buf| >= 16 {
      FieldStable(buf, x, 16);
    }
  }

  lemma TrailerStable(st: State, buf: seq<bool>, x: seq<bool>)
    requires Good(st)
    ensures Stable(buf, TrailerStep(st, buf), TrailerStep(st, buf + x))
  {
    hide Checksum, Reduced, Word;
    if |buf| >= 16 {
      TwoFieldsStable(buf, x);
    }
  }

  lemma StepStable(st: State, buf: seq<bool>, x: seq<bool>)
    requires Good(st) && |x| % 8 == 0 && buf != []
    ensures Stable(buf, Step(st, buf), Step(st, buf + x))
  {
    hide Good, Stable;
    hide HeaderStep, OptionalStep, BlockHeaderStep, TreesHdrStep, TreesLenLenStep, TreesLenStep, TreesLenRepStep;
    hide InBlkStep, GotLenSymStep, GotLenStep, GotDistSymStep, UncompStep, TrailerStep;
    match st.phase {
      case ZlibStart => HeaderStable(st, buf, x);
      case GzipStart => HeaderStable(st, buf, x);
      case GzipMethFlags => HeaderStable(st, buf, x);
      case GzipIgnore1 => HeaderStable(st, buf, x);
      case GzipIgnore2 => HeaderStable(st, buf, x);
      case GzipIgnore3 => HeaderStable(st, buf, x);
      case GzipExtra => OptionalStable(st, buf, x);
      case GzipFName => OptionalStable(st, buf, x);
      case GzipComment => OptionalStable(st, buf, x);
      case OutsideBlk => BlockHeaderStable(st, buf, x);
      case TreesHdr => TreesHdrStable(st, buf, x);
      case TreesLenLen => TreesLenLenStable(st, buf, x);
      case TreesLen => TreesLenStable(st, buf, x);
      case TreesLenRep => TreesLenRepStable(st, buf, x);
      case InBlk => InBlkStable(st, buf, x);
      case GotLenSym => GotLenSymStable(st, buf, x);
      case GotLen => GotLenStable(st, buf, x);
      case GotDistSym => GotDistSymStable(st, buf, x);
      case UncompLen => UncompStable(st, buf, x);
      case UncompNLen => UncompStable(st, buf, x);
      case UncompData => UncompStable(st, buf, x);
      case End => EndStable(st, buf, x);
      case Adler1 => TrailerStable(st, buf, x);
      case Adler2 => TrailerStable(st, buf, x);
      case Crc1 => TrailerStable(st, buf, x);
      case Crc2 => TrailerStable(st, buf, x);
      case ILen1 => TrailerStable(st, buf, x);
      case ILen2 => TrailerStable(st, buf, x);
      case FinalSpin => EndStable(st, buf, x);
    }
  }

  lemma EndStable(st: State, buf: seq<bool>, x: seq<bool>)
    requires |x| % 8 == 0 && buf != []
    ensures Stable(buf, EndStep(st, buf), EndStep(st, buf + x))
    ensures Stable(buf, Next(st, 1), Next(st, 1))
  {
  }

  // ---- 24 buffered bits are enough for any step

  lemma DecodeEnough(ls: seq<CodeLen>, buf: seq<bool>)
    requires Complete(ls) && |buf| >= 15
    ensures DecodeSym(ls, buf).Found?
  {
    var i := EveryStringDecodes(ls, buf[..15]);
    hide CodeBits, Complete;
    assert IsCode(ls, i, buf);
  }

  lemma ExtraBitsSmall()
    ensures forall k :: 0 <= k < |LENCODES| ==> LENCODES[k].extrabits <= 13
    ensures forall k :: 0 <= k < |DISTCODES| ==> DISTCODES[k].extrabits <= 13
  {
    LenCodesTile();
    DistCodesTile();
    hide Pow2;
    assert forall k :: 0 <= k < |LENCODES| ==> RecordOk(LENCODES[k], 257, k);
    assert forall k :: 0 <= k < |DISTCODES| ==> RecordOk(DISTCODES[k], 0, k);
  }

  /** The steps that look up a symbol. */
  lemma EnoughToDecode(st: State, buf: seq<bool>)
    requires Good(st) && |buf| >= 24 && (st.phase.TreesLen? || st.phase.InBlk? || st.phase.GotLen?)
    ensures !Step(st, buf).Stall?
  {
    hide Reduced, Checksum, Complete, DecodeSym;
    if st.phase.TreesLen? {
      DecodeEnough(st.lenlen, buf);
    } else if st.phase.InBlk? {
      DecodeEnough(st.litlen, buf);
    } else if st.dist.SomeDist? {
      DecodeEnough(st.dist.lens, buf);
    }
  }

  /** The steps that read fields of at most 24 bits. */
  lemma EnoughForFields(st: State, buf: seq<bool>)
    requires Good(st) && |buf| >= 24 && !st.phase.TreesLen? && !st.phase.InBlk? && !st.phase.GotLen?
    ensures !Step(st, buf).Stall?
  {
    hide Reduced, Checksum, Complete, Field, CopyMatch, StaticLitLen, StaticDist, DecodeSym, TableError, Repeat;
    ExtraBitsSmall();
  }

  lemma EnoughBits(st: State, buf: seq<bool>)
    requires Good(st) && |buf| >= 24
    ensures !Step(st, buf).Stall?
  {
    hide Good, Step;
    if st.phase.TreesLen? || st.phase.InBlk? || st.phase.GotLen? {
      EnoughToDecode(st, buf);
    } else {
      EnoughForFields(st, buf);
    }
  }

  // ---- Whole runs

  /** Where a run stops: the state, the bits left over, and the error if any. */
  datatype Outcome = Outcome(st: State, rest: seq<bool>, err: Failure)
  datatype Failure = NoError | Bad(err: Error)

  /** Step until the buffer is empty, the bits do not suffice, or an error shows. */
  ghost function Run(st: State, buf: seq<bool>): (o: Outcome)
    requires Good(st)
    ensures Good(o.st) && |o.rest| <= |buf|
    decreases |buf|, Rank(st.phase)
  {
    if buf == [] then Outcome(st, buf, NoError) else
    match Step(st, buf)
    case Stall => Outcome(st, buf, NoError)
    case Fail(e) => Outcome(st, buf, Bad(e))
    case Next(s, n) =>
      StepFine(st, buf);
      Run(s, buf[n..])
  }

  /** One turn of a run. */
  lemma RunOnce(st: State, b: seq<bool>)
    requires Good(st) && b != []
    ensures var r := Step(st, b);
      && (r.Stall? ==> Run(st, b) == Outcome(st, b, NoError))
      && (r.Fail? ==> Run(st, b) == Outcome(st, b, Bad(r.err)))
      && (r.Next? ==>
            && Good(r.st) && r.used <= |b| && Run(st, b) == Run(r.st, b[r.used..])
            && (r.used > 0 || Rank(r.st.phase) < Rank(st.phase)))
  {
    hide Good, Step;
    StepFine(st, b);
  }

  /** Running on a and then on whatever it left over plus b is running on a + b. */
  lemma {:induction false} RunAppend(st: State, a: seq<bool>, b: seq<bool>)
    requires Good(st) && |b| % 8 == 0
    ensures var o := Run(st, a);
      o.err.NoError? ==> Run(st, a + b) == Run(o.st, o.rest + b)
    ensures var o := Run(st, a);
      o.err.Bad? ==> Run(st, a + b) == Outcome(o.st, o.rest + b, o.err)
    decreases |a|, Rank(st.phase)
  {
    hide Good, Step;
    if a == [] {
      assert a + b == b;
    } else {
      StepStable(st, a, b);
      StepFine(st, a);
      match Step(st, a) {
        case Stall =>
        case Fail(e) =>
        case Next(s, n) =>
          assert (a + b)[n..] == a[n..] + b;
          RunAppend(s, a[n..], b);
      }
    }
  }

  /** What feeding one piece of input to the decompressor does. */
  ghost function Feed(o: Outcome, piece: seq<byte>): (r: Outcome)
    requires Good(o.st)
    ensures Good(r.st)
  {
    if o.err.Bad? then o else Run(o.st, o.rest + BytesToBits(piece))
  }

  ghost function FeedAll(o: Outcome, pieces: seq<seq<byte>>): (r: Outcome)
    requires Good(o.st)
    ensures Good(r.st)
    decreases |pieces|
  {
    if pieces == [] then o else FeedAll(Feed(o, pieces[0]), pieces[1..])
  }

  function Concat(pieces: seq<seq<byte>>): seq<byte> {
    if pieces == [] then [] else pieces[0] + Concat(pieces[1..])
  }

  /** Same output and same error; after an error nothing else is promised. */
  ghost predicate SameResult(a: Outcome, b: Outcome) {
    && a.st == b.st && a.err == b.err && (a.err.NoError? ==> a.rest == b.rest)
  }

  lemma {:induction false} FeedAfterError(o: Outcome, pieces: seq<seq<byte>>)
    requires Good(o.st) && o.err.Bad?
    ensures FeedAll(o, pieces) == o
    decreases |pieces|
  {
    if pieces != [] {
      FeedAfterError(o, pieces[1..]);
    }
  }

  lemma FirstPiece(bits: seq<bool>, pieces: seq<seq<byte>>)
    requires pieces != []
    ensures (bits + BytesToBits(pieces[0])) + BytesToBits(Concat(pieces[1..])) == bits + BytesToBits(Concat(pieces))
    ensures pieces[1..] == [] ==> Concat(pieces) == pieces[0]
  {
    FirstConcat(pieces);
    hide *;
    BytesToBitsAppend(pieces[0], Concat(pieces[1..]));
    Assoc(bits, BytesToBits(pieces[0]), BytesToBits(Concat(pieces[1..])));
  }

  lemma FirstConcat(pieces: seq<seq<byte>>)
    requires pieces != []
    ensures Concat(pieces) == pieces[0] + Concat(pieces[1..]) && (pieces[1..] == [] ==> Concat(pieces) == pieces[0])
  {
  }

  lemma Assoc(a: seq<bool>, b: seq<bool>, c: seq<bool>)
    ensures (a + b) + c == a + (b + c)
  {
  }

  /** The decompressor does not care how its input is cut into pieces. */
  lemma {:induction false} ChunkingIrrelevant(o: Outcome, pieces: seq<seq<byte>>)
    requires Good(o.st) && o.err.NoError? && pieces != []
    ensures SameResult(FeedAll(o, pieces), Feed(o, Concat(pieces)))
    decreases |pieces|
  {
    hide Good, Run, BytesToBits, Step, Concat;
    var p, rest := pieces[0], pieces[1..];
    var bits := o.rest + BytesToBits(p);
    var mid := Feed(o, p);
    FirstPiece(o.rest, pieces);
    if rest != [] {
      RunAppend(o.st, bits, BytesToBits(Concat(rest)));
      if mid.err.NoError? {
        ChunkingIrrelevant(mid, rest);
      } else {
        FeedAfterError(mid, rest);
      }
    }
  }
}

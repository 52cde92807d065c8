/** deflate_decompress_data as written: a context updated in place, an integer
    bit buffer refilled to 24 bits, a circular window and nested tables. It
    does what the machine of module Inflate does. */
module Decompressor {
  import opened Bits
  import opened Canonical
  import opened DecodeTable
  import opened TableBuild
  import opened DeflateCodes
  import opened Checksums
  import opened Inflate

  datatype Progress = Went | Stuck | Failed(err: Error)

  /** The scalar fields of the context. */
  datatype Regs = Regs(
    phase: Phase, lastblock: bool, sym: nat, hlit: nat, hdist: nat, hclen: nat,
    lenextrabits: nat, lenaddon: nat, lenrep: CodeLen, len: nat, uncomplen: nat, gzflags: nat, gzextralen: nat)

  function RegsOf(st: State): Regs {
    Regs(st.phase, st.lastblock, st.sym, st.hlit, st.hdist, st.hclen,
         st.lenextrabits, st.lenaddon, st.lenrep, st.len, st.uncomplen, st.gzflags, st.gzextralen)
  }

  /** The tables of the context. */
  datatype Tables = Tables(staticlen: Table, staticdist: Table, lenlen: Table, curlen: Table, curdist: Table)

  ghost predicate TablesMatch(t: Tables, st: State) {
    && Decodes(t.staticlen, StaticLitLen(), []) && Decodes(t.staticdist, StaticDist(), [])
    && t.staticlen.Table? && t.staticdist.Table?
    && (st.phase.TreesLen? || st.phase.TreesLenRep? ==> Decodes(t.lenlen, st.lenlen, []))
    && (st.phase.InBlk? || st.phase.GotLenSym? || st.phase.GotLen? || st.phase.GotDistSym? ==>
          && Decodes(t.curlen, st.litlen, [])
          && (st.dist.SomeDist? <==> t.curdist.Table?)
          && (st.dist.SomeDist? ==> Decodes(t.curdist, st.dist.lens, [])))
  }

  /** The code lengths read so far. */
  ghost predicate LengthsMatch(lenlen: seq<CodeLen>, lengths: seq<CodeLen>, lenptr: nat, st: State) {
    && |lenlen| == 19 && |lengths| == 320
    && (st.phase.TreesLenLen? ==> lenptr == st.lenptr && lenlen == st.lenlen)
    && (st.phase.TreesLen? || st.phase.TreesLenRep? ==> lenptr == |st.lengths| <= 320 && lengths[..lenptr] == st.lengths)
  }

  /** The window, the checksum and this call's output. */
  ghost predicate OutputMatches(window: seq<byte>, winpos: nat, checksum: Sum, bytesout: nat, outblk: seq<byte>,
                                returned: nat, st: State) {
    && WindowHolds(window, winpos, st.before + st.output)
    && checksum == Checksum(st.kind, st.output) && bytesout == |st.output|
    && returned <= |st.output| && outblk == st.output[returned..]
  }

  // ---- Steps that do not touch a component keep it matching

  predicate Idle(p: Phase) {
    !(p.TreesLenLen? || p.TreesLen? || p.TreesLenRep? || p.InBlk? || p.GotLenSym? || p.GotLen? || p.GotDistSym?)
  }

  lemma KeepTables(t: Tables, st: State, s: State)
    requires TablesMatch(t, st)
    requires Idle(s.phase) || s.phase.TreesLenLen?
    ensures TablesMatch(t, s)
  {
  }

  lemma KeepBlockTables(t: Tables, st: State, s: State)
    requires TablesMatch(t, st) && s.litlen == st.litlen && s.dist == st.dist && s.lenlen == st.lenlen
    requires st.phase.InBlk? || st.phase.GotLenSym? || st.phase.GotLen? || st.phase.GotDistSym?
    requires !s.phase.TreesLen? && !s.phase.TreesLenRep?
    ensures TablesMatch(t, s)
  {
  }

  lemma KeepLengths(lenlen: seq<CodeLen>, lengths: seq<CodeLen>, lenptr: nat, st: State, s: State)
    requires LengthsMatch(lenlen, lengths, lenptr, st)
    requires !s.phase.TreesLenLen? && !s.phase.TreesLen? && !s.phase.TreesLenRep?
    ensures LengthsMatch(lenlen, lengths, lenptr, s)
  {
  }

  lemma KeepOutput(window: seq<byte>, winpos: nat, checksum: Sum, bytesout: nat, outblk: seq<byte>, returned: nat,
                   st: State, s: State)
    requires OutputMatches(window, winpos, checksum, bytesout, outblk, returned, st)
    requires s.kind == st.kind && s.before == st.before && s.output == st.output
    ensures OutputMatches(window, winpos, checksum, bytesout, outblk, returned, s)
  {
  }

  class DecompressContext {
    const kind: Kind
    var regs: Regs
    var tables: Tables
    var lenptr: nat
    var bits: nat
    var nbits: nat
    const lenlen: array<CodeLen>
    const lengths: array<CodeLen>
    const window: array<byte>
    var winpos: nat
    var outblk: seq<byte>
    var checksum: Sum
    var bytesout: nat

    // The machine's state and buffer, and how much output earlier calls returned.
    ghost var st: State
    ghost var buf: seq<bool>
    ghost var returned: nat

    ghost predicate BitsMatch()
      reads this
    {
      nbits == |buf| && bits == Val(buf)
    }

    ghost predicate Valid()
      reads this, lenlen, lengths, window
    {
      && Good(st) && regs == RegsOf(st) && kind == st.kind && BitsMatch()
      && TablesMatch(tables, st)
      && LengthsMatch(lenlen[..], lengths[..], lenptr, st)
      && OutputMatches(window[..], winpos, checksum, bytesout, outblk, returned, st)
      && lenlen != lengths && window as object != lenlen && window as object != lengths
    }

    /** deflate_decompress_new. */
    constructor (k: Kind)
      ensures Valid() && fresh(lenlen) && fresh(lengths) && fresh(window)
      ensures kind == k && buf == [] && returned == 0
      ensures exists w: seq<byte> :: |w| == DWINSIZE && st == StartState(k, w)
    {
      hide Complete, Decodes, StaticLitLen, StaticDist, Checksum, Good, WindowHolds, Initial;
      kind := k;
      var sl, sd := StaticTables();
      tables := Tables(sl, sd, NoTable, NoTable, NoTable);
      lenlen := new CodeLen[19];
      lengths := new CodeLen[320];
      var w := new byte[DWINSIZE];
      window := w;
      regs := RegsOf(StartState(k, w[..]));
      lenptr := 0;
      bits, nbits, winpos := 0, 0, 0;
      outblk := [];
      checksum := Initial(k);
      bytesout := 0;
      st := StartState(k, w[..]);
      buf := [];
      returned := 0;
      StartMatches(k, w[..]);
      new;
    }

    /** EATBITS. */
    method Eat(n: nat)
      requires BitsMatch() && n <= nbits
      modifies this`bits, this`nbits, this`buf
      ensures BitsMatch() && buf == old(buf)[n..]
    {
      hide Val, Pow2;
      ValSplit(buf, n);
      nbits := nbits - n;
      bits := bits / Pow2(n);
      buf := buf[n..];
    }

    /** The bits tested by a mask of n ones. */
    function Peek(n: nat): (v: nat)
      requires n <= nbits && BitsMatch()
      reads this
      ensures v == Field(buf, n)
    {
      ValSplit(buf, n);
      bits % Pow2(n)
    }

    /** What a step must do: exactly what the machine does, and nothing else. */
    ghost predicate Did(r: Progress, step: StepResult, st0: State, buf0: seq<bool>)
      reads this, lenlen, lengths, window
    {
      match step
      case Stall => r.Stuck? && Valid() && st == st0 && buf == buf0
      case Fail(e) => r == Failed(e) && st == st0
      case Next(s, n) => r.Went? && Valid() && st == s && n <= |buf0| && buf == buf0[n..]
    }

    /** Bookkeeping for a step that leaves tables, lengths and output alone. */
    ghost method Commit(s: State)
      requires TablesMatch(tables, st) && LengthsMatch(lenlen[..], lengths[..], lenptr, st)
      requires OutputMatches(window[..], winpos, checksum, bytesout, outblk, returned, st)
      requires Idle(s.phase) && s.kind == st.kind && s.before == st.before && s.output == st.output
      modifies this`st
      ensures st == s
      ensures TablesMatch(tables, st) && LengthsMatch(lenlen[..], lengths[..], lenptr, st)
      ensures OutputMatches(window[..], winpos, checksum, bytesout, outblk, returned, st)
    {
      KeepTables(tables, st, s);
      KeepLengths(lenlen[..], lengths[..], lenptr, st, s);
      KeepOutput(window[..], winpos, checksum, bytesout, outblk, returned, st, s);
      st := s;
    }

    /** ZLIBSTART. */
    method ZlibStartPhase() returns (r: Progress)
      requires Valid() && regs.phase.ZlibStart?
      modifies this`regs, this`bits, this`nbits, this`buf, this`st
      ensures Did(r, HeaderStep(old(st), old(buf)), old(st), old(buf))
    {
      hide Good, TablesMatch, LengthsMatch, OutputMatches, Checksum, Reduced, TreesReady, Complete, Field, Pow2, Val;
      HeaderFine(st, buf);
      ghost var step := HeaderStep(st, buf);
      if nbits < 16 {
        return Stuck;
      }
      var lo := Peek(8);
      Eat(8);
      var hi := Peek(8);
      Eat(8);
      var header := hi + 256 * lo;
      if header / 0x1000 % 16 > 7 || header / 0x20 % 2 != 0 || header % 31 != 0 {
        return Failed(ZlibHeader);
      }
      if header / 0x100 % 16 != 8 {
        return Failed(ZlibWrongComp);
      }
      regs := regs.(phase := OutsideBlk);
      Commit(step.st);
      r := Went;
    }

    /** GZIPSTART and GZIPMETHFLAGS. */
    method GzipStartPhase() returns (r: Progress)
      requires Valid() && (regs.phase.GzipStart? || regs.phase.GzipMethFlags?)
      modifies this`regs, this`bits, this`nbits, this`buf, this`st
      ensures Did(r, HeaderStep(old(st), old(buf)), old(st), old(buf))
    {
      hide Good, TablesMatch, LengthsMatch, OutputMatches, Checksum, Reduced, TreesReady, Complete, Field, Pow2, Val;
      HeaderFine(st, buf);
      ghost var step := HeaderStep(st, buf);
      if nbits < 16 {
        return Stuck;
      }
      var lo := Peek(8);
      Eat(8);
      var hi := Peek(8);
      if regs.phase.GzipStart? {
        Eat(8);
        if lo + 256 * hi != 0x8B1F {
          return Failed(GzipHeader);
        }
        regs := regs.(phase := GzipMethFlags);
      } else {
        if lo != 8 {
          return Failed(GzipWrongComp);
        }
        regs := regs.(gzflags := hi);
        if regs.gzflags / 2 % 2 == 1 {
          return Failed(GzipFhcrc);
        }
        Eat(8);
        regs := regs.(phase := GzipIgnore1);
      }
      Commit(step.st);
      r := Went;
    }

    /** GZIPIGNORE1, GZIPIGNORE2 and GZIPIGNORE3. */
    method GzipIgnorePhase() returns (r: Progress)
      requires Valid() && (regs.phase.GzipIgnore1? || regs.phase.GzipIgnore2? || regs.phase.GzipIgnore3?)
      modifies this`regs, this`bits, this`nbits, this`buf, this`st
      ensures Did(r, HeaderStep(old(st), old(buf)), old(st), old(buf))
    {
      hide Good, TablesMatch, LengthsMatch, OutputMatches, Checksum, Reduced, TreesReady, Complete, Field, Pow2, Val;
      HeaderFine(st, buf);
      ghost var step := HeaderStep(st, buf);
      if nbits < 16 {
        return Stuck;
      }
      Eat(16);
      if regs.phase.GzipIgnore3? {
        regs := regs.(phase := GzipExtra);
      } else {
        regs := regs.(phase := if regs.phase.GzipIgnore1? then GzipIgnore2 else GzipIgnore3);
      }
      Commit(step.st);
      r := Went;
    }

    /** GZIPEXTRA. */
    method GzipExtraPhase() returns (r: Progress)
      requires Valid() && regs.phase.GzipExtra?
      modifies this`regs, this`bits, this`nbits, this`buf, this`st
      ensures Did(r, OptionalStep(old(st), old(buf)), old(st), old(buf))
    {
      hide Good, TablesMatch, LengthsMatch, OutputMatches, Checksum, Reduced, TreesReady, Complete, Field, Pow2, Val;
      OptionalFine(st, buf);
      ghost var step := OptionalStep(st, buf);
      var done := true;
      if regs.gzflags / 4 % 2 != 0 {
        if regs.gzextralen == 0 {
          if nbits < 16 {
            return Stuck;
          }
          regs := regs.(gzextralen := Peek(16));
          Eat(16);
          done := false;
        } else {
          if nbits < 8 {
            return Stuck;
          }
          Eat(8);
          regs := regs.(gzextralen := regs.gzextralen - 1);
          done := regs.gzextralen == 0;
        }
      }
      if done {
        regs := regs.(phase := GzipFName);
      }
      Commit(step.st);
      r := Went;
    }

    /** GZIPFNAME and GZIPCOMMENT: a NUL-terminated string, if flagged. */
    method GzipStringPhase() returns (r: Progress)
      requires Valid() && (regs.phase.GzipFName? || regs.phase.GzipComment?)
      modifies this`regs, this`bits, this`nbits, this`buf, this`st
      ensures Did(r, OptionalStep(old(st), old(buf)), old(st), old(buf))
    {
      hide Good, TablesMatch, LengthsMatch, OutputMatches, Checksum, Reduced, TreesReady, Complete, Field, Pow2, Val;
      OptionalFine(st, buf);
      ghost var step := OptionalStep(st, buf);
      var code := 0;
      if (if regs.phase.GzipFName? then regs.gzflags / 8 else regs.gzflags / 16) % 2 != 0 {
        if nbits < 8 {
          return Stuck;
        }
        code := Peek(8);
        Eat(8);
      }
      if code == 0 {
        regs := regs.(phase := if regs.phase.GzipFName? then GzipComment else OutsideBlk);
      }
      Commit(step.st);
      r := Went;
    }

    /** A static block begins. */
    method UseStaticTables(ghost s: State)
      requires TablesMatch(tables, st) && LengthsMatch(lenlen[..], lengths[..], lenptr, st)
      requires OutputMatches(window[..], winpos, checksum, bytesout, outblk, returned, st)
      requires s.phase.InBlk? && s.litlen == StaticLitLen() && s.dist == SomeDist(StaticDist())
      requires s.kind == st.kind && s.before == st.before && s.output == st.output
      modifies this`tables, this`regs, this`st
      ensures st == s && regs == old(regs).(phase := InBlk)
      ensures TablesMatch(tables, st) && LengthsMatch(lenlen[..], lengths[..], lenptr, st)
      ensures OutputMatches(window[..], winpos, checksum, bytesout, outblk, returned, st)
    {
      hide TablesMatch, LengthsMatch, OutputMatches, StaticLitLen, StaticDist;
      StaticTablesMatch(tables, st, s);
      tables := tables.(curlen := tables.staticlen, curdist := tables.staticdist);
      regs := regs.(phase := InBlk);
      CommitWith(s);
    }

    /** A call of huflookup on the context's bit buffer. */
    method NextSymbol(t: Table, ghost ls: seq<CodeLen>) returns (code: int)
      requires BitsMatch() && WellFormed(t) && LookupIn(t, buf) == DecodeSym(ls, buf)
      modifies this`bits, this`nbits, this`buf
      ensures BitsMatch()
      ensures var r := DecodeSym(ls, old(buf));
        && (r.NotEnough? ==> code == -1 && buf == old(buf))
        && (r.Found? ==> code == r.code && r.nbits <= |old(buf)| && buf == old(buf)[r.nbits..])
    {
      hide WellFormed, DecodeSym, Val;
      var b, n;
      code, b, n := HufLookup(bits, nbits, t, buf);
      buf := buf[nbits - n..];
      bits, nbits := b, n;
    }

    /** OUTSIDEBLK. */
    method BlockHeaderPhase() returns (r: Progress)
      requires Valid() && regs.phase.OutsideBlk?
      modifies this`regs, this`bits, this`nbits, this`buf, this`st, this`tables
      ensures Did(r, BlockHeaderStep(old(st), old(buf)), old(st), old(buf))
    {
      hide Good, TablesMatch, LengthsMatch, OutputMatches, Checksum, Reduced, Complete, Field, StaticLitLen, StaticDist, Val;
      ReadyForBlock(st, buf);
      ghost var step := BlockHeaderStep(st, buf);
      if nbits < 3 {
        return Stuck;
      }
      var bfinal := Peek(1);
      OneBit(buf);
      if bfinal == 1 {
        regs := regs.(lastblock := true);
      }
      Eat(1);
      var btype := Peek(2);
      Eat(2);
      OpenBlock(btype, step.st);
      r := Went;
    }

    /** What the block type says comes next. Type 3 is silently ignored. */
    method OpenBlock(btype: nat, ghost s: State)
      requires BitsMatch() && TablesMatch(tables, st) && LengthsMatch(lenlen[..], lengths[..], lenptr, st)
      requires OutputMatches(window[..], winpos, checksum, bytesout, outblk, returned, st)
      requires st.phase.OutsideBlk? && s.kind == st.kind && s.before == st.before && s.output == st.output
      requires s.phase == if btype == 0 then UncompLen else if btype == 1 then InBlk else if btype == 2 then TreesHdr else OutsideBlk
      requires btype == 1 ==> s.litlen == StaticLitLen() && s.dist == SomeDist(StaticDist())
      requires regs.phase.OutsideBlk?
      modifies this`tables, this`regs, this`st, this`bits, this`nbits, this`buf
      ensures st == s && regs == old(regs).(phase := s.phase)
      ensures BitsMatch() && buf == if btype == 0 then old(buf)[|old(buf)| % 8..] else old(buf)
      ensures TablesMatch(tables, st) && LengthsMatch(lenlen[..], lengths[..], lenptr, st)
      ensures OutputMatches(window[..], winpos, checksum, bytesout, outblk, returned, st)
    {
      hide TablesMatch, LengthsMatch, OutputMatches, StaticLitLen, StaticDist, Val;
      if btype == 1 {
        UseStaticTables(s);
      } else {
        if btype == 0 {
          var toEat := nbits % 8;
          regs := regs.(phase := UncompLen);
          Eat(toEat);
        } else if btype == 2 {
          regs := regs.(phase := TreesHdr);
        }
        Commit(s);
      }
    }

    /** TREES_HDR. */
    method TreesHdrPhase() returns (r: Progress)
      requires Valid() && regs.phase.TreesHdr?
      modifies this`regs, this`bits, this`nbits, this`buf, this`st, this`lenptr, lenlen
      ensures Did(r, TreesHdrStep(old(st), old(buf)), old(st), old(buf))
    {
      hide Good, TablesMatch, OutputMatches, Checksum, Reduced, TreesReady, Complete, Field, Pow2, Val;
      TreesHdrFine(st, buf);
      ghost var step := TreesHdrStep(st, buf);
      if nbits < 5 + 5 + 4 {
        return Stuck;
      }
      var hlit := 257 + Peek(5);
      Eat(5);
      var hdist := 1 + Peek(5);
      Eat(5);
      var hclen := 4 + Peek(4);
      Eat(4);
      regs := regs.(hlit := hlit, hdist := hdist, hclen := hclen, phase := TreesLenLen);
      lenptr := 0;
      ClearLengths(lenlen);
      KeepTables(tables, st, step.st);
      KeepOutput(window[..], winpos, checksum, bytesout, outblk, returned, st, step.st);
      st := step.st;
      r := Went;
    }

    /** END: align, then go on to the container's trailer. */
    method EndPhase() returns (r: Progress)
      requires Valid() && regs.phase.End?
      modifies this`regs, this`bits, this`nbits, this`buf, this`st
      ensures Did(r, EndStep(old(st), old(buf)), old(st), old(buf))
    {
      hide Good, TablesMatch, LengthsMatch, OutputMatches, Checksum, Reduced, TreesReady, Complete, Field, Pow2, Val;
      EndFine(st, buf);
      ghost var step := EndStep(st, buf);
      Eat(nbits % 8);
      regs := regs.(phase := if kind.Zlib? then Adler1 else if kind.Gzip? then Crc1 else FinalSpin);
      Commit(step.st);
      r := Went;
    }

    /** GOTLENSYM. */
    method GotLenSymPhase() returns (r: Progress)
      requires Valid() && regs.phase.GotLenSym?
      modifies this`regs, this`bits, this`nbits, this`buf, this`st
      ensures Did(r, GotLenSymStep(old(st), old(buf)), old(st), old(buf))
    {
      hide TablesMatch, LengthsMatch, OutputMatches, Checksum, Reduced, Complete, Field;
      GotLenSymFine(st, buf);
      ghost var step := GotLenSymStep(st, buf);
      var rec := LENCODES[regs.sym - 257];
      if nbits < rec.extrabits {
        return Stuck;
      }
      regs := regs.(len := rec.min + Peek(rec.extrabits), phase := GotLen);
      Eat(rec.extrabits);
      CommitBlock(step.st);
      r := Went;
    }

    /** Bookkeeping for a step after which the tables are known to match. */
    ghost method CommitWith(s: State)
      requires TablesMatch(tables, s) && LengthsMatch(lenlen[..], lengths[..], lenptr, st)
      requires OutputMatches(window[..], winpos, checksum, bytesout, outblk, returned, st)
      requires !s.phase.TreesLen? && !s.phase.TreesLenRep? && !s.phase.TreesLenLen?
      requires s.kind == st.kind && s.before == st.before && s.output == st.output
      modifies this`st
      ensures st == s
      ensures TablesMatch(tables, st) && LengthsMatch(lenlen[..], lengths[..], lenptr, st)
      ensures OutputMatches(window[..], winpos, checksum, bytesout, outblk, returned, st)
    {
      KeepLengths(lenlen[..], lengths[..], lenptr, st, s);
      KeepOutput(window[..], winpos, checksum, bytesout, outblk, returned, st, s);
      st := s;
    }

    /** Bookkeeping for a step inside a block that only changes registers. */
    ghost method CommitBlock(s: State)
      requires TablesMatch(tables, st) && LengthsMatch(lenlen[..], lengths[..], lenptr, st)
      requires OutputMatches(window[..], winpos, checksum, bytesout, outblk, returned, st)
      requires st.phase.InBlk? || st.phase.GotLenSym? || st.phase.GotLen? || st.phase.GotDistSym?
      requires !s.phase.TreesLen? && !s.phase.TreesLenRep? && !s.phase.TreesLenLen?
      requires s.litlen == st.litlen && s.dist == st.dist && s.lenlen == st.lenlen
      requires s.kind == st.kind && s.before == st.before && s.output == st.output
      modifies this`st
      ensures st == s
      ensures TablesMatch(tables, st) && LengthsMatch(lenlen[..], lengths[..], lenptr, st)
      ensures OutputMatches(window[..], winpos, checksum, bytesout, outblk, returned, st)
    {
      KeepBlockTables(tables, st, s);
      KeepLengths(lenlen[..], lengths[..], lenptr, st, s);
      KeepOutput(window[..], winpos, checksum, bytesout, outblk, returned, st, s);
      st := s;
    }

    /** emit_char. */
    method EmitChar(c: byte)
      requires OutputMatches(window[..], winpos, checksum, bytesout, outblk, returned, st) && kind == st.kind
      requires Reduced(checksum)
      modifies this`winpos, this`outblk, this`checksum, this`bytesout, this`st, window
      ensures st == Emit(old(st), c) && Reduced(checksum)
      ensures OutputMatches(window[..], winpos, checksum, bytesout, outblk, returned, st)
    {
      hide OutputMatches, Checksum, Updated, UpdateByte, Reduced, WindowHolds;
      OutputStep(window[..], winpos, checksum, bytesout, outblk, returned, st, c);
      window[winpos] := c;
      winpos := (winpos + 1) % DWINSIZE;
      if kind.Zlib? {
        checksum := Adler32Update(checksum, [c]);
      } else if kind.Gzip? {
        checksum := Crc32Update(checksum, [c]);
      }
      outblk := outblk + [c];
      bytesout := bytesout + 1;
      st := Emit(st, c);
    }

    /** emit_char inside a compressed block. */
    method EmitInBlock(c: byte)
      requires TablesMatch(tables, st) && LengthsMatch(lenlen[..], lengths[..], lenptr, st)
      requires OutputMatches(window[..], winpos, checksum, bytesout, outblk, returned, st) && kind == st.kind
      requires st.phase.InBlk? || st.phase.GotDistSym?
      requires window as object != lenlen && window as object != lengths
      modifies this`winpos, this`outblk, this`checksum, this`bytesout, this`st, window
      ensures st == Emit(old(st), c)
      ensures TablesMatch(tables, st) && LengthsMatch(lenlen[..], lengths[..], lenptr, st)
      ensures OutputMatches(window[..], winpos, checksum, bytesout, outblk, returned, st)
    {
      hide TablesMatch, LengthsMatch, OutputMatches;
      SumReduced(window[..], winpos, checksum, bytesout, outblk, returned, st);
      ghost var st0 := st;
      EmitChar(c);
      KeepBlockTables(tables, st0, st);
      KeepLengths(lenlen[..], lengths[..], lenptr, st0, st);
    }

    /** INBLK. */
    method InBlkPhase() returns (r: Progress)
      requires Valid() && regs.phase.InBlk?
      modifies this, window
      ensures returned == old(returned) && (r.Failed? ==> outblk == old(outblk))
      ensures Did(r, InBlkStep(old(st), old(buf)), old(st), old(buf))
    {
      hide TablesMatch, LengthsMatch, OutputMatches, Checksum, Complete, DecodeSym, Decodes, WellFormed;
      InBlkFine(st, buf);
      hide Good;
      ghost var step := InBlkStep(st, buf);
      CurlenDecodes(tables, st, buf);
      var code := NextSymbol(tables.curlen, st.litlen);
      if code == -1 {
        return Stuck;
      }
      if code < 256 {
        EmitInBlock(code);
      } else {
        if code == 256 {
          regs := regs.(phase := if regs.lastblock then End else OutsideBlk);
        } else if code < 286 {
          regs := regs.(phase := GotLenSym, sym := code);
        }
        CommitBlock(step.st);
      }
      r := Went;
    }

    /** GOTLEN. */
    method GotLenPhase() returns (r: Progress)
      requires Valid() && regs.phase.GotLen?
      modifies this`regs, this`bits, this`nbits, this`buf, this`st
      ensures Did(r, GotLenStep(old(st), old(buf)), old(st), old(buf))
    {
      hide TablesMatch, LengthsMatch, OutputMatches, Checksum, Complete, DecodeSym, Decodes, WellFormed;
      GotLenFine(st, buf);
      ghost var step := GotLenStep(st, buf);
      CurdistDecodes(tables, st, buf);
      hide Good;
      if tables.curdist.NoTable? {
        return Failed(NoDistTable);
      }
      var code := NextSymbol(tables.curdist, st.dist.lens);
      if code == -1 {
        return Stuck;
      }
      regs := regs.(phase := GotDistSym, sym := code);
      CommitBlock(step.st);
      r := Went;
    }

    /** UNCOMP_LEN and UNCOMP_NLEN. */
    method UncompHeaderPhase() returns (r: Progress)
      requires Valid() && (regs.phase.UncompLen? || regs.phase.UncompNLen?)
      modifies this`regs, this`bits, this`nbits, this`buf, this`st
      ensures Did(r, UncompStep(old(st), old(buf)), old(st), old(buf))
    {
      hide Good, TablesMatch, LengthsMatch, OutputMatches, Checksum, Reduced, TreesReady, Complete, Field, Pow2, Val;
      UncompFine(st, buf);
      ghost var step := UncompStep(st, buf);
      if nbits < 16 {
        return Stuck;
      }
      var v := Peek(16);
      Eat(16);
      if regs.phase.UncompLen? {
        regs := regs.(uncomplen := v, phase := UncompNLen);
      } else {
        if regs.uncomplen + v != 0xFFFF {
          return Failed(UncompHdr);
        }
        regs := regs.(phase := if regs.uncomplen != 0 then UncompData else if regs.lastblock then End else OutsideBlk);
      }
      Commit(step.st);
      r := Went;
    }

    /** UNCOMP_DATA. */
    method UncompDataPhase() returns (r: Progress)
      requires Valid() && regs.phase.UncompData?
      modifies this, window
      ensures returned == old(returned) && (r.Failed? ==> outblk == old(outblk))
      ensures Did(r, UncompStep(old(st), old(buf)), old(st), old(buf))
    {
      hide TablesMatch, LengthsMatch, OutputMatches, Checksum, Reduced, TreesReady, Complete, Val, Pow2;
      UncompFine(st, buf);
      hide Good;
      ghost var step := UncompStep(st, buf);
      if nbits < 8 {
        return Stuck;
      }
      Powers();
      ghost var st0 := st;
      SumReduced(window[..], winpos, checksum, bytesout, outblk, returned, st);
      EmitChar(Peek(8));
      KeepTables(tables, st0, st);
      KeepLengths(lenlen[..], lengths[..], lenptr, st0, st);
      Eat(8);
      regs := regs.(uncomplen := regs.uncomplen - 1);
      if regs.uncomplen == 0 {
        regs := regs.(phase := if regs.lastblock then End else OutsideBlk);
      }
      Commit(step.st);
      r := Went;
    }

    /** ADLER1 and ADLER2: big-endian halves. */
    method AdlerPhase() returns (r: Progress)
      requires Valid() && (regs.phase.Adler1? || regs.phase.Adler2?)
      modifies this`regs, this`bits, this`nbits, this`buf, this`st
      ensures Did(r, TrailerStep(old(st), old(buf)), old(st), old(buf))
    {
      hide TablesMatch, LengthsMatch, OutputMatches, Checksum, TreesReady, Complete, Field, Word, Reduced, Pow2, Val;
      TrailerFine(st, buf);
      ghost var step := TrailerStep(st, buf);
      if nbits < 16 {
        return Stuck;
      }
      var due := DueHalf();
      hide Good;
      var hi := Peek(8);
      Eat(8);
      var lo := Peek(8);
      Eat(8);
      if lo + 256 * hi != due {
        return Failed(BadChecksum);
      }
      regs := regs.(phase := if regs.phase.Adler1? then Adler2 else FinalSpin);
      Commit(step.st);
      r := Went;
    }

    /** CRC1, CRC2, ILEN1 and ILEN2: little-endian halves. */
    method GzipTrailerPhase() returns (r: Progress)
      requires Valid() && regs.phase in {Crc1, Crc2, ILen1, ILen2}
      modifies this`regs, this`bits, this`nbits, this`buf, this`st
      ensures Did(r, TrailerStep(old(st), old(buf)), old(st), old(buf))
    {
      hide TablesMatch, LengthsMatch, OutputMatches, Checksum, TreesReady, Complete, Field, Word, Reduced, Pow2, Val;
      TrailerFine(st, buf);
      ghost var step := TrailerStep(st, buf);
      if nbits < 16 {
        return Stuck;
      }
      var due := DueHalf();
      hide Good;
      var lo := Peek(8);
      Eat(8);
      var hi := Peek(8);
      Eat(8);
      var crc := regs.phase.Crc1? || regs.phase.Crc2?;
      if lo + 256 * hi != due {
        return Failed(if crc then BadChecksum else BadInLen);
      }
      regs := regs.(phase := if regs.phase.Crc1? then Crc2 else if crc then ILen1
                             else if regs.phase.ILen1? then ILen2 else FinalSpin);
      Commit(step.st);
      r := Went;
    }

    /** The 16 bits of checksum or length due in the present phase. */
    method DueHalf() returns (v: nat)
      requires Valid() && regs.phase in {Adler1, Adler2, Crc1, Crc2, ILen1, ILen2}
      ensures v ==
        if regs.phase.Adler1? || regs.phase.Crc2? then Word(Checksum(st.kind, st.output)) / TWO16 % TWO16
        else if regs.phase.Adler2? || regs.phase.Crc1? then Word(Checksum(st.kind, st.output)) % TWO16
        else if regs.phase.ILen1? then |st.output| % TWO16
        else |st.output| / TWO16 % TWO16
    {
      hide Checksum, Reduced, Complete, TreesReady, TablesMatch, LengthsMatch;
      if regs.phase.Adler1? || regs.phase.Crc2? {
        v := Word(checksum) / TWO16 % TWO16;
      } else if regs.phase.Adler2? || regs.phase.Crc1? {
        v := Word(checksum) % TWO16;
      } else if regs.phase.ILen1? {
        v := bytesout % TWO16;
      } else {
        v := bytesout / TWO16 % TWO16;
      }
    }

    /** GOTDISTSYM: the copy reads each byte out of the window it writes to. */
    method GotDistSymPhase() returns (r: Progress)
      requires Valid() && regs.phase.GotDistSym?
      modifies this, window
      ensures returned == old(returned) && (r.Failed? ==> outblk == old(outblk))
      ensures Did(r, GotDistSymStep(old(st), old(buf)), old(st), old(buf))
    {
      hide TablesMatch, LengthsMatch, OutputMatches, Checksum, Complete, Field, CopyMatch, Reduced, TreesReady, Pow2, Val;
      GotDistSymFine(st, buf);
      ghost var step := GotDistSymStep(st, buf);
      GoodBefore(st);
      hide Good;
      if regs.sym >= |DISTCODES| {
        return Failed(BeyondTables);
      }
      var rec := DISTCODES[regs.sym];
      if nbits < rec.extrabits {
        return Stuck;
      }
      var dist := rec.min + Peek(rec.extrabits);
      if dist > DWINSIZE {
        return Failed(BeyondTables);
      }
      assert dist >= 1 by { DistAtLeastOne(regs.sym); }
      Eat(rec.extrabits);
      CopyLoop(dist);
      regs := regs.(phase := InBlk, len := 0);
      CommitBlock(step.st);
      r := Went;
    }

    method CopyLoop(dist: nat)
      requires TablesMatch(tables, st) && LengthsMatch(lenlen[..], lengths[..], lenptr, st)
      requires OutputMatches(window[..], winpos, checksum, bytesout, outblk, returned, st)
      requires regs == RegsOf(st) && kind == st.kind && |st.before| == DWINSIZE && st.phase.GotDistSym?
      requires window as object != lenlen && window as object != lengths && 1 <= dist <= DWINSIZE
      modifies this`winpos, this`outblk, this`checksum, this`bytesout, this`st, window
      ensures TablesMatch(tables, st) && LengthsMatch(lenlen[..], lengths[..], lenptr, st)
      ensures OutputMatches(window[..], winpos, checksum, bytesout, outblk, returned, st)
      ensures |old(st).before| == DWINSIZE && st == CopyMatch(old(st), dist, old(regs).len)
    {
      hide TablesMatch, LengthsMatch, OutputMatches, CopyMatch, RegsOf;
      var n := regs.len;
      assert st.phase.GotDistSym?;
      while n > 0
        invariant TablesMatch(tables, st) && LengthsMatch(lenlen[..], lengths[..], lenptr, st)
        invariant OutputMatches(window[..], winpos, checksum, bytesout, outblk, returned, st)
        invariant st.phase.GotDistSym? && kind == st.kind && |st.before| == DWINSIZE
        invariant CopyMatch(st, dist, n) == CopyMatch(old(st), dist, old(regs).len)
      {
        CopyStep(window[..], winpos, checksum, bytesout, outblk, returned, st, dist, n);
        EmitInBlock(window[Wrap(winpos - dist)]);
        n := n - 1;
      }
      CopyNothing(st, dist);
    }

    /** The distance table, or none if the block has no distances. */
    method DistTable(hlit: nat, hdist: nat) returns (t: Table, r: TableResult)
      requires 0 < hdist && hlit + hdist <= lengths.Length
      ensures var dst := lengths[hlit..hlit + hdist];
        && (hdist == 1 && dst[0] == 0 ==> r.GoodTable? && t.NoTable?)
        && (!(hdist == 1 && dst[0] == 0) ==>
              && (r.GoodTable? <==> Complete(dst))
              && (r.GoodTable? ==> t.Table? && Decodes(t, dst, []))
              && (r.LargeHuftable? ==> TableError(dst) == LargeTable)
              && (r.SmallHuftable? ==> TableError(dst) == SmallTable))
    {
      hide Complete, Decodes, KraftTo, Pow2, TableError;
      t, r := NoTable, GoodTable(NoTable);
      if hdist != 1 || lengths[hlit] != 0 {
        var dl := CopyLengths(lengths, hlit, hdist);
        assert dl[..hdist] == lengths[hlit..hlit + hdist];
        r := MkTable(dl, hdist);
        TableErrors(dl[..hdist]);
        if r.GoodTable? {
          t := r.table;
          DecodesTable(t, dl[..hdist]);
        }
      }
    }

    method EnterBlock(lit: Table, dst: Table, ghost s: State)
      requires TablesMatch(tables, st) && LengthsMatch(lenlen[..], lengths[..], lenptr, st)
      requires OutputMatches(window[..], winpos, checksum, bytesout, outblk, returned, st)
      requires s.phase.InBlk? && s.kind == st.kind && s.before == st.before && s.output == st.output
      requires Decodes(lit, s.litlen, [])
      requires s.dist.NoDist? ==> dst.NoTable?
      requires s.dist.SomeDist? ==> Decodes(dst, s.dist.lens, [])
      modifies this`tables, this`regs, this`st
      ensures st == s && regs == old(regs).(phase := InBlk) && TablesMatch(tables, st)
      ensures LengthsMatch(lenlen[..], lengths[..], lenptr, st)
      ensures OutputMatches(window[..], winpos, checksum, bytesout, outblk, returned, st)
    {
      hide TablesMatch, LengthsMatch, OutputMatches, Decodes;
      NewTablesMatch(tables, st, s, lit, dst);
      tables := tables.(lenlen := NoTable, curlen := lit, curdist := dst);
      regs := regs.(phase := InBlk);
      CommitWith(s);
    }

    /** TREES_LEN with both trees in: build the block's tables. */
    method TreesDonePhase() returns (r: Progress)
      requires Valid() && regs.phase.TreesLen? && lenptr >= regs.hlit + regs.hdist
      modifies this`regs, this`tables, this`st
      ensures Did(r, TreesDone(old(st)), old(st), old(buf))
    {
      hide Good, TreeSizes, TablesMatch, OutputMatches, LengthsMatch, Checksum, Complete, Reduced, TreesReady, KraftTo, Pow2, Decodes, TableError, Val;
      ReadyForDone(lenlen[..], lengths[..], lenptr, st, buf);
      ghost var step := TreesDone(st);
      var lit := MkTable(lengths, regs.hlit);
      TableErrors(st.lengths[..regs.hlit]);
      if !lit.GoodTable? {
        return Failed(if lit.LargeHuftable? then LargeTable else SmallTable);
      }
      var dtab, dst := DistTable(regs.hlit, regs.hdist);
      if !dst.GoodTable? {
        return Failed(if dst.LargeHuftable? then LargeTable else SmallTable);
      }
      EnterBlock(lit.table, dtab, step.st);
      r := Went;
    }

    /** TREES_LEN: one code-length symbol. */
    method TreesLenPhase() returns (r: Progress)
      requires Valid() && regs.phase.TreesLen? && lenptr < regs.hlit + regs.hdist
      modifies this`regs, this`bits, this`nbits, this`buf, this`lenptr, this`st, lengths
      ensures Did(r, TreesSymStep(old(st), old(buf)), old(st), old(buf))
    {
      hide TablesMatch, OutputMatches, LengthsMatch, Good, DecodeSym, Decodes, WellFormed, TreesDone, TreeSizes, Fine;
      hide TreesLenStep;
      ReadyForSym(tables, lenlen[..], lengths[..], lenptr, st, buf);
      ghost var step := TreesSymStep(st, buf);
      var code := NextSymbol(tables.lenlen, st.lenlen);
      if code == -1 {
        return Stuck;
      }
      if code < 16 {
        StoreLength(code, step.st);
      } else {
        BeginRepeat(code, step.st);
      }
      r := Went;
    }

    method StoreLength(code: CodeLen, ghost s: State)
      requires TablesMatch(tables, st) && LengthsMatch(lenlen[..], lengths[..], lenptr, st)
      requires OutputMatches(window[..], winpos, checksum, bytesout, outblk, returned, st)
      requires st.phase.TreesLen? && lenptr < 320 && s == st.(lengths := st.lengths + [code])
      requires lengths.Length == 320 && lenlen != lengths && window as object != lengths
      modifies this`lenptr, this`st, lengths
      ensures st == s && TablesMatch(tables, st) && LengthsMatch(lenlen[..], lengths[..], lenptr, st)
      ensures OutputMatches(window[..], winpos, checksum, bytesout, outblk, returned, st)
    {
      hide TablesMatch, OutputMatches, LengthsMatch;
      AppendLength(lenlen[..], lengths[..], lenptr, st, s, code);
      KeepLenTable(tables, st, s);
      KeepOutput(window[..], winpos, checksum, bytesout, outblk, returned, st, s);
      lengths[lenptr] := code;
      lenptr := lenptr + 1;
      st := s;
    }

    method BeginRepeat(code: nat, ghost s: State)
      requires TablesMatch(tables, st) && LengthsMatch(lenlen[..], lengths[..], lenptr, st)
      requires OutputMatches(window[..], winpos, checksum, bytesout, outblk, returned, st)
      requires st.phase.TreesLen? && regs == RegsOf(st) && code >= 16
      requires s == st.(lenextrabits := if code == 16 then 2 else if code == 17 then 3 else 7,
                        lenaddon := if code == 18 then 11 else 3,
                        lenrep := if code == 16 && st.lengths != [] then st.lengths[|st.lengths| - 1] else 0,
                        phase := TreesLenRep)
      modifies this`regs, this`st
      ensures st == s && regs == RegsOf(st) && TablesMatch(tables, st)
      ensures LengthsMatch(lenlen[..], lengths[..], lenptr, st)
      ensures OutputMatches(window[..], winpos, checksum, bytesout, outblk, returned, st)
    {
      LastLength(lenlen[..], lengths[..], lenptr, st);
      hide TablesMatch, OutputMatches, LengthsMatch;
      StartRepeat(lenlen[..], lengths[..], lenptr, st, s);
      KeepLenTable(tables, st, s);
      KeepOutput(window[..], winpos, checksum, bytesout, outblk, returned, st, s);
      regs := regs.(lenextrabits := if code == 16 then 2 else if code == 17 then 3 else 7,
                    lenaddon := if code == 18 then 11 else 3,
                    lenrep := if code == 16 && lenptr > 0 then lengths[lenptr - 1] else 0,
                    phase := TreesLenRep);
      st := s;
    }

    /** TREES_LENREP: repeat a code length, but not past the end of the trees. */
    method TreesLenRepPhase() returns (r: Progress)
      requires Valid() && regs.phase.TreesLenRep?
      modifies this`regs, this`bits, this`nbits, this`buf, this`lenptr, this`st, lengths
      ensures Did(r, TreesLenRepStep(old(st), old(buf)), old(st), old(buf))
    {
      hide TablesMatch, OutputMatches, LengthsMatch, Good, Field, Pow2, Val, Repeat;
      ReadyForRep(lenlen[..], lengths[..], lenptr, st, buf);
      ghost var step := TreesLenRepStep(st, buf);
      if nbits < regs.lenextrabits {
        return Stuck;
      }
      var rep := regs.lenaddon + Peek(regs.lenextrabits);
      Eat(regs.lenextrabits);
      StoreRepeat(rep, step.st);
      r := Went;
    }

    method StoreRepeat(rep: nat, ghost s: State)
      requires TablesMatch(tables, st) && LengthsMatch(lenlen[..], lengths[..], lenptr, st)
      requires OutputMatches(window[..], winpos, checksum, bytesout, outblk, returned, st)
      requires st.phase.TreesLenRep? && regs == RegsOf(st)
      requires lenptr == |st.lengths| <= st.hlit + st.hdist <= 320
      requires s == st.(lengths := st.lengths + Repeat(st.lenrep, Min(rep, st.hlit + st.hdist - |st.lengths|)),
                        phase := TreesLen)
      requires lengths.Length == 320 && lenlen != lengths && window as object != lengths
      modifies this`lenptr, this`regs, this`st, lengths
      ensures st == s && regs == RegsOf(st) && TablesMatch(tables, st)
      ensures LengthsMatch(lenlen[..], lengths[..], lenptr, st)
      ensures OutputMatches(window[..], winpos, checksum, bytesout, outblk, returned, st)
    {
      hide TablesMatch, OutputMatches, LengthsMatch;
      AppendRepeat(lenlen[..], lengths[..], lenptr, st, s, Min(rep, regs.hlit + regs.hdist - lenptr));
      KeepLenTable(tables, st, s);
      KeepOutput(window[..], winpos, checksum, bytesout, outblk, returned, st, s);
      FillLengths(rep);
      regs := regs.(phase := TreesLen);
      st := s;
    }

    /** The loop that writes repeated lengths. */
    method FillLengths(rep: nat)
      requires lenptr <= regs.hlit + regs.hdist <= lengths.Length
      modifies this`lenptr, lengths
      ensures var n := Min(rep, regs.hlit + regs.hdist - old(lenptr));
        && lenptr == old(lenptr) + n
        && lengths[..] == old(lengths[..lenptr]) + Repeat(regs.lenrep, n) + old(lengths[lenptr + n..])
    {
      var left := rep;
      ghost var start, ls := lenptr, lengths[..];
      while left > 0 && lenptr < regs.hlit + regs.hdist
        invariant start <= lenptr <= regs.hlit + regs.hdist && 0 <= left && lenptr - start == rep - left
        invariant forall k :: 0 <= k < lengths.Length ==>
          lengths[k] == if start <= k < lenptr then regs.lenrep else ls[k]
      {
        lengths[lenptr] := regs.lenrep;
        lenptr := lenptr + 1;
        left := left - 1;
      }
    }

    /** One turn of TREES_LENLEN's inner loop. */
    method TreesLenLenTurn() returns (r: Progress)
      requires Valid() && regs.phase.TreesLenLen?
      modifies this`regs, this`bits, this`nbits, this`buf, this`lenptr, this`st, this`tables, lenlen
      ensures Did(r, TreesLenLenStep(old(st), old(buf)), old(st), old(buf))
    {
      hide TablesMatch, OutputMatches, LengthsMatch, Good, Complete, Field, Pow2, TableError, Val, LENLENMAP;
      ReadyForLenLen(lenlen[..], lengths[..], lenptr, st, buf);
      ghost var step := TreesLenLenStep(st, buf);
      if nbits < 3 {
        return Stuck;
      }
      lenlen[LENLENMAP[lenptr]] := Peek(3);
      lenptr := lenptr + 1;
      Eat(3);
      if lenptr == regs.hclen {
        r := FinishLenLen();
      } else {
        LenLenStored(lenlen[..], lengths[..], lenptr, step.st);
        KeepTables(tables, st, step.st);
        KeepOutput(window[..], winpos, checksum, bytesout, outblk, returned, st, step.st);
        st := step.st;
        r := Went;
      }
    }

    /** All code-length code lengths are in: build their table. */
    method FinishLenLen() returns (r: Progress)
      requires TablesMatch(tables, st) && lenlen.Length == 19 && lengths.Length == 320
      requires OutputMatches(window[..], winpos, checksum, bytesout, outblk, returned, st)
      requires regs == RegsOf(st)
      requires st.lengths == []
      modifies this`regs, this`lenptr, this`st, this`tables
      ensures Complete(lenlen[..]) ==>
        && r == Went && st == old(st).(lenlen := lenlen[..], lenptr := 0, phase := TreesLen)
        && regs == RegsOf(st) && TablesMatch(tables, st)
        && LengthsMatch(lenlen[..], lengths[..], lenptr, st)
        && OutputMatches(window[..], winpos, checksum, bytesout, outblk, returned, st)
      ensures !Complete(lenlen[..]) ==> r == Failed(TableError(lenlen[..])) && st == old(st)
    {
      hide TablesMatch, OutputMatches, LengthsMatch, Complete, KraftTo, Pow2, Decodes, TableError;
      ghost var s := st.(lenlen := lenlen[..], lenptr := 0, phase := TreesLen);
      assert lenlen[..19] == lenlen[..];
      var t := MkTable(lenlen, 19);
      TableErrors(lenlen[..]);
      if !t.GoodTable? {
        return Failed(if t.LargeHuftable? then LargeTable else SmallTable);
      }
      LenTableMatch(tables, st, s, t.table);
      KeepOutput(window[..], winpos, checksum, bytesout, outblk, returned, st, s);
      LenLenStored(lenlen[..], lengths[..], 0, s);
      tables := tables.(lenlen := t.table);
      regs := regs.(phase := TreesLen);
      lenptr := 0;
      st := s;
      r := Went;
    }

    /** The header phases. */
    method HeaderPhases() returns (r: Progress)
      requires Valid() && InHeader(regs.phase)
      modifies this`regs, this`bits, this`nbits, this`buf, this`st
      ensures Did(r, Step(old(st), old(buf)), old(st), old(buf))
    {
      hide HeaderStep, OptionalStep, Good, TablesMatch, LengthsMatch, OutputMatches, Did;
      if regs.phase.ZlibStart? {
        r := ZlibStartPhase();
      } else if regs.phase.GzipStart? || regs.phase.GzipMethFlags? {
        r := GzipStartPhase();
      } else if regs.phase.GzipExtra? {
        r := GzipExtraPhase();
      } else if regs.phase.GzipFName? || regs.phase.GzipComment? {
        r := GzipStringPhase();
      } else {
        r := GzipIgnorePhase();
      }
    }

    /** The phases between blocks and in the trees. */
    method TreePhases() returns (r: Progress)
      requires Valid() && (regs.phase.OutsideBlk? || regs.phase.TreesHdr? || regs.phase.TreesLen? || regs.phase.TreesLenRep?)
      modifies this`regs, this`bits, this`nbits, this`buf, this`lenptr, this`st, this`tables, lenlen, lengths
      ensures Did(r, Step(old(st), old(buf)), old(st), old(buf))
    {
      hide BlockHeaderStep, TreesHdrStep, TreesSymStep, TreesDone, TreesLenRepStep;
      hide Good, TablesMatch, OutputMatches, Did;
      if regs.phase.OutsideBlk? {
        r := BlockHeaderPhase();
      } else if regs.phase.TreesHdr? {
        r := TreesHdrPhase();
      } else if regs.phase.TreesLenRep? {
        r := TreesLenRepPhase();
      } else if lenptr >= regs.hlit + regs.hdist {
        r := TreesDonePhase();
      } else {
        r := TreesLenPhase();
      }
    }

    /** The phases inside a block. */
    method BlockPhases() returns (r: Progress)
      requires Valid() && InBlock(regs.phase)
      modifies this, window
      ensures returned == old(returned) && (r.Failed? ==> outblk == old(outblk))
      ensures Did(r, Step(old(st), old(buf)), old(st), old(buf))
    {
      hide InBlkStep, GotLenSymStep, GotLenStep, GotDistSymStep, UncompStep, DecodeSym;
      hide Good, TablesMatch, LengthsMatch, OutputMatches, Did;
      if regs.phase.InBlk? {
        r := InBlkPhase();
      } else if regs.phase.GotLenSym? {
        r := GotLenSymPhase();
      } else if regs.phase.GotLen? {
        r := GotLenPhase();
      } else if regs.phase.GotDistSym? {
        r := GotDistSymPhase();
      } else if regs.phase.UncompData? {
        r := UncompDataPhase();
      } else {
        r := UncompHeaderPhase();
      }
    }

    /** The phases behind the last block. */
    method TrailerPhases() returns (r: Progress)
      requires Valid() && InTrailer(regs.phase)
      modifies this`regs, this`bits, this`nbits, this`buf, this`st
      ensures Did(r, Step(old(st), old(buf)), old(st), old(buf))
    {
      hide EndStep, TrailerStep, TablesMatch, LengthsMatch, OutputMatches, Did, Checksum, Reduced, Good, Step;
      StepIsTrailer(st, buf);
      if regs.phase.End? {
        r := EndPhase();
      } else if regs.phase.Adler1? || regs.phase.Adler2? {
        r := AdlerPhase();
      } else {
        r := GzipTrailerPhase();
      }
    }

    /** One pass through the switch, in a phase whose case is a single step. */
    method OneStep() returns (r: Progress)
      requires Valid() && !regs.phase.TreesLenLen? && !regs.phase.FinalSpin?
      modifies this, lenlen, lengths, window
      ensures returned == old(returned) && (r.Failed? ==> outblk == old(outblk))
      ensures Good(old(st)) && Did(r, Step(old(st), old(buf)), old(st), old(buf))
    {
      hide Valid, Did, Step;
      KnowRegs();
      if InHeader(regs.phase) {
        r := HeaderPhases();
      } else if InBlock(regs.phase) {
        r := BlockPhases();
      } else if InTrailer(regs.phase) {
        r := TrailerPhases();
      } else {
        r := TreePhases();
      }
    }

    lemma KnowRegs()
      requires Valid()
      ensures regs == RegsOf(st) && nbits == |buf| && Good(st) && BitsMatch()
      ensures returned <= |st.output| && outblk == st.output[returned..]
    {
    }

    /** Where a pass through the switch has got to, x being the input not yet buffered. */
    ghost predicate Reached(r: Progress, st0: State, buf0: seq<bool>, x: seq<bool>)
      requires Good(st0)
      reads this, lenlen, lengths, window
    {
      match r
      case Went => Valid() && Run(st, buf + x) == Run(st0, buf0 + x) && Less(st, buf, st0, buf0)
      case Stuck => Valid() && st == st0 && buf == buf0 && Step(st, buf).Stall?
      case Failed(e) =>
        && Run(st0, buf0 + x).err == Bad(e) && Run(st0, buf0 + x).st == st
        && returned <= |st.output| && outblk == st.output[returned..]
    }

    /** One pass through the switch. */
    method Turn(ghost x: seq<bool>) returns (r: Progress)
      requires Valid() && nbits > 0 && |x| % 8 == 0
      modifies this, lenlen, lengths, window
      ensures returned == old(returned)
      ensures Good(old(st)) && Reached(r, old(st), old(buf), x)
    {
      hide TablesMatch, LengthsMatch, Good, Step, Run, Field, OutputMatches, Valid;
      KnowRegs();
      ghost var st0, buf0 := st, buf;
      if regs.phase.TreesLenLen? {
        r := TreesLenLenPhase(x);
      } else if regs.phase.FinalSpin? {
        r := SpinPhase(x);
      } else {
        RunStep(st0, buf0, x);
        r := OneStep();
      }
    }

    /** FINALSPIN: ignore trailing garbage. */
    method SpinPhase(ghost x: seq<bool>) returns (r: Progress)
      requires Valid() && regs.phase.FinalSpin? && nbits > 0
      modifies this`bits, this`nbits, this`buf
      ensures Good(old(st)) && Reached(r, old(st), old(buf), x)
    {
      hide TablesMatch, LengthsMatch, Good, Run, Field, OutputMatches;
      SpinOut(st, buf, x);
      Eat(nbits);
      r := Went;
    }

    /** TREES_LENLEN: read lengths while there are three bits for one. */
    method TreesLenLenPhase(ghost x: seq<bool>) returns (r: Progress)
      requires Valid() && regs.phase.TreesLenLen? && nbits > 0 && |x| % 8 == 0
      modifies this`regs, this`bits, this`nbits, this`buf, this`lenptr, this`st, this`tables, lenlen
      ensures Good(old(st)) && Reached(r, old(st), old(buf), x)
    {
      hide Valid, TablesMatch, LengthsMatch, OutputMatches, Good, Step, Run, Field, TreesLenLenStep;
      r := LenLenTurn(x);
      while r.Went? && regs.phase.TreesLenLen? && nbits >= 3
        invariant Good(old(st)) && Reached(r, old(st), old(buf), x)
        decreases |buf|, Rank(st.phase)
      {
        KnowRegs();
        r := LenLenTurn(x);
        if r.Failed? {
          return;
        }
      }
    }

    method LenLenTurn(ghost x: seq<bool>) returns (r: Progress)
      requires Valid() && regs.phase.TreesLenLen? && nbits > 0 && |x| % 8 == 0
      modifies this`regs, this`bits, this`nbits, this`buf, this`lenptr, this`st, this`tables, lenlen
      ensures Good(old(st)) && Reached(r, old(st), old(buf), x)
      ensures old(nbits) >= 3 ==> !r.Stuck?
    {
      hide Valid, Good, Run, Field, Step, TreesLenLenStep, Less;
      KnowRegs();
      RunStep(st, buf, x);
      StepIsLenLen(st, buf);
      r := TreesLenLenTurn();
    }

    /** The refill loop: up to 24 bits, as long as there is input. */
    method Refill(block: seq<byte>, pos: nat) returns (p: nat)
      requires BitsMatch() && pos <= |block|
      modifies this`bits, this`nbits, this`buf
      ensures BitsMatch() && pos <= p <= |block| && (nbits >= 24 || p == |block|)
      ensures buf + BytesToBits(block[p..]) == old(buf) + BytesToBits(block[pos..])
      ensures |buf| == |old(buf)| + 8 * (p - pos)
    {
      hide Val, Pow2, BytesToBits, BitsOf;
      p := pos;
      while nbits < 24 && p < |block|
        invariant BitsMatch() && pos <= p <= |block|
        invariant buf + BytesToBits(block[p..]) == old(buf) + BytesToBits(block[pos..])
        invariant |buf| == |old(buf)| + 8 * (p - pos)
      {
        NextByte(block, p);
        ByteValue(buf, block[p]);
        bits := bits + block[p] * Pow2(nbits);
        buf := buf + BitsOf(block[p], 8);
        nbits := nbits + 8;
        p := p + 1;
      }
    }

    /** deflate_decompress_data. After an error nothing further is promised. */
    method DecompressData(block: seq<byte>) returns (code: ReturnCode, out: seq<byte>)
      requires Valid()
      modifies this, lenlen, lengths, window
      ensures Good(old(st))
      ensures block == [] ==> Valid() && st == old(st) && buf == old(buf) && out == []
      ensures block == [] ==> code == if old(st).phase.FinalSpin? then Success else UnexpectedEof
      ensures block != [] ==> var o := Feed(Outcome(old(st), old(buf), NoError), block);
        && old(st).output + out == o.st.output
        && (o.err.NoError? ==> code == Success && Valid() && st == o.st && buf == o.rest)
        && (o.err.Bad? ==> code == DecodeError(o.err.err))
    {
      hide TablesMatch, LengthsMatch, Good, Step, Run, Field, BytesToBits, Checksum, WindowHolds;
      KnowRegs();
      if block == [] {
        return if regs.phase.FinalSpin? then Success else UnexpectedEof, [];
      }
      outblk := [];
      returned := |st.output|;
      RunExtends(st, buf + BytesToBits(block));
      ghost var st0, buf0, out0 := st, buf, st.output;
      var pos := 0;
      assert block[0..] == block;
      while pos < |block| || nbits > 0
        invariant Valid() && pos <= |block| && returned == |out0|
        invariant Run(st, buf + BytesToBits(block[pos..])) == Run(st0, buf0 + BytesToBits(block))
        decreases 8 * (|block| - pos) + |buf|, Rank(st.phase)
      {
        pos := Refill(block, pos);
        ghost var x := BytesToBits(block[pos..]);
        KnowRegs();
        ghost var st1, buf1 := st, buf;
        var r := Turn(x);
        if r.Stuck? {
          StuckAtEnd(st, buf, block[pos..]);
          return Success, outblk;
        }
        if r.Failed? {
          return DecodeError(r.err), outblk;
        }
      }
      assert block[pos..] == [];
      StuckAtEnd(st, buf, []);
      return Success, outblk;
    }
  }

  /** What a whole file decompresses to: at the end of the file the trailer must have been seen. */
  function CodeOf(o: Outcome): ReturnCode {
    if o.err.Bad? then DecodeError(o.err.err) else if o.st.phase.FinalSpin? then Success else UnexpectedEof
  }

  /** The standalone program's decompression loop: the file arrives in pieces, and
      a last empty read asks whether the stream was complete. w is what the
      context's fresh window memory held. */
  method DecompressFile(kind: Kind, pieces: seq<seq<byte>>) returns (code: ReturnCode, out: seq<byte>, ghost w: seq<byte>)
    requires forall p :: p in pieces ==> p != []
    ensures |w| == DWINSIZE && Good(StartState(kind, w))
    ensures var o := Run(StartState(kind, w), BytesToBits(Concat(pieces)));
      out == o.st.output && code == CodeOf(o)
  {
    hide Good, Run, StartState, Step, BytesToBits, Concat;
    var ctx := new DecompressContext(kind);
    w :| |w| == DWINSIZE && ctx.st == StartState(kind, w);
    ctx.KnowRegs();
    assert ctx.st.output == [] by { StartMatches(kind, w); StartEmpty(kind, w); }
    EmptyRun(ctx.st);
    out := [];
    var i := 0;
    assert [] + BytesToBits(Concat(pieces)) == BytesToBits(Concat(pieces)) && pieces[0..] == pieces;
    while i < |pieces|
      invariant i <= |pieces| && ctx.Valid() && Good(ctx.st) && Good(StartState(kind, w)) && out == ctx.st.output
      invariant Run(ctx.st, ctx.buf) == Outcome(ctx.st, ctx.buf, NoError)
      invariant fresh(ctx) && fresh(ctx.lenlen) && fresh(ctx.lengths) && fresh(ctx.window)
      invariant Run(ctx.st, ctx.buf + BytesToBits(Concat(pieces[i..]))) == Run(StartState(kind, w), BytesToBits(Concat(pieces)))
    {
      FeedFirst(ctx.st, ctx.buf, pieces[i], pieces[i..]);
      assert pieces[i] in pieces && pieces[i..][1..] == pieces[i + 1..];
      var block;
      code, block := ctx.DecompressData(pieces[i]);
      out := out + block;
      if code.DecodeError? {
        return;
      }
      ctx.KnowRegs();
      i := i + 1;
    }
    NothingLeft(pieces[i..], ctx.buf);
    var nothing;
    code, nothing := ctx.DecompressData([]);
  }

  lemma StartEmpty(k: Kind, w: seq<byte>)
    ensures StartState(k, w).output == []
  {
  }

  lemma NothingLeft(pieces: seq<seq<byte>>, buf: seq<bool>)
    requires pieces == []
    ensures buf + BytesToBits(Concat(pieces)) == buf
  {
  }

  lemma EmptyRun(st: State)
    requires Good(st)
    ensures Run(st, []) == Outcome(st, [], NoError)
  {
  }

  /** Feeding the first of several pieces leaves the rest of the run to do. */
  lemma FeedFirst(st: State, buf: seq<bool>, piece: seq<byte>, pieces: seq<seq<byte>>)
    requires Good(st) && pieces != [] && pieces[0] == piece
    ensures var o, all := Run(st, buf + BytesToBits(piece)), Run(st, buf + BytesToBits(Concat(pieces)));
      && (o.err.NoError? ==> all == Run(o.st, o.rest + BytesToBits(Concat(pieces[1..]))) && Run(o.st, o.rest) == o)
      && (o.err.Bad? ==> all.st == o.st && all.err == o.err)
  {
    hide Good, Run, BytesToBits, Step;
    var bits, more := buf + BytesToBits(piece), Concat(pieces[1..]);
    BytesToBitsAppend(piece, more);
    RunAppend(st, bits, BytesToBits(more));
    assert bits + BytesToBits(more) == buf + BytesToBits(Concat(pieces));
    RunAppend(st, bits, []);
    var o := Run(st, bits);
    assert bits + [] == bits && o.rest + [] == o.rest;
  }

  datatype ReturnCode = Success | UnexpectedEof | DecodeError(err: Error)

  predicate InHeader(p: Phase) {
    p.ZlibStart? || p.GzipStart? || p.GzipMethFlags? || p.GzipIgnore1? || p.GzipIgnore2? || p.GzipIgnore3?
    || p.GzipExtra? || p.GzipFName? || p.GzipComment?
  }

  predicate InBlock(p: Phase) {
    p.InBlk? || p.GotLenSym? || p.GotLen? || p.GotDistSym? || p.UncompLen? || p.UncompNLen? || p.UncompData?
  }

  predicate InTrailer(p: Phase) {
    p.End? || p.Adler1? || p.Adler2? || p.Crc1? || p.Crc2? || p.ILen1? || p.ILen2?
  }

  /** Progress: fewer bits, or as many and a lower phase. */
  predicate Less(st: State, buf: seq<bool>, st0: State, buf0: seq<bool>) {
    |buf| < |buf0| || (|buf| == |buf0| && Rank(st.phase) < Rank(st0.phase))
  }

  /** One step of a run that still has the input x to come. */
  lemma RunStep(st: State, buf: seq<bool>, x: seq<bool>)
    requires Good(st) && buf != [] && |x| % 8 == 0
    ensures var r := Step(st, buf);
      && (r.Fail? ==> Run(st, buf + x) == Outcome(st, buf + x, Bad(r.err)))
      && (r.Next? ==>
            && Good(r.st) && r.used <= |buf| && Run(st, buf + x) == Run(r.st, buf[r.used..] + x)
            && Less(r.st, buf[r.used..], st, buf))
  {
    hide Good, Step, Run, Rank;
    StepStable(st, buf, x);
    RunOnce(st, buf);
    RunOnce(st, buf + x);
    if Step(st, buf).Next? {
      var n := Step(st, buf).used;
      assert (buf + x)[n..] == buf[n..] + x;
    }
  }

  lemma StepIsTrailer(st: State, buf: seq<bool>)
    requires Good(st) && InTrailer(st.phase)
    ensures Reduced(Checksum(st.kind, st.output))
    ensures Step(st, buf) == if st.phase.End? then EndStep(st, buf) else TrailerStep(st, buf)
  {
    hide EndStep, TrailerStep, Checksum, Reduced, Complete;
  }

  lemma StepIsLenLen(st: State, buf: seq<bool>)
    requires Good(st) && st.phase.TreesLenLen?
    ensures st.lenptr < st.hclen <= 19 && |st.lenlen| == 19
    ensures Step(st, buf) == TreesLenLenStep(st, buf)
    ensures |buf| >= 3 ==> !TreesLenLenStep(st, buf).Stall?
  {
    hide Checksum, Reduced, Complete;
  }

  /** FINALSPIN swallows whatever is there. */
  lemma {:induction false} SpinOut(st: State, buf: seq<bool>, x: seq<bool>)
    requires Good(st)
    ensures st.phase.FinalSpin? ==> Run(st, buf + x) == Run(st, buf[|buf|..] + x)
  {
    hide Good;
    if buf != [] {
      SpinOut(st, buf[1..], x);
      assert (buf + x)[1..] == buf[1..] + x;
      assert buf[1..][|buf[1..]|..] == buf[|buf|..];
    } else {
      assert buf[|buf|..] == buf;
    }
  }

  /** A run stops only when it is out of input. */
  lemma StuckAtEnd(st: State, buf: seq<bool>, rest: seq<byte>)
    requires Good(st) && (buf == [] || Step(st, buf).Stall?) && (|buf| >= 24 || rest == [])
    ensures rest == [] && Run(st, buf + BytesToBits(rest)) == Outcome(st, buf, NoError)
  {
    hide Good, Step;
    if |buf| >= 24 {
      EnoughBits(st, buf);
    }
    assert buf + BytesToBits([]) == buf;
  }

  lemma NextByte(block: seq<byte>, p: nat)
    requires p < |block|
    ensures BytesToBits(block[p..]) == BitsOf(block[p], 8) + BytesToBits(block[p + 1..])
  {
    assert block[p..][1..] == block[p + 1..];
  }

  lemma ByteValue(buf: seq<bool>, b: byte)
    ensures Val(buf + BitsOf(b, 8)) == Val(buf) + b * Pow2(|buf|)
  {
    Powers();
    hide Pow2, Val, BitsOf;
    ValAppend(buf, BitsOf(b, 8));
    ValBitsOf(b, 8);
  }

  // ---- Output only grows

  lemma {:induction false} RunExtends(st: State, buf: seq<bool>)
    requires Good(st)
    ensures st.output <= Run(st, buf).st.output
    decreases |buf|, Rank(st.phase)
  {
    hide Good, Step;
    if buf != [] && Step(st, buf).Next? {
      var r := Step(st, buf);
      StepFine(st, buf);
      RunExtends(r.st, buf[r.used..]);
    }
  }

  lemma ChecksumStep(k: Kind, data: seq<byte>, c: byte)
    ensures Checksum(k, data + [c]) == Updated(Checksum(k, data), [c]) == UpdateByte(Checksum(k, data), c)
    ensures k.Zlib? <==> Checksum(k, data).Adler?
    ensures k.Gzip? <==> Checksum(k, data).Crc?
  {
    UpdatedAppend(Initial(k), data, [c]);
    UpdatedNothing(Checksum(k, data));
    assert [c][..0] == [];
    SumKind(Initial(k), data);
  }

  lemma {:induction false} SumKind(s: Sum, data: seq<byte>)
    ensures Updated(s, data).Adler? == s.Adler? && Updated(s, data).Crc? == s.Crc?
  {
    if data != [] {
      SumKind(s, data[..|data| - 1]);
    }
  }

  /** What emitting one byte does to window, checksum and output. */
  lemma OutputStep(window: seq<byte>, winpos: nat, checksum: Sum, bytesout: nat, outblk: seq<byte>, returned: nat,
                   st: State, c: byte)
    requires OutputMatches(window, winpos, checksum, bytesout, outblk, returned, st)
    ensures winpos < |window|
    ensures st.kind.Zlib? <==> checksum.Adler?
    ensures st.kind.Gzip? <==> checksum.Crc?
    ensures Reduced(Updated(checksum, [c])) && (st.kind.Bare? ==> Updated(checksum, [c]) == checksum)
    ensures OutputMatches(window[winpos := c], (winpos + 1) % DWINSIZE, Updated(checksum, [c]), bytesout + 1,
                          outblk + [c], returned, Emit(st, c))
  {
    var hist := st.before + st.output;
    WindowStep(window, winpos, hist, c);
    assert hist + [c] == st.before + (st.output + [c]);
    ChecksumStep(st.kind, st.output, c);
    BareStays(st.kind, st.output, c);
    ChecksumReduced(st.kind, st.output + [c]);
    hide WindowHolds, Checksum, Updated, UpdateByte;
    assert (st.output + [c])[returned..] == st.output[returned..] + [c];
  }

  lemma BareStays(k: Kind, data: seq<byte>, c: byte)
    ensures k.Bare? ==> Updated(Checksum(k, data), [c]) == Checksum(k, data)
  {
    ChecksumStep(k, data, c);
    if k.Bare? {
      SumKind(Initial(k), data);
    }
  }

  lemma GoodBefore(st: State)
    requires Good(st)
    ensures |st.before| == DWINSIZE
  {
  }

  lemma DistAtLeastOne(k: nat)
    requires k < |DISTCODES|
    ensures DISTCODES[k].min >= 1
  {
    DistCodesTile();
    hide Pow2;
    assert RecordOk(DISTCODES[k], 0, k);
  }

  lemma CopyNothing(st: State, d: nat)
    requires |st.before| == DWINSIZE && 1 <= d <= DWINSIZE
    ensures CopyMatch(st, d, 0) == st
  {
  }

  /** The byte d places behind winpos is the one the copy wants. */
  lemma CopyStep(window: seq<byte>, winpos: nat, checksum: Sum, bytesout: nat, outblk: seq<byte>, returned: nat,
                 st: State, d: nat, n: nat)
    requires OutputMatches(window, winpos, checksum, bytesout, outblk, returned, st)
    requires |st.before| == DWINSIZE && 1 <= d <= DWINSIZE && n > 0
    ensures |window| == DWINSIZE && window[Wrap(winpos - d)] == Back(st, d)
    ensures CopyMatch(st, d, n) == CopyMatch(Emit(st, window[Wrap(winpos - d)]), d, n - 1)
  {
    var hist := st.before + st.output;
    assert hist[|hist| - d] == Back(st, d);
  }

  lemma TableErrors(ls: seq<CodeLen>)
    ensures Complete(ls) <==> KraftTo(ls, |ls|) == Pow2(15)
    ensures TableError(ls) == if KraftTo(ls, |ls|) > Pow2(15) then LargeTable else SmallTable
  {
    BaseIsKraft(ls, |ls|);
  }

  /** The distance lengths, as the sub-array mktable is given. */
  method CopyLengths(a: array<CodeLen>, from: nat, n: nat) returns (b: array<CodeLen>)
    requires from + n <= a.Length
    ensures fresh(b) && b.Length == n && b[..] == a[from..from + n]
  {
    b := new CodeLen[n](i requires 0 <= i < n && from + n <= a.Length reads a => a[from + i]);
  }

  lemma NewTablesMatch(t: Tables, st: State, s: State, lit: Table, dst: Table)
    requires TablesMatch(t, st) && s.phase.InBlk?
    requires Decodes(lit, s.litlen, [])
    requires s.dist.NoDist? ==> dst.NoTable?
    requires s.dist.SomeDist? ==> Decodes(dst, s.dist.lens, [])
    ensures TablesMatch(t.(lenlen := NoTable, curlen := lit, curdist := dst), s)
  {
  }

  lemma LenTableMatch(t: Tables, st: State, s: State, len: Table)
    requires TablesMatch(t, st) && s.phase.TreesLen? && Decodes(len, s.lenlen, [])
    ensures TablesMatch(t.(lenlen := len), s)
  {
  }

  lemma KeepLenTable(t: Tables, st: State, s: State)
    requires TablesMatch(t, st) && (st.phase.TreesLen? || st.phase.TreesLenRep?)
    requires (s.phase.TreesLen? || s.phase.TreesLenRep?) && s.lenlen == st.lenlen
    ensures TablesMatch(t, s)
  {
  }

  lemma LenlenDecodes(t: Tables, st: State, buf: seq<bool>)
    requires TablesMatch(t, st) && Good(st) && st.phase.TreesLen?
    ensures WellFormed(t.lenlen) && LookupIn(t.lenlen, buf) == DecodeSym(st.lenlen, buf)
  {
    hide Decodes, Complete, Checksum;
    LookupIsDecode(t.lenlen, st.lenlen, buf);
  }

  /** What one turn of TREES_LEN relies on. */
  lemma ReadyForSym(t: Tables, ll: seq<CodeLen>, ls: seq<CodeLen>, lenptr: nat, st: State, buf: seq<bool>)
    requires TablesMatch(t, st) && LengthsMatch(ll, ls, lenptr, st) && Good(st) && st.phase.TreesLen?
    requires lenptr < st.hlit + st.hdist
    ensures WellFormed(t.lenlen) && LookupIn(t.lenlen, buf) == DecodeSym(st.lenlen, buf)
    ensures lenptr < 320 == |ls|
    ensures var r := TreesSymStep(st, buf); r.Next? ==> Good(r.st) && r.used <= |buf|
  {
    hide TablesMatch, Decodes, DecodeSym, WellFormed, TreesSymStep, Complete, Reduced, Checksum;
    TreesLenFine(st, buf);
    LenlenDecodes(t, st, buf);
  }

  lemma ReadyForDone(ll: seq<CodeLen>, ls: seq<CodeLen>, lenptr: nat, st: State, buf: seq<bool>)
    requires LengthsMatch(ll, ls, lenptr, st) && Good(st) && st.phase.TreesLen? && lenptr >= st.hlit + st.hdist
    ensures 257 <= st.hlit && 1 <= st.hdist && |st.lengths| == st.hlit + st.hdist <= |ls| == 320
    ensures ls[..st.hlit] == st.lengths[..st.hlit]
    ensures ls[st.hlit..st.hlit + st.hdist] == st.lengths[st.hlit..]
    ensures var r := TreesDone(st); r.Next? ==> Good(r.st)
  {
    hide TreesDone, TreesSymStep, Complete, Reduced, Checksum;
    TreesLenFine(st, buf);
    AllLengths(ll, ls, lenptr, st);
  }

  lemma ReadyForBlock(st: State, buf: seq<bool>)
    requires Good(st) && st.phase.OutsideBlk?
    ensures var r := BlockHeaderStep(st, buf); r.Next? ==> Good(r.st) && r.used <= |buf|
  {
    hide BlockHeaderStep, Complete, Checksum, Reduced;
    BlockHeaderFine(st, buf);
  }

  lemma ReadyForRep(ll: seq<CodeLen>, ls: seq<CodeLen>, lenptr: nat, st: State, buf: seq<bool>)
    requires LengthsMatch(ll, ls, lenptr, st) && Good(st) && st.phase.TreesLenRep?
    ensures lenptr == |st.lengths| <= st.hlit + st.hdist <= 320 == |ls|
    ensures var r := TreesLenRepStep(st, buf); r.Next? ==> Good(r.st) && r.used <= |buf|
  {
    hide TreesLenRepStep, Complete, Checksum, Reduced;
    TreesLenRepFine(st, buf);
  }

  lemma ReadyForLenLen(ll: seq<CodeLen>, ls: seq<CodeLen>, lenptr: nat, st: State, buf: seq<bool>)
    requires LengthsMatch(ll, ls, lenptr, st) && Good(st) && st.phase.TreesLenLen?
    ensures ll == st.lenlen && |ll| == 19 && lenptr == st.lenptr < st.hclen <= 19 && st.lengths == [] && |ls| == 320
    ensures |LENLENMAP| == 19 && LENLENMAP[lenptr] < 19 && Pow2(3) == 8
    ensures var r := TreesLenLenStep(st, buf); r.Next? ==> Good(r.st) && r.used <= |buf|
  {
    hide TreesLenLenStep, Complete, Checksum, Reduced;
    TreesLenLenFine(st, buf);
    LenLenSizes(ll, ls, lenptr, st);
    Powers();
  }

  lemma DecodesTable(t: Table, ls: seq<CodeLen>)
    requires Decodes(t, ls, [])
    ensures t.Table?
  {
  }

  /** Both trees' lengths are where mktable looks for them. */
  lemma AllLengths(ll: seq<CodeLen>, ls: seq<CodeLen>, lenptr: nat, st: State)
    requires LengthsMatch(ll, ls, lenptr, st) && Good(st) && st.phase.TreesLen? && lenptr >= st.hlit + st.hdist
    ensures |st.lengths| == st.hlit + st.hdist <= |ls|
    ensures ls[..st.hlit] == st.lengths[..st.hlit]
    ensures ls[st.hlit..st.hlit + st.hdist] == st.lengths[st.hlit..]
  {
  }

  lemma LastLength(ll: seq<CodeLen>, ls: seq<CodeLen>, lenptr: nat, st: State)
    requires LengthsMatch(ll, ls, lenptr, st) && (st.phase.TreesLen? || st.phase.TreesLenRep?)
    ensures lenptr == |st.lengths| && |ls| == 320
    ensures lenptr > 0 ==> ls[lenptr - 1] == st.lengths[lenptr - 1]
  {
  }

  lemma AppendLength(ll: seq<CodeLen>, ls: seq<CodeLen>, lenptr: nat, st: State, s: State, c: CodeLen)
    requires LengthsMatch(ll, ls, lenptr, st) && st.phase.TreesLen? && s.phase.TreesLen?
    requires lenptr < |ls| && s.lengths == st.lengths + [c]
    ensures LengthsMatch(ll, ls[lenptr := c], lenptr + 1, s)
  {
  }

  lemma StartRepeat(ll: seq<CodeLen>, ls: seq<CodeLen>, lenptr: nat, st: State, s: State)
    requires LengthsMatch(ll, ls, lenptr, st) && st.phase.TreesLen? && s.phase.TreesLenRep? && s.lengths == st.lengths
    ensures LengthsMatch(ll, ls, lenptr, s)
  {
  }

  lemma AppendRepeat(ll: seq<CodeLen>, ls: seq<CodeLen>, lenptr: nat, st: State, s: State, n: nat)
    requires LengthsMatch(ll, ls, lenptr, st) && st.phase.TreesLenRep? && s.phase.TreesLen?
    requires lenptr + n <= |ls| && s.lengths == st.lengths + Repeat(st.lenrep, n)
    ensures LengthsMatch(ll, ls[..lenptr] + Repeat(st.lenrep, n) + ls[lenptr + n..], lenptr + n, s)
  {
    var t := ls[..lenptr] + Repeat(st.lenrep, n) + ls[lenptr + n..];
    assert t[..lenptr + n] == s.lengths;
  }

  lemma LenLenSizes(ll: seq<CodeLen>, ls: seq<CodeLen>, lenptr: nat, st: State)
    requires LengthsMatch(ll, ls, lenptr, st) && Good(st) && st.phase.TreesLenLen?
    ensures ll == st.lenlen && |ll| == 19 && lenptr == st.lenptr < st.hclen <= 19 && st.lengths == [] && |ls| == 320
    ensures LENLENMAP[lenptr] < 19
  {
    LenLenMapRange(lenptr);
    hide Checksum, Complete;
  }

  lemma LenLenStored(ll: seq<CodeLen>, ls: seq<CodeLen>, lenptr: nat, s: State)
    requires |ll| == 19 && |ls| == 320 && (s.phase.TreesLenLen? || s.phase.TreesLen?)
    requires s.phase.TreesLenLen? ==> lenptr == s.lenptr && ll == s.lenlen
    requires s.phase.TreesLen? ==> lenptr == 0 && s.lengths == []
    ensures LengthsMatch(ll, ls, lenptr, s)
  {
  }

  lemma SumReduced(window: seq<byte>, winpos: nat, checksum: Sum, bytesout: nat, outblk: seq<byte>, returned: nat,
                   st: State)
    requires OutputMatches(window, winpos, checksum, bytesout, outblk, returned, st)
    ensures Reduced(checksum)
  {
    ChecksumReduced(st.kind, st.output);
  }

  /** Looking a symbol up in a table that decodes ls is decoding it by definition. */
  lemma LookupIsDecode(t: Table, ls: seq<CodeLen>, buf: seq<bool>)
    requires Decodes(t, ls, []) && Complete(ls)
    ensures WellFormed(t) && LookupIn(t, buf) == DecodeSym(ls, buf)
  {
    hide CodeBits, Complete, WellFormed;
    var r := LookupIn(t, buf);
    assert Correct(r, ls, [], buf);
    assert [] + buf == buf;
    BaseFull(ls);
    if r.Found? {
      PrefixFree(ls, r.code, DecodeSym(ls, buf).code, buf);
    }
  }

  lemma CurlenDecodes(t: Tables, st: State, buf: seq<bool>)
    requires TablesMatch(t, st) && Good(st) && st.phase.InBlk?
    ensures WellFormed(t.curlen) && LookupIn(t.curlen, buf) == DecodeSym(st.litlen, buf)
  {
    hide Decodes, Complete, Checksum;
    LookupIsDecode(t.curlen, st.litlen, buf);
  }

  lemma CurdistDecodes(t: Tables, st: State, buf: seq<bool>)
    requires TablesMatch(t, st) && Good(st) && st.phase.GotLen?
    ensures t.curdist.Table? <==> st.dist.SomeDist?
    ensures st.dist.SomeDist? ==> WellFormed(t.curdist) && LookupIn(t.curdist, buf) == DecodeSym(st.dist.lens, buf)
  {
    hide Decodes, Complete, Checksum;
    if st.dist.SomeDist? {
      LookupIsDecode(t.curdist, st.dist.lens, buf);
    }
  }

  lemma StaticTablesMatch(t: Tables, st: State, s: State)
    requires TablesMatch(t, st) && s.phase.InBlk? && s.litlen == StaticLitLen() && s.dist == SomeDist(StaticDist())
    ensures TablesMatch(t.(curlen := t.staticlen, curdist := t.staticdist), s)
  {
  }

  method BuildTable(ls: array<CodeLen>, n: nat) returns (t: Table)
    requires n <= ls.Length && Complete(ls[..n])
    ensures Decodes(t, ls[..n], []) && t.Table?
  {
    var r := MkTable(ls, n);
    t := r.table;
  }

  method ClearLengths(a: array<CodeLen>)
    requires a.Length == 19
    modifies a
    ensures a[..] == Repeat(0, 19)
  {
    for i := 0 to 19
      invariant forall k :: 0 <= k < i ==> a[k] == 0
    {
      a[i] := 0;
    }
  }

  lemma OneBit(buf: seq<bool>)
    requires |buf| >= 1
    ensures Field(buf, 1) == if buf[0] then 1 else 0
  {
    assert buf[..1] == [buf[0]];
    assert [buf[0]][1..] == [];
  }

  /** The static tables deflate_decompress_new builds. */
  method StaticTables() returns (l: Table, d: Table)
    ensures Decodes(l, StaticLitLen(), []) && Decodes(d, StaticDist(), []) && l.Table? && d.Table?
  {
    var ls := new CodeLen[288](i requires 0 <= i < 288 =>
      if i < 144 then 8 else if i < 256 then 9 else if i < 280 then 7 else 8);
    assert ls[..288] == StaticLitLen();
    var ds := new CodeLen[32](_ => 5);
    assert ds[..32] == StaticDist();
    StaticComplete();
    hide Complete, Decodes, StaticLitLen, StaticDist;
    l := BuildTable(ls, 288);
    d := BuildTable(ds, 32);
  }

  function StartPhase(k: Kind): Phase {
    match k case Zlib => ZlibStart case Gzip => GzipStart case Bare => OutsideBlk
  }

  /** The state of a new context whose window memory holds the bytes w. */
  function StartState(k: Kind, w: seq<byte>): State {
    State(k, StartPhase(k), w, [], false, 0, 0, 0, 0, 0, [], [], 0, 0, 0, [], NoDist, 0, 0, 0, 0)
  }

  lemma StartMatches(k: Kind, w: seq<byte>)
    requires |w| == DWINSIZE
    ensures Good(StartState(k, w)) && WindowHolds(w, 0, w + [])
    ensures Checksum(k, []) == Initial(k)
  {
    ChecksumReduced(k, []);
    var st := StartState(k, w);
    assert w + [] == w;
  }

  function Wrap(k: int): (r: nat)
    ensures r < DWINSIZE
  {
    k % DWINSIZE
  }

  /** The circular window holds the last DWINSIZE bytes of hist before winpos. */
  ghost predicate WindowHolds(window: seq<byte>, winpos: nat, hist: seq<byte>) {
    && |window| == DWINSIZE <= |hist| && winpos < DWINSIZE
    && forall i {:trigger hist[i]} ::
         |hist| - DWINSIZE <= i < |hist| ==> window[Wrap(winpos + i - |hist|)] == hist[i]
  }

  lemma WindowStep(window: seq<byte>, winpos: nat, hist: seq<byte>, c: byte)
    requires WindowHolds(window, winpos, hist)
    ensures WindowHolds(window[winpos := c], (winpos + 1) % DWINSIZE, hist + [c])
  {
    var w, pos, h := window[winpos := c], (winpos + 1) % DWINSIZE, hist + [c];
    forall i | |h| - DWINSIZE <= i < |h|
      ensures w[Wrap(pos + i - |h|)] == h[i]
    {
      if i < |hist| {
        assert h[i] == hist[i];
        assert Wrap(pos + i - |h|) == Wrap(winpos + i - |hist|) != winpos;
      }
    }
  }
}

/** deflate_compress_data as written: a context updated in place, a bit
    accumulator, and a circular buffer of symbols from which blocks are cut. */
module Compressor {
  import opened Bits
  import opened Canonical
  import opened Checksums
  import opened DeflateCodes
  import Inflate
  import opened Symbols
  import opened SymbolCoding
  import opened CodeLengths
  import opened TreeCoding
  import opened Blocks
  import opened BlockTrees
  import opened BlockChoice
  import opened Containers
  import opened Streams
  import Tokens
  import LZ77
  import E = Encoding

  // ---- The bit accumulator

  /** bits is everything sent: the whole bytes, then what is still in the accumulator. */
  ghost predicate Written(bits: seq<bool>, bytes: seq<byte>, acc: nat, n: nat) {
    n < 8 && acc < Pow2(n) && bits == BytesToBits(bytes) + BitsOf(acc, n)
  }

  lemma {:induction false} BitsOfAppend(acc: nat, n: nat, v: nat, k: nat)
    requires acc < Pow2(n)
    ensures BitsOf(acc + v * Pow2(n), n + k) == BitsOf(acc, n) + BitsOf(v, k)
  {
    if n == 0 {
      assert acc + v * Pow2(0) == v;
    } else {
      assert Pow2(n) == 2 * Pow2(n - 1);
      hide Pow2;
      BitsOfAppend(acc / 2, n - 1, v, k);
      HalveSum(acc, v, Pow2(n - 1));
      assert BitsOf(acc + v * Pow2(n), n + k) == [acc % 2 == 1] + BitsOf(acc / 2 + v * Pow2(n - 1), n - 1 + k);
    }
  }

  lemma HalveSum(acc: nat, v: nat, p: nat)
    ensures (acc + v * (2 * p)) % 2 == acc % 2 && (acc + v * (2 * p)) / 2 == acc / 2 + v * p
  {
    assert acc + v * (2 * p) == acc + 2 * (v * p);
  }

  /** One byte moves from the accumulator to the buffer. */
  lemma ByteOut(bytes: seq<byte>, acc: nat, n: nat)
    requires n >= 8
    ensures BytesToBits(bytes + [acc % 256]) + BitsOf(acc / 256, n - 8) == BytesToBits(bytes) + BitsOf(acc, n)
  {
    Powers();
    LowHigh(acc, 8);
    BitsOfSplit(acc, 8, n - 8);
    BytesToBitsAppend(bytes, [acc % 256]);
    OneByte(acc % 256);
    hide BytesToBits, BitsOf, Pow2, Low, High;
  }

  lemma OneByte(b: byte)
    ensures BytesToBits([b]) == BitsOf(b, 8)
  {
    assert [b][1..] == [];
  }

  lemma AccBound(acc: nat, n: nat, v: nat, k: nat)
    requires acc < Pow2(n) && v < Pow2(k)
    ensures acc + v * Pow2(n) < Pow2(n + k)
  {
    PowSum(n, k);
    Canonical.MulMono(v + 1, Pow2(k), Pow2(n));
    Canonical.Distribute(v, 1, Pow2(n));
  }

  lemma AccShift(acc: nat, n: nat)
    requires n >= 8 && acc < Pow2(n)
    ensures acc / 256 < Pow2(n - 8)
  {
    Powers();
    PowSum(8, n - 8);
    hide Pow2;
    DivBound(acc, Pow2(n - 8));
  }

  lemma DivBound(a: nat, p: nat)
    requires a < 256 * p
    ensures a / 256 < p
  {
  }

  // ---- The static trees as the encoder keeps them, with 30 distance codes

  function ShortDist(): (ls: seq<CodeLen>)
    ensures |ls| == 30
  {
    seq(30, _ => 5)
  }

  function StaticFull(): Codes {
    Codes(Inflate.StaticLitLen(), ShortDist(), [])
  }

  lemma StaticSame(s: Sym)
    requires BlockSym(s)
    ensures Encodable(StaticFull(), s) && Encodable(StaticCodes(), s) && SymBits(StaticFull(), s) == SymBits(StaticCodes(), s)
  {
    hide CodeBits, Pow2, BitsOf;
    if s.DistSym? {
      assert Inflate.StaticDist()[..30] == ShortDist();
      CodeOfPrefix(Inflate.StaticDist(), 30, s.code);
    }
  }

  // ---- Bits of lists of symbols

  lemma {:induction false} SameBits(a: Codes, b: Codes, ss: seq<Sym>)
    requires AllEncodable(a, ss) && AllEncodable(b, ss)
    requires forall i :: 0 <= i < |ss| ==> SymBits(a, ss[i]) == SymBits(b, ss[i])
    ensures SymsBits(a, ss) == SymsBits(b, ss)
  {
    hide Encodable, SymBits;
    if ss != [] {
      SameBits(a, b, ss[..|ss| - 1]);
    }
  }

  lemma TakeOne(t: Codes, ss: seq<Sym>, i: nat)
    requires i < |ss| && AllEncodable(t, ss)
    ensures AllEncodable(t, ss[..i]) && AllEncodable(t, ss[..i + 1])
    ensures SymsBits(t, ss[..i + 1]) == SymsBits(t, ss[..i]) + SymBits(t, ss[i])
  {
    hide Encodable, SymBits;
    assert ss[..i + 1][..i] == ss[..i];
  }

  lemma StaticBits(ss: seq<Sym>)
    requires forall i :: 0 <= i < |ss| ==> BlockSym(ss[i])
    ensures AllEncodable(StaticFull(), ss) && AllEncodable(StaticCodes(), ss)
    ensures SymsBits(StaticFull(), ss) == SymsBits(StaticCodes(), ss)
  {
    hide BlockSym, Encodable, SymBits, StaticFull, StaticCodes;
    forall i | 0 <= i < |ss|
      ensures Encodable(StaticFull(), ss[i]) && Encodable(StaticCodes(), ss[i])
      ensures SymBits(StaticFull(), ss[i]) == SymBits(StaticCodes(), ss[i])
    {
      StaticSame(ss[i]);
    }
    SameBits(StaticFull(), StaticCodes(), ss);
  }

  lemma PlanBits(p: Plan, ss: seq<Sym>)
    requires PlanSizes(p) && AllEncodable(FullCodes(p), ss)
    ensures AllEncodable(CodesOf(TreesOf(p)), ss)
    ensures SymsBits(FullCodes(p), ss) == SymsBits(CodesOf(TreesOf(p)), ss)
  {
    hide Encodable, SymBits;
    TrimmedAll(p, ss);
    forall i | 0 <= i < |ss|
      ensures SymBits(FullCodes(p), ss[i]) == SymBits(CodesOf(TreesOf(p)), ss[i])
    {
      TrimmedCodes(p, ss[i]);
    }
    SameBits(FullCodes(p), CodesOf(TreesOf(p)), ss);
  }

  lemma OneBit(b: bool)
    ensures BitsOf(if b then 1 else 0, 1) == [b]
  {
  }

  /** Short enough for the accumulator. */
  predicate Short(s: Sym) {
    s.ExtraBits? ==> s.nbits <= 13
  }

  class CompressContext {
    const kind: Kind
    const lz: LZ77.LZ77Context
    var outbuf: seq<byte>
    var outbits: nat
    var noutbits: nat
    var firstblock: bool
    const syms: array<Sym>
    var symstart: nat
    var nsyms: nat
    var checksum: Sum
    var datasize: nat
    var lastblock: bool
    var finished: bool
    const sht: HufTrees

    // What earlier calls returned, all bits so far, the blocks they make up, and
    // the symbols still in the buffer.
    ghost var returned: seq<byte>
    ghost var bits: seq<bool>
    ghost var blocks: seq<Block>
    ghost var enc: E.Encoder
    ghost var buffered: seq<Sym>

    ghost predicate BitsOk()
      reads this`outbuf, this`outbits, this`noutbits, this`returned, this`bits
    {
      Written(bits, returned + outbuf, outbits, noutbits)
    }

    ghost predicate Queue()
      reads this`symstart, this`nsyms, this`buffered, syms
    {
      syms.Length == SYMLIMIT && |buffered| == nsyms && Ring(syms[..], symstart, buffered)
    }

    /** The stream so far, ending in buffered symbols that have the meaning p. */
    ghost predicate Stream(p: Player)
      reads this`blocks, this`bits, this`buffered
    {
      && Legal(kind, blocks) && bits == StreamBits(kind, blocks)
      && Playable(EMPTY, SymsOf(blocks) + buffered) && Played(EMPTY, SymsOf(blocks) + buffered) == p
    }

    /** The compressor as a function is where the context is. */
    ghost predicate Tracked()
      reads this`enc, this`blocks, this`buffered
    {
      !enc.failed && enc.done == SymsOf(blocks) && enc.buf == buffered
    }

    ghost predicate Apart() {
      && syms as object != lz.win && syms as object != lz.data && syms as object != lz.hashtab && syms as object != lz.pending
      && lz as object != this && Built(sht) && sht.lens == StaticFull()
    }

    /** Between calls: symbols sent and symbols buffered mean all the data so far. */
    ghost predicate Valid()
      reads this, syms, lz, lz.win, lz.data, lz.hashtab, lz.pending
    {
      && Apart() && lz.Valid() && BitsOk() && Queue() && nsyms < SYMLIMIT && Open(blocks) && !lastblock && !finished
      && checksum == Checksum(kind, lz.input) && datasize == |lz.input|
      && Tracked()
      && (if firstblock then bits == [] && blocks == [] && buffered == [] && lz.input == []
          else Stream(Player(lz.input, AtSym)))
    }

    /** deflate_compress_new. */
    constructor (k: Kind)
      ensures Valid() && kind == k && firstblock && lz.input == [] && returned == [] && blocks == [] && enc == E.FRESH
      ensures fresh(syms) && fresh(lz) && fresh(lz.win) && fresh(lz.data) && fresh(lz.hashtab) && fresh(lz.pending)
    {
      hide Built, StaticFull, Written, Ring, Checksum, Initial, Open, Legal, StreamBits;
      kind := k;
      lz := new LZ77.LZ77Context();
      outbuf := [];
      outbits, noutbits := 0, 0;
      firstblock := true;
      syms := new Sym[SYMLIMIT];
      symstart, nsyms := 0, 0;
      checksum := Initial(k);
      datasize := 0;
      lastblock, finished := false, false;
      var h := StaticTrees();
      sht := h;
      returned, bits := [], [];
      blocks, buffered, enc := [], [], E.FRESH;
      new;
      StartFacts(k, syms[..]);
    }

    /** outbits: at most 32 bits fit the accumulator. */
    method OutBits(v: nat, k: nat)
      requires BitsOk() && noutbits + k <= 32 && v < Pow2(k)
      modifies this`outbuf, this`outbits, this`noutbits, this`bits
      ensures BitsOk() && bits == old(bits) + BitsOf(v, k)
    {
      hide Pow2, BitsOf, BytesToBits;
      AccBound(outbits, noutbits, v, k);
      BitsOfAppend(outbits, noutbits, v, k);
      outbits := outbits + v * Pow2(noutbits);
      noutbits := noutbits + k;
      bits := bits + BitsOf(v, k);
      assert bits == BytesToBits(returned + outbuf) + BitsOf(outbits, noutbits);
      while noutbits >= 8
        invariant outbits < Pow2(noutbits) && bits == old(bits) + BitsOf(v, k)
        invariant bits == BytesToBits(returned + outbuf) + BitsOf(outbits, noutbits)
        decreases noutbits
      {
        ByteOut(returned + outbuf, outbits, noutbits);
        AccShift(outbits, noutbits);
        assert returned + (outbuf + [outbits % 256]) == (returned + outbuf) + [outbits % 256];
        outbuf := outbuf + [outbits % 256];
        outbits := outbits / 256;
        noutbits := noutbits - 8;
      }
    }

    /** writesym. */
    method WriteSym(s: Sym, h: HufTrees)
      requires BitsOk() && Built(h) && Encodable(h.lens, s) && Short(s)
      modifies this`outbuf, this`outbits, this`noutbits, this`bits
      ensures BitsOk() && bits == old(bits) + SymBits(h.lens, s)
    {
      hide Built, Encodable, SymBits, Written, BitsOf, Pow2;
      var r := NumberOf(h, s);
      assert noutbits < 8 by { WrittenFew(); }
      ShortNumber(h, s);
      OutBits(r.0, r.1);
    }

    lemma WrittenFew()
      requires BitsOk()
      ensures noutbits < 8 && noutbits == |bits| % 8
    {
    }

    /** Send the first len buffered symbols. */
    method WriteBuffered(len: nat, h: HufTrees)
      requires BitsOk() && Queue() && len <= nsyms && Built(h) && AllEncodable(h.lens, buffered[..len])
      requires forall i :: 0 <= i < |buffered| ==> BlockSym(buffered[i])
      modifies this`outbuf, this`outbits, this`noutbits, this`bits
      ensures BitsOk() && bits == old(bits) + SymsBits(h.lens, buffered[..len])
    {
      hide Built, Encodable, SymBits, Written, Ring;
      ghost var ss := buffered[..len];
      assert bits == old(bits) + SymsBits(h.lens, ss[..0]);
      for i := 0 to len
        invariant BitsOk() && bits == old(bits) + SymsBits(h.lens, ss[..i])
      {
        TakeOne(h.lens, ss, i);
        RingAt(syms[..], symstart, buffered, i);
        assert BlockSym(buffered[i]) && Short(ss[i]);
        WriteSym(syms[(symstart + i) % SYMLIMIT], h);
        assert bits == old(bits) + (SymsBits(h.lens, ss[..i]) + SymBits(h.lens, ss[i]));
      }
      assert ss[..len] == ss;
    }

    /** Send the symbols that spell out the trees. */
    method WriteSpelling(spelling: seq<Sym>, h: HufTrees)
      requires BitsOk() && Built(h) && AllEncodable(h.lens, spelling) && AllListable(spelling)
      modifies this`outbuf, this`outbits, this`noutbits, this`bits
      ensures BitsOk() && bits == old(bits) + SymsBits(h.lens, spelling)
    {
      hide Built, Encodable, SymBits, Written, AllListable;
      assert bits == old(bits) + SymsBits(h.lens, spelling[..0]);
      for i := 0 to |spelling|
        invariant BitsOk() && bits == old(bits) + SymsBits(h.lens, spelling[..i])
      {
        TakeOne(h.lens, spelling, i);
        ListedSym(spelling, i);
        WriteSym(spelling[i], h);
        assert bits == old(bits) + (SymsBits(h.lens, spelling[..i]) + SymBits(h.lens, spelling[i]));
      }
      assert spelling[..|spelling|] == spelling;
    }

    /** The bits the first len buffered symbols take. */
    method SizeBuffered(len: nat, h: HufTrees) returns (size: nat)
      requires Queue() && len <= nsyms && Built(h) && AllEncodable(h.lens, buffered[..len])
      ensures size == |SymsBits(h.lens, buffered[..len])|
    {
      hide Built, Encodable, SymBits, Ring;
      ghost var ss := buffered[..len];
      size := 0;
      assert SymsBits(h.lens, ss[..0]) == [];
      for i := 0 to len
        invariant size == |SymsBits(h.lens, ss[..i])|
      {
        TakeOne(h.lens, ss, i);
        RingAt(syms[..], symstart, buffered, i);
        size := size + SymSize(syms[(symstart + i) % SYMLIMIT], h);
      }
      assert ss[..len] == ss;
    }

    /** A block may end behind the first n buffered symbols. */
    ghost predicate Cut(n: nat)
      reads this`blocks, this`buffered
    {
      && n <= |buffered|
      && Playable(EMPTY, SymsOf(blocks) + buffered[..n]) && Played(EMPTY, SymsOf(blocks) + buffered[..n]).mode.AtSym?
    }

    /** The block header. */
    method SendHeader(final: bool, btype: nat)
      requires BitsOk() && btype < 4
      modifies this`outbuf, this`outbits, this`noutbits, this`bits
      ensures BitsOk() && bits == old(bits) + HeaderBits(final, btype)
    {
      WrittenFew();
      Powers();
      OneBit(final);
      hide Pow2, BitsOf, Written;
      OutBits(if final then 1 else 0, 1);
      WrittenFew();
      OutBits(btype, 2);
      assert bits == old(bits) + ([final] + BitsOf(btype, 2));
    }

    /** HLIT, HDIST, HCLEN and the lengths of the code-length alphabet. */
    method SendSizes(p: Plan, codelen: seq<CodeLen>)
      requires BitsOk() && PlanSizes(p) && |codelen| == 19
      requires forall i :: 0 <= i < 19 ==> codelen[i] == p.len3[MapAt(i)] && codelen[i] < 8
      modifies this`outbuf, this`outbits, this`noutbits, this`bits
      ensures BitsOk() && bits == old(bits) + SizeBits(TreesOf(p)) + LenLenBits(p.len3, p.hclen)
    {
      Powers();
      hide Pow2, BitsOf, Written, MapAt, LenLenBits;
      WrittenFew();
      OutBits(p.hlit - 257, 5);
      WrittenFew();
      OutBits(p.hdist - 1, 5);
      WrittenFew();
      OutBits(p.hclen - 4, 4);
      ghost var sized := bits;
      assert sized == old(bits) + SizeBits(TreesOf(p)) by {
        Regroup3(old(bits), BitsOf(p.hlit - 257, 5), BitsOf(p.hdist - 1, 5), BitsOf(p.hclen - 4, 4));
        Regroup2(BitsOf(p.hlit - 257, 5), BitsOf(p.hdist - 1, 5), BitsOf(p.hclen - 4, 4));
      }
      LenLenNone(p.len3);
      for i := 0 to p.hclen
        invariant BitsOk() && bits == sized + LenLenBits(p.len3, i)
      {
        WrittenFew();
        LenLenNext(p.len3, i);
        OutBits(codelen[i], 3);
        Regroup2(sized, LenLenBits(p.len3, i), BitsOf(codelen[i], 3));
      }
    }

    /** The block's symbols and its end-of-block code. */
    method SendContents(len: nat, h: HufTrees)
      requires BitsOk() && Queue() && len <= nsyms && Built(h)
      requires AllEncodable(h.lens, buffered[..len]) && Encodable(h.lens, LitLenSym(EOB))
      requires forall i :: 0 <= i < |buffered| ==> BlockSym(buffered[i])
      modifies this`outbuf, this`outbits, this`noutbits, this`bits
      ensures BitsOk() && bits == old(bits) + (SymsBits(h.lens, buffered[..len]) + SymBits(h.lens, LitLenSym(EOB)))
    {
      hide Built, Written, Ring, SymsBits, BlockSym, Encodable, SymBits;
      WriteBuffered(len, h);
      WriteSym(LitLenSym(EOB), h);
      Regroup2(old(bits), SymsBits(h.lens, buffered[..len]), SymBits(h.lens, LitLenSym(EOB)));
    }

    /** Send len buffered symbols as a static block. */
    method SendStatic(final: bool, len: nat)
      requires BitsOk() && Queue() && len <= nsyms && Built(sht) && sht.lens == StaticFull()
      requires forall i :: 0 <= i < |buffered| ==> BlockSym(buffered[i])
      modifies this`outbuf, this`outbits, this`noutbits, this`bits
      ensures AllEncodable(StaticCodes(), buffered[..len]) && BitsOk()
      ensures bits == old(bits) + StaticBlockBits(final, buffered[..len])
    {
      StaticBits(buffered[..len]);
      EobCode();
      hide Built, Written, Ring, SymsBits, BlockSym, HeaderBits, StaticFull, StaticCodes;
      SendHeader(final, 1);
      SendContents(len, sht);
      Regroup2(old(bits), HeaderBits(final, 1), BlockBits(StaticCodes(), buffered[..len]));
    }

    /** A dynamic block's header and trees. */
    method SendTrees(final: bool, p: Plan, h: HufTrees, codelen: seq<CodeLen>)
      requires BitsOk() && Built(h) && h.lens == FullCodes(p)
      requires PlanSizes(p) && Sendable(TreesOf(p)) && AllEncodable(FullCodes(p), p.spelling)
      requires |codelen| == 19 && forall i :: 0 <= i < 19 ==> codelen[i] == p.len3[MapAt(i)]
      modifies this`outbuf, this`outbits, this`noutbits, this`bits
      ensures AllEncodable(CodesOf(TreesOf(p)), p.spelling) && BitsOk()
      ensures bits == old(bits) + (HeaderBits(final, 2) + SizeBits(TreesOf(p)) + LenLenBits(p.len3, p.hclen)
                                   + SymsBits(CodesOf(TreesOf(p)), p.spelling))
    {
      SpellingFits(TreesOf(p));
      SmallLens(p);
      PlanBits(p, p.spelling);
      hide Built, Written, SymsBits, HeaderBits, Sendable, AllListable, AllEncodable, SizeBits, LenLenBits, MapAt;
      SendHeader(final, 2);
      SendSizes(p, codelen);
      WriteSpelling(p.spelling, h);
      Regroup4(old(bits), HeaderBits(final, 2), SizeBits(TreesOf(p)), LenLenBits(p.len3, p.hclen),
               SymsBits(CodesOf(TreesOf(p)), p.spelling));
      Regroup3(HeaderBits(final, 2), SizeBits(TreesOf(p)), LenLenBits(p.len3, p.hclen), SymsBits(CodesOf(TreesOf(p)), p.spelling));
    }

    /** Send len buffered symbols as a dynamic block. */
    method SendDynamic(final: bool, len: nat, p: Plan, h: HufTrees, codelen: seq<CodeLen>)
      requires BitsOk() && Queue() && len <= nsyms && Built(h) && h.lens == FullCodes(p)
      requires forall i :: 0 <= i < |buffered| ==> BlockSym(buffered[i])
      requires PlanSizes(p) && Sendable(TreesOf(p)) && AllEncodable(FullCodes(p), buffered[..len])
      requires AllEncodable(FullCodes(p), p.spelling)
      requires |codelen| == 19 && forall i :: 0 <= i < 19 ==> codelen[i] == p.len3[MapAt(i)]
      modifies this`outbuf, this`outbits, this`noutbits, this`bits
      ensures AllEncodable(CodesOf(TreesOf(p)), buffered[..len]) && BitsOk()
      ensures bits == old(bits) + DynamicBlockBits(final, TreesOf(p), buffered[..len])
    {
      PlanBits(p, buffered[..len]);
      PlanEob(p);
      hide Built, Written, Ring, SymsBits, BlockSym, HeaderBits, Sendable, AllEncodable, SizeBits, LenLenBits, MapAt, CodeBits, Encodable, SymBits, PlanSizes;
      SendTrees(final, p, h, codelen);
      SendContents(len, h);
      Regroup2(old(bits),
               HeaderBits(final, 2) + SizeBits(TreesOf(p)) + LenLenBits(p.len3, p.hclen) + SymsBits(CodesOf(TreesOf(p)), p.spelling),
               BlockBits(CodesOf(TreesOf(p)), buffered[..len]));
    }

    /** outblock: a dynamic block of dynamicLen symbols or a static one of staticLen,
        whichever takes fewer bits for each symbol; ties go to the static block. ok is
        false when an assertion fails: when the dynamicLen symbols have no trees. */
    method OutBlock(dynamicLen: nat, staticLen: nat, ghost p: Player) returns (ok: bool, ghost t: Trees)
      requires BitsOk() && Queue() && Stream(p) && Open(blocks) && Built(sht) && sht.lens == StaticFull()
      requires Cut(dynamicLen) && Cut(staticLen) && Tracked()
      modifies this`outbuf, this`outbits, this`noutbits, this`bits, this`symstart, this`nsyms, this`blocks, this`buffered, this`enc
      ensures ok <==> Plannable(old(buffered)[..dynamicLen])
      ensures dynamicLen <= |old(enc).buf| && staticLen <= |old(enc).buf|
      ensures enc == E.Cut(old(enc), dynamicLen, staticLen) && enc.failed == !ok && (ok ==> Tracked())
      ensures ok ==> BitsOk() && Queue() && Stream(p) && OneMore(old(blocks), blocks) && t == TreesFor(old(buffered)[..dynamicLen])
      ensures ok ==> Cheapest(Last(blocks), t, lastblock, old(buffered), dynamicLen, staticLen)
      ensures ok ==>
        && |Contents(Last(blocks))| <= |old(buffered)|
        && buffered == old(buffered)[|Contents(Last(blocks))|..]
    {
      hide *;
      CanCut(dynamicLen);
      CanCut(staticLen);
      StreamSyms(p);
      t := Trees([], [], [], 0, []);
      var plan, dht, codelen;
      ok, plan, dht, codelen := MakePlan(syms, symstart, dynamicLen, buffered);
      TrackedIs();
      CutFails(enc, dynamicLen, staticLen);
      if !ok {
        enc := E.Cut(enc, dynamicLen, staticLen);
        return;
      }
      PlanLengths(plan);
      t := TreesOf(plan);
      var dynamic := BetterDynamic(dynamicLen, staticLen, plan, dht);
      ghost var b;
      if dynamic {
        b := DynamicBlock(lastblock, t, buffered[..dynamicLen]);
        SendDynamic(lastblock, dynamicLen, plan, dht, codelen);
        AsDynamic(lastblock, t, buffered[..dynamicLen]);
        Drop(dynamicLen, b, old(bits), p);
      } else {
        b := StaticBlock(lastblock, buffered[..staticLen]);
        SendStatic(lastblock, staticLen);
        AsStatic(lastblock, buffered[..staticLen]);
        Drop(staticLen, b, old(bits), p);
      }
      CheapestIs(b, t, lastblock, old(buffered), dynamicLen, staticLen, dynamic);
      CutSucceeds(enc, old(blocks), b, t, lastblock, dynamicLen, staticLen);
      enc := E.Cut(enc, dynamicLen, staticLen);
      TrackedIf();
    }

    lemma TrackedIf()
      requires !enc.failed && enc.done == SymsOf(blocks) && enc.buf == buffered
      ensures Tracked()
    {
    }

    lemma TrackedIs()
      requires Tracked()
      ensures !enc.failed && enc.done == SymsOf(blocks) && enc.buf == buffered
    {
    }

    lemma CanCut(n: nat)
      requires Queue() && Cut(n)
      ensures n <= |buffered| == nsyms && syms.Length == SYMLIMIT && Ring(syms[..], symstart, buffered)
      ensures Playable(EMPTY, SymsOf(blocks) + buffered[..n]) && Played(EMPTY, SymsOf(blocks) + buffered[..n]).mode.AtSym?
    {
    }

    lemma StreamSyms(p: Player)
      requires Stream(p)
      ensures forall i :: 0 <= i < |buffered| ==> BlockSym(buffered[i])
      ensures Legal(kind, blocks) && bits == StreamBits(kind, blocks)
      ensures Playable(EMPTY, SymsOf(blocks) + buffered) && Played(EMPTY, SymsOf(blocks) + buffered) == p
    {
      BufferedSyms(blocks, buffered);
    }

    /** The comparison that decides between the two kinds of block. */
    method BetterDynamic(dynamicLen: nat, staticLen: nat, plan: Plan, h: HufTrees) returns (dynamic: bool)
      requires Queue() && dynamicLen <= nsyms && staticLen <= nsyms && Built(sht) && sht.lens == StaticFull()
      requires Built(h) && h.lens == FullCodes(plan) && PlanSizes(plan) && Sendable(TreesOf(plan))
      requires AllEncodable(FullCodes(plan), buffered[..dynamicLen]) && AllEncodable(FullCodes(plan), plan.spelling)
      requires forall i :: 0 <= i < |buffered| ==> BlockSym(buffered[i])
      ensures AllEncodable(CodesOf(TreesOf(plan)), buffered[..dynamicLen]) && AllEncodable(StaticCodes(), buffered[..staticLen])
      ensures dynamic <==> |StaticBlockBits(lastblock, buffered[..staticLen])| * dynamicLen
                           > |DynamicBlockBits(lastblock, TreesOf(plan), buffered[..dynamicLen])| * staticLen
    {
      hide Built, Ring, BlockSym, Sendable, AllEncodable, StaticFull, StaticCodes, Encodable, PlanSizes, SymsBits, SymBits;
      hide StaticBlockBits, DynamicBlockBits;
      StaticBits(buffered[..staticLen]);
      StaticSize(lastblock, buffered[..staticLen]);
      var dsize := SizeDynamic(dynamicLen, plan, h);
      var ssize := SizeBuffered(staticLen, sht);
      ssize := 3 + ssize + SymSize(LitLenSym(EOB), sht);
      dynamic := ssize * dynamicLen > dsize * staticLen;
    }

    /** Take the symbols just sent out of the buffer. */
    method Drop(n: nat, ghost b: Block, ghost bits0: seq<bool>, ghost p: Player)
      requires Queue() && Cut(n) && Open(blocks) && BlockOk(b) && !b.FlushBlock? && n <= |buffered| && Contents(b) == buffered[..n]
      requires Legal(kind, blocks) && bits0 == StreamBits(kind, blocks) && bits == bits0 + BlockAsBits(b)
      requires Playable(EMPTY, SymsOf(blocks) + buffered) && Played(EMPTY, SymsOf(blocks) + buffered) == p
      modifies this`symstart, this`nsyms, this`blocks, this`buffered
      ensures Queue() && Stream(p) && blocks == old(blocks) + [b] && buffered == old(buffered)[n..]
      ensures OneMore(old(blocks), blocks) && Last(blocks) == b
    {
      hide Ring, BlockOk, BlockAsBits, Legal, StreamBits, Playable, Played, Open;
      BlockFollows(kind, blocks, b, buffered, p);
      RingDrop(syms[..], symstart, buffered, n);
      symstart := (symstart + n) % SYMLIMIT;
      nsyms := nsyms - n;
      blocks := blocks + [b];
      buffered := buffered[n..];
    }

    /** The bits a dynamic block of len symbols takes. */
    method SizeDynamic(len: nat, plan: Plan, h: HufTrees) returns (size: nat)
      requires Queue() && len <= nsyms && Built(h) && h.lens == FullCodes(plan) && PlanSizes(plan) && Sendable(TreesOf(plan))
      requires AllEncodable(FullCodes(plan), buffered[..len]) && AllEncodable(FullCodes(plan), plan.spelling)
      ensures AllEncodable(CodesOf(TreesOf(plan)), buffered[..len])
      ensures size == |DynamicBlockBits(lastblock, TreesOf(plan), buffered[..len])|
    {
      PlanBits(plan, buffered[..len]);
      PlanBits(plan, plan.spelling);
      PlanEob(plan);
      SendableSizes(TreesOf(plan));
      hide Built, Ring, Sendable, AllEncodable, Encodable, PlanSizes, SymsBits, SymBits, CodeBits;
      size := 3 + 5 + 5 + 4 + 3 * plan.hclen;
      var n := SizeSpelling(plan.spelling, h);
      var m := SizeBuffered(len, h);
      size := size + n + m + SymSize(LitLenSym(EOB), h);
    }

    /** Ready to take symbols; those so far mean p. */
    ghost predicate Running(p: Player)
      reads this`outbuf, this`outbits, this`noutbits, this`returned, this`bits, this`firstblock, this`lastblock
      reads this`symstart, this`nsyms, this`buffered, this`blocks, this`enc, syms
    {
      && BitsOk() && Queue() && nsyms < SYMLIMIT && Stream(p) && Open(blocks) && !lastblock && !firstblock
      && Built(sht) && sht.lens == StaticFull() && Tracked()
    }

    /** The scan for the places where a block may end: the first one of the best value and
        the last. The estimate is brought up to date symbol by symbol. */
    method FindCuts() returns (bestlen: int, longestlen: nat)
      requires Queue() && nsyms <= SYMLIMIT && forall i :: 0 <= i < |buffered| ==> BlockSym(buffered[i])
      ensures bestlen == BestCut(buffered, |buffered|) && longestlen == LastCut(buffered, |buffered|)
    {
      hide *;
      QueueIs();
      var freqs1, freqs2 := new int[286](i => if i == 256 then 1 else 0), new int[30](_ => 0);
      var total1, total2 := 1, 0;
      var bestvfm := 0;
      bestlen, longestlen := -1, 0;
      var len := 300 * 8;
      ScanStarts(buffered, freqs1[..], freqs2[..]);
      for i := 0 to nsyms
        invariant Scanned(buffered, i, freqs1[..], freqs2[..], total1, total2, len)
        invariant bestlen == BestCut(buffered, i) && longestlen == LastCut(buffered, i)
        invariant bestlen >= 0 ==> bestvfm == Value(buffered, bestlen)
      {
        RingAt(syms[..], symstart, buffered, i);
        var sym := syms[(symstart + i) % SYMLIMIT];
        ScanEnd(buffered, i, freqs1[..], freqs2[..], total1, total2, len);
        if i > 0 && sym.LitLenSym? {
          var vfm := i * 32768 / len;
          if bestlen < 0 || vfm > bestvfm {
            bestlen, bestvfm := i, vfm;
          }
          longestlen := i;
        }
        ScanSizes(buffered, i, freqs1[..], freqs2[..], total1, total2, len);
        if sym.LitLenSym? {
          ScanLit(buffered, i, freqs1[..], freqs2[..], total1, total2, len, sym.code);
          total1, len := CountIn(freqs1, sym.code, total1, len);
        } else if sym.DistSym? {
          ScanDist(buffered, i, freqs1[..], freqs2[..], total1, total2, len, sym.code);
          total2, len := CountIn(freqs2, sym.code, total2, len);
        } else {
          ScanExtra(buffered, i, freqs1[..], freqs2[..], total1, total2, len);
          len := len + 8 * sym.nbits;
        }
      }
    }

    /** chooseblock: send a block when the buffer is full. */
    method ChooseBlock(ghost p: Player) returns (ok: bool)
      requires BitsOk() && Queue() && nsyms == SYMLIMIT && Stream(p) && Open(blocks) && !lastblock && !firstblock
      requires Built(sht) && sht.lens == StaticFull() && Tracked()
      modifies this`outbuf, this`outbits, this`noutbits, this`bits, this`symstart, this`nsyms, this`blocks, this`buffered, this`enc
      ensures enc == E.CutSomewhere(old(enc)) && enc.failed == !ok
      ensures ok ==> Running(p)
    {
      hide *;
      QueueIs();
      TrackedIs();
      StreamSyms(p);
      ViableEnd(p);
      var bestlen, longestlen := FindCuts();
      CutsFound(buffered);
      ViableCut(p, bestlen);
      ViableCut(p, longestlen);
      CutSomewhereIs(enc);
      ghost var t, was, blocks0 := Trees([], [], [], 0, []), buffered, blocks;
      ok, t := OutBlock(bestlen, longestlen, p);
      if ok {
        CheapestCut(Last(blocks), t, false, was, bestlen, longestlen);
        StillOpen(blocks0, blocks);
        QueueIs();
        Resume(p);
      }
    }

    lemma QueueIs()
      requires Queue()
      ensures syms.Length == SYMLIMIT && |buffered| == nsyms && Ring(syms[..], symstart, buffered)
    {
    }

    /** Some place to end a block lies among the first few symbols. */
    lemma ViableEnd(p: Player)
      requires Stream(p) && |buffered| == SYMLIMIT
      ensures exists k :: 0 < k < |buffered| && buffered[k].LitLenSym?
    {
      LegalStarts(kind, blocks);
      SomeBoundary(SymsOf(blocks), buffered);
    }

    lemma ViableCut(p: Player, n: nat)
      requires Stream(p) && n < |buffered| && buffered[n].LitLenSym?
      ensures Cut(n)
    {
      CutAt(SymsOf(blocks), buffered, n);
    }

    lemma Resume(p: Player)
      requires BitsOk() && Queue() && nsyms < SYMLIMIT && Stream(p) && Open(blocks) && !lastblock && !firstblock
      requires Built(sht) && sht.lens == StaticFull() && Tracked()
      ensures Running(p)
    {
    }

    /** outsym: buffer a symbol, and send a block once the buffer is full. */
    method OutSym(s: Sym, ghost p: Player) returns (ok: bool)
      requires Running(p) && Fits(p, s)
      modifies this`outbuf, this`outbits, this`noutbits, this`bits, this`symstart, this`nsyms, this`blocks, this`buffered, this`enc, syms
      ensures enc == E.Push(old(enc), s) && enc.failed == !ok
      ensures ok ==> Running(After(p, s))
    {
      hide Ring, Written, Legal, StreamBits, Playable, Played, Fits, After, Open, Built, StaticFull, E.CutSomewhere;
      RingPush(syms[..], symstart, buffered, s);
      PlayOne(EMPTY, SymsOf(blocks) + buffered, s);
      assert SymsOf(blocks) + buffered + [s] == SymsOf(blocks) + (buffered + [s]);
      syms[(symstart + nsyms) % SYMLIMIT] := s;
      nsyms := nsyms + 1;
      buffered := buffered + [s];
      enc := enc.(buf := enc.buf + [s]);
      ok := true;
      if nsyms == SYMLIMIT {
        ok := ChooseBlock(After(p, s));
      }
    }

    /** literal. */
    method Literal(c: byte, ghost hist: seq<byte>) returns (ok: bool)
      requires Running(Player(hist, AtSym))
      modifies this`outbuf, this`outbits, this`noutbits, this`bits, this`symstart, this`nsyms, this`blocks, this`buffered, this`enc, syms
      ensures enc == E.Pushes(old(enc), E.TokenSyms(Tokens.Literal(c))) && enc.failed == !ok
      ensures ok ==> Running(Player(hist + [c], AtSym))
    {
      hide Running, E.Push;
      ok := OutSym(LitLenSym(c), Player(hist, AtSym));
      PushedOne(old(enc), LitLenSym(c));
    }

    /** A code and its extra bits. */
    method SendCode(s: Sym, r: CodeRecord, v: nat, ghost p: Player) returns (ok: bool)
      requires Running(p) && Fits(p, s) && v >= r.min && (r.extrabits > 0 ==> Fits(After(p, s), ExtraBits(v - r.min, r.extrabits)))
      modifies this`outbuf, this`outbits, this`noutbits, this`bits, this`symstart, this`nsyms, this`blocks, this`buffered, this`enc, syms
      ensures enc == E.Pushes(old(enc), E.WithExtra(s, r, v)) && enc.failed == !ok
      ensures ok ==> Running(if r.extrabits > 0 then After(After(p, s), ExtraBits(v - r.min, r.extrabits)) else After(p, s))
    {
      hide *;
      ok := OutSym(s, p);
      PushedOne(old(enc), s);
      PushedWithExtra(old(enc), s, r, v);
      if ok && r.extrabits > 0 {
        ok := OutSym(ExtraBits(v - r.min, r.extrabits), After(p, s));
      }
    }

    /** One step of match(): a length and a distance that can be sent. */
    method SendChunk(distance: nat, n: nat, ghost hist: seq<byte>) returns (ok: bool)
      requires Running(Player(hist, AtSym)) && 3 <= n <= 258 && CanReach(hist, distance)
      modifies this`outbuf, this`outbits, this`noutbits, this`bits, this`symstart, this`nsyms, this`blocks, this`buffered, this`enc, syms
      ensures enc == E.Pushes(old(enc), E.ChunkSyms(distance, n)) && enc.failed == !ok
      ensures ok ==> Running(Player(Tokens.CopyBytes(hist, distance, n), AtSym))
    {
      hide *;
      CodeTables(hist, distance);
      ghost var p := Player(hist, AtSym);
      var k := FindRecord(LENCODES, n, 257, 3, 258);
      var l := LENCODES[k];
      LengthFits(p, k, n);
      ok := SendCode(LitLenSym(l.code), l, n, p);
      ghost var e := enc;
      p := Player(hist, AtDist(n));
      var m := FindRecord(DISTCODES, distance, 0, 1, 32768);
      var d := DISTCODES[m];
      ChunkIs(old(enc), distance, n, k, m);
      if !ok {
        E.FailedStays(enc, E.WithExtra(DistSym(d.code), d, distance));
        return;
      }
      DistanceFits(p, m, distance);
      ok := SendCode(DistSym(d.code), d, distance, p);
    }

    /** match: a length beyond 258 goes out in several steps. */
    method SendMatch(distance: nat, len: nat, ghost hist: seq<byte>) returns (ok: bool)
      requires Running(Player(hist, AtSym)) && len >= 3 && CanReach(hist, distance)
      modifies this`outbuf, this`outbits, this`noutbits, this`bits, this`symstart, this`nsyms, this`blocks, this`buffered, this`enc, syms
      ensures 1 <= distance <= |hist| && enc == E.Pushes(old(enc), E.TokenSyms(Tokens.Copy(distance, len))) && enc.failed == !ok
      ensures ok ==> Running(Player(Tokens.CopyBytes(hist, distance, len), AtSym))
    {
      hide Running, Tokens.CopyBytes, E.Pushes, E.MatchSyms, E.ChunkSyms;
      var left := len;
      ok := true;
      ghost var h := hist;
      RunningEnc(Player(hist, AtSym));
      while left > 0
        invariant left == 0 || left >= 3
        invariant Running(Player(h, AtSym)) && CanReach(h, distance) && ok && !enc.failed
        invariant E.Pushes(enc, E.MatchSyms(distance, left)) == E.Pushes(old(enc), E.MatchSyms(distance, len))
        invariant Tokens.CopyBytes(h, distance, left) == Tokens.CopyBytes(hist, distance, len)
      {
        var thislen := if left > 260 then 258 else if left <= 258 then left else left - 3;
        CopyMore(h, distance, thislen, left - thislen);
        MatchStep(enc, distance, left);
        left := left - thislen;
        ok := SendChunk(distance, thislen, h);
        if !ok {
          E.FailedStays(enc, E.MatchSyms(distance, left));
          return;
        }
        h := Tokens.CopyBytes(h, distance, thislen);
      }
      CopyNone(h, distance);
      MatchEnds(enc, distance);
    }

    lemma RunningEnc(p: Player)
      requires Running(p)
      ensures !enc.failed && BitsOk()
    {
    }

    /** The calls LZ77 makes, in order. */
    method SendCalls(calls: seq<Tokens.Token>, ghost hist: seq<byte>) returns (ok: bool)
      requires Running(Player(hist, AtSym)) && Tokens.Legal(hist, calls)
      modifies this`outbuf, this`outbits, this`noutbits, this`bits, this`symstart, this`nsyms, this`blocks, this`buffered, this`enc, syms
      ensures enc == E.Pushes(old(enc), E.CallSyms(calls)) && enc.failed == !ok
      ensures ok ==> Running(Player(Tokens.Expand(hist, calls), AtSym))
    {
      hide Running, Tokens.CopyBytes, E.Pushes, E.CallSyms, E.TokenSyms;
      ok := true;
      ghost var h := hist;
      assert calls[..0] == [];
      NoCallsYet(enc);
      RunningEnc(Player(hist, AtSym));
      for i := 0 to |calls|
        invariant Tokens.Legal(hist, calls[..i]) && h == Tokens.Expand(hist, calls[..i])
        invariant Running(Player(h, AtSym)) && ok && !enc.failed && enc == E.Pushes(old(enc), E.CallSyms(calls[..i]))
      {
        CallPrefix(hist, calls, i + 1);
        CallStep(hist, calls, i);
        CallPushed(old(enc), calls, i);
        var t := calls[i];
        if t.Literal? {
          ok := Literal(t.c, h);
        } else {
          ok := SendMatch(t.distance, t.len, h);
        }
        h := Tokens.Apply(h, t);
        if !ok {
          CallsFail(old(enc), calls, i + 1);
          return;
        }
      }
      assert calls[..|calls|] == calls;
    }

    /** The container's header. */
    method SendContainerHeader()
      requires BitsOk() && bits == [] && blocks == [] && buffered == [] && Queue() && !lastblock
      requires Built(sht) && sht.lens == StaticFull() && Tracked()
      modifies this`outbuf, this`outbits, this`noutbits, this`bits, this`firstblock
      ensures Running(EMPTY)
    {
      hide Written, Ring, Built, StaticFull, Pow2, BitsOf;
      HeaderFits();
      WrittenFew();
      if kind.Zlib? {
        OutBits(0x9C78, 16);
      } else if kind.Gzip? {
        OutBits(0x00088B1F, 32);
        WrittenFew();
        OutBits(0, 32);
        WrittenFew();
        OutBits(0xFF02, 16);
        assert bits == BitsOf(0x00088B1F, 32) + BitsOf(0, 32) + BitsOf(0xFF02, 16);
      }
      firstblock := false;
      assert bits == ContainerHeader(kind);
      assert SymsOf(blocks) + buffered == [];
    }

    /** Zero bits up to a byte boundary. */
    method PadBits() returns (pad: nat)
      requires BitsOk()
      modifies this`outbuf, this`outbits, this`noutbits, this`bits
      ensures BitsOk() && pad < 8 && bits == old(bits) + Zeros(pad) && |bits| % 8 == 0
    {
      hide Written, Pow2, BitsOf;
      WrittenFew();
      pad := 0;
      if noutbits != 0 {
        pad := 8 - noutbits;
        ZeroBits(pad);
        OutBits(0, pad);
        Rounded(|old(bits)|, pad);
      }
    }

    /** flushblock: everything buffered goes out as one block. */
    method Flush(ghost p: Player) returns (ok: bool)
      requires BitsOk() && Queue() && Stream(p) && Open(blocks) && Built(sht) && sht.lens == StaticFull() && p.mode.AtSym?
      requires Tracked()
      modifies this`outbuf, this`outbits, this`noutbits, this`bits, this`symstart, this`nsyms, this`blocks, this`buffered, this`enc
      ensures enc == E.Flushed(old(enc)) && enc.failed == !ok && (ok ==> Tracked())
      ensures ok ==> BitsOk() && Queue() && Stream(p) && buffered == [] && nsyms == 0
      ensures ok ==> blocks != [] && Final(Last(blocks)) == lastblock && (!lastblock ==> Open(blocks))
    {
      hide *;
      QueueIs();
      TrackedIs();
      WholeCut(p);
      FlushedIs(enc);
      ghost var t, was, blocks0 := Trees([], [], [], 0, []), buffered, blocks;
      ok, t := OutBlock(nsyms, nsyms, p);
      if ok {
        CheapestCut(Last(blocks), t, lastblock, was, |was|, |was|);
        OneMoreIs(blocks0, blocks);
        QueueIs();
        assert buffered == [];
        if !lastblock {
          StillOpen(blocks0, blocks);
        }
      }
    }

    lemma WholeCut(p: Player)
      requires Stream(p) && p.mode.AtSym?
      ensures Cut(|buffered|)
    {
      hide Legal, StreamBits, Playable, Played;
      assert buffered[..|buffered|] == buffered;
    }

    /** The empty stored block of a sync flush. */
    method SendFlush(ghost p: Player)
      requires Running(p) && buffered == [] && p.mode.AtSym?
      modifies this`outbuf, this`outbits, this`noutbits, this`bits, this`blocks
      ensures Running(p) && blocks != [] && Last(blocks).FlushBlock? && |bits| % 8 == 0
    {
      hide Written, Ring, Built, StaticFull, Pow2, BitsOf, Legal, StreamBits, Playable, Played, Open;
      StreamSyms(p);
      FlushFits();
      WrittenFew();
      OutBits(0, 3);
      var pad := PadBits();
      WrittenFew();
      OutBits(0, 16);
      WrittenFew();
      OutBits(0xFFFF, 16);
      FlushIs(kind, blocks, old(bits), pad, bits, p);
      blocks := blocks + [FlushBlock(pad)];
    }

    /** The container's trailer. */
    method SendTrailer()
      requires BitsOk() && |bits| % 8 == 0 && Reduced(checksum)
      modifies this`outbuf, this`outbits, this`noutbits, this`bits
      ensures BitsOk() && bits == old(bits) + Trailer(kind, Word(checksum), datasize)
    {
      hide Written, Pow2, BitsOf, Reduced, Word;
      WrittenFew();
      var w := Word(checksum);
      TrailerFits(w, datasize);
      if kind.Zlib? {
        OutBits(w / 0x100_0000 % 256, 8);
        WrittenFew();
        OutBits(w / TWO16 % 256, 8);
        WrittenFew();
        OutBits(w / 256 % 256, 8);
        WrittenFew();
        OutBits(w % 256, 8);
        Regroup4(old(bits), BitsOf(w / 0x100_0000 % 256, 8), BitsOf(w / TWO16 % 256, 8), BitsOf(w / 256 % 256, 8), BitsOf(w % 256, 8));
        Regroup3(BitsOf(w / 0x100_0000 % 256, 8), BitsOf(w / TWO16 % 256, 8), BitsOf(w / 256 % 256, 8), BitsOf(w % 256, 8));
      } else if kind.Gzip? {
        OutBits(w, 32);
        WrittenFew();
        OutBits(datasize % TWO32, 32);
        Regroup2(old(bits), BitsOf(w, 32), BitsOf(datasize, 32));
      }
    }

    /** Update the checksum by a block of data. */
    method UpdateChecksum(block: seq<byte>, ghost before: seq<byte>)
      requires checksum == Checksum(kind, before)
      modifies this`checksum
      ensures checksum == Checksum(kind, before + block) && Reduced(checksum)
    {
      hide Updated, UpdateByte, Initial;
      UpdatedAppend(Initial(kind), before, block);
      Inflate.ChecksumReduced(kind, before);
      Inflate.ChecksumReduced(kind, before + block);
      SumFits(kind, before, block);
      if kind.Zlib? {
        checksum := Adler32Update(checksum, block);
      } else if kind.Gzip? {
        checksum := Crc32Update(checksum, block);
      }
    }

    /** Compress a block of data into the symbol buffer, sending blocks as it fills. */
    method Feed(block: seq<byte>) returns (ok: bool)
      requires Valid()
      modifies this, syms, lz, lz.win, lz.data, lz.hashtab, lz.pending
      ensures returned == old(returned) + old(outbuf)
      ensures enc == E.Fed(old(enc), old(lz.input), block) && enc.failed == !ok
      ensures ok ==> Fed(old(lz.input) + block)
    {
      hide *;
      ValidParts();
      NewBuffer();
      FedBy(enc, lz.input, block);
      if firstblock {
        SendContainerHeader();
      } else {
        Resume(Player(lz.input, AtSym));
      }
      ghost var before := lz.input;
      var calls := lz.Compress(block, true);
      ok := SendCalls(calls, before);
      UpdateChecksum(block, before);
      datasize := datasize + |block|;
      if ok {
        FedIs(before + block);
      }
    }

    lemma ValidParts()
      requires Valid()
      ensures Apart() && lz.Valid() && BitsOk() && Queue() && nsyms < SYMLIMIT && Open(blocks) && !lastblock && !finished
      ensures Built(sht) && sht.lens == StaticFull() && EMPTY == Player([], AtSym)
      ensures syms as object != lz.win && syms as object != lz.data && syms as object != lz.hashtab && syms as object != lz.pending
      ensures lz as object != this
      ensures checksum == Checksum(kind, lz.input) && datasize == |lz.input| && Tracked() && !enc.failed
      ensures firstblock ==> bits == [] && blocks == [] && buffered == [] && lz.input == []
      ensures !firstblock ==> Stream(Player(lz.input, AtSym))
    {
    }

    lemma FedIs(data: seq<byte>)
      requires Apart() && lz.Valid() && lz.input == data && Running(Player(data, AtSym)) && !finished
      requires checksum == Checksum(kind, data) && Reduced(checksum) && datasize == |data|
      ensures Fed(data)
    {
    }

    /** After feeding: all data is accounted for in blocks and buffer. */
    ghost predicate Fed(data: seq<byte>)
      reads this, syms, lz, lz.win, lz.data, lz.hashtab, lz.pending
    {
      && Apart() && lz.Valid() && lz.input == data && Running(Player(data, AtSym)) && !finished
      && checksum == Checksum(kind, data) && Reduced(checksum) && datasize == |data|
    }

    /** A call starts with an empty output buffer. */
    method NewBuffer()
      requires BitsOk()
      modifies this`outbuf, this`returned
      ensures BitsOk() && outbuf == [] && returned == old(returned) + old(outbuf)
    {
      hide BytesToBits, BitsOf;
      returned := returned + outbuf;
      outbuf := [];
      assert returned + outbuf == returned;
    }

    /** deflate_compress_data. ok is false when an assertion of the source fails, which is
        when it fails in the function of the calls. */
    method CompressData(block: seq<byte>, flush: FlushType) returns (ok: bool, out: seq<byte>)
      requires Valid()
      modifies this, syms, lz, lz.win, lz.data, lz.hashtab, lz.pending
      ensures enc == E.Called(old(enc), old(lz.input), block, !flush.NoFlush?) && enc.failed == !ok
      ensures ok ==> returned + outbuf == old(returned + outbuf) + out
      ensures ok && !flush.EndOfData? ==> Valid() && lz.input == old(lz.input) + block
      ensures ok && flush.SyncFlush? ==> Flushed(old(lz.input) + block)
      ensures ok && flush.EndOfData? ==> Complete(old(lz.input) + block)
    {
      hide *;
      out := [];
      ghost var data, total := lz.input + block, returned + outbuf;
      CalledIs(enc, lz.input, block, !flush.NoFlush?);
      ok := Feed(block);
      if !ok {
        return;
      }
      if flush.SyncFlush? {
        ok := SyncFlushed(data);
      } else if flush.EndOfData? {
        ok := Finish(data);
      }
      if !ok {
        return;
      }
      out := outbuf;
      if !flush.EndOfData? {
        FedIsValid(data);
      }
    }

    /** Everything so far can be decoded from what has been returned. */
    ghost predicate Flushed(data: seq<byte>)
      reads this`blocks, this`bits, this`returned, this`outbuf
    {
      && Legal(kind, blocks) && blocks != [] && Last(blocks).FlushBlock? && |bits| % 8 == 0
      && bits == StreamBits(kind, blocks) && BytesToBits(returned + outbuf) == bits
      && Playable(EMPTY, SymsOf(blocks)) && Played(EMPTY, SymsOf(blocks)) == Player(data, AtSym)
    }

    /** What has been returned is the whole stream of data. */
    ghost predicate Complete(data: seq<byte>)
      reads this`blocks, this`finished, this`returned, this`outbuf
    {
      finished && Ends(kind, blocks, returned + outbuf, data)
    }

    method SyncFlushed(ghost data: seq<byte>) returns (ok: bool)
      requires Fed(data)
      modifies this`outbuf, this`outbits, this`noutbits, this`bits, this`symstart, this`nsyms, this`blocks, this`buffered, this`enc
      ensures enc == E.Flushed(old(enc)) && enc.failed == !ok
      ensures ok ==> Fed(data) && Flushed(data)
    {
      hide *;
      FedParts(data);
      ok := Flush(Player(data, AtSym));
      if ok {
        FlushedRuns(data);
        SendFlush(Player(data, AtSym));
        RunningEnc(Player(data, AtSym));
        WholeBytes();
        FlushDone(data);
      }
    }

    lemma FlushedRuns(data: seq<byte>)
      requires BitsOk() && Queue() && Stream(Player(data, AtSym)) && nsyms == 0 && buffered == [] && Open(blocks) && !lastblock && !firstblock
      requires Built(sht) && sht.lens == StaticFull() && Tracked()
      ensures Running(Player(data, AtSym)) && Player(data, AtSym).mode.AtSym?
    {
    }

    lemma FlushDone(data: seq<byte>)
      requires Running(Player(data, AtSym)) && buffered == [] && blocks != [] && Last(blocks).FlushBlock? && |bits| % 8 == 0
      requires Apart() && lz.Valid() && lz.input == data && !finished && BytesToBits(returned + outbuf) == bits
      requires checksum == Checksum(kind, data) && Reduced(checksum) && datasize == |data|
      ensures Fed(data) && Flushed(data)
    {
      hide Written, Ring, Legal, Open, StreamBits, Playable, Played, Built, StaticFull, Checksum, Reduced;
      assert SymsOf(blocks) + buffered == SymsOf(blocks);
    }

    lemma WholeBytes()
      requires BitsOk() && |bits| % 8 == 0
      ensures BytesToBits(returned + outbuf) == bits
    {
      hide BytesToBits;
      WrittenFew();
      assert BitsOf(outbits, noutbits) == [];
    }

    method Finish(ghost data: seq<byte>) returns (ok: bool)
      requires Fed(data)
      modifies this`outbuf, this`outbits, this`noutbits, this`bits, this`symstart, this`nsyms, this`blocks, this`buffered, this`enc
      modifies this`lastblock, this`finished
      ensures enc == E.Flushed(old(enc)) && enc.failed == !ok
      ensures ok ==> Complete(data)
    {
      hide *;
      FedParts(data);
      lastblock := true;
      ok := Flush(Player(data, AtSym));
      if ok {
        StreamSyms(Player(data, AtSym));
        ghost var sent := bits;
        var pad := PadBits();
        SendTrailer();
        TailIs(kind, pad, data, sent);
        TailRound(|sent| + pad, |Trailer(kind, Word(checksum), datasize)|);
        WholeBytes();
        finished := true;
        FinishedIs(pad, data, sent);
      }
    }

    lemma FedParts(data: seq<byte>)
      requires Fed(data)
      ensures BitsOk() && Queue() && Stream(Player(data, AtSym)) && Open(blocks) && Built(sht) && sht.lens == StaticFull()
      ensures checksum == Checksum(kind, data) && Reduced(checksum) && datasize == |data| && Player(data, AtSym).mode.AtSym?
      ensures Tracked() && !lastblock && !firstblock && Apart() && lz.Valid() && lz.input == data && !finished
    {
    }

    lemma FinishedIs(pad: nat, data: seq<byte>, sent: seq<bool>)
      requires finished && blocks != [] && Final(Last(blocks)) && buffered == [] && pad < 8 && (|sent| + pad) % 8 == 0
      requires Legal(kind, blocks) && sent == StreamBits(kind, blocks)
      requires Playable(EMPTY, SymsOf(blocks) + buffered) && Played(EMPTY, SymsOf(blocks) + buffered) == Player(data, AtSym)
      requires BytesToBits(returned + outbuf) == sent + Tail(kind, pad, data)
      ensures Complete(data)
    {
      hide Legal, StreamBits, Playable, Played, Tail;
      LegalOk(kind, blocks);
      assert SymsOf(blocks) + buffered == SymsOf(blocks);
    }

    lemma FedIsValid(data: seq<byte>)
      requires Fed(data)
      ensures Valid() && lz.input == data
    {
      hide Written, Ring, Legal, Open, StreamBits, Playable, Played, Built, StaticFull, Checksum, Reduced;
    }
  }

  // ---- The compressor as a function, followed step by step

  lemma CutFails(e: E.Encoder, dynamicLen: nat, staticLen: nat)
    requires !e.failed && dynamicLen <= |e.buf| && staticLen <= |e.buf|
    ensures E.Cut(e, dynamicLen, staticLen).failed <==> !Plannable(e.buf[..dynamicLen])
  {
    hide Plannable, E.Dynamic;
  }

  /** A block is sent just as the function says. */
  lemma CutSucceeds(e: E.Encoder, was: seq<Block>, b: Block, t: Trees, final: bool, dynamicLen: nat, staticLen: nat)
    requires !e.failed && e.done == SymsOf(was) && dynamicLen <= |e.buf| && staticLen <= |e.buf| && Plannable(e.buf[..dynamicLen])
    requires t == TreesFor(e.buf[..dynamicLen]) && Cheapest(b, t, final, e.buf, dynamicLen, staticLen)
    ensures |Contents(b)| <= |e.buf|
    ensures E.Cut(e, dynamicLen, staticLen) == E.Encoder(SymsOf(was + [b]), e.buf[|Contents(b)|..], false)
  {
    hide Plannable, TreesFor, E.StaticSize, E.DynamicSize, StaticBlockBits, DynamicBlockBits, Sendable, AllEncodable;
    E.SizesAre(final, t, e.buf[..dynamicLen], e.buf[..staticLen]);
    assert (was + [b])[..|was|] == was;
  }

  lemma PushedOne(e: E.Encoder, s: Sym)
    ensures E.Pushes(e, [s]) == E.Push(e, s) && forall c: byte :: s == LitLenSym(c) ==> E.TokenSyms(Tokens.Literal(c)) == [s]
  {
    hide E.Push;
    assert [s][..0] == [];
    assert E.Pushes(e, []) == e;
  }

  lemma PushedWithExtra(e: E.Encoder, s: Sym, r: CodeRecord, v: nat)
    requires v >= r.min
    ensures E.Pushes(e, E.WithExtra(s, r, v)) ==
      if r.extrabits > 0 && !E.Push(e, s).failed then E.Push(E.Push(e, s), ExtraBits(v - r.min, r.extrabits)) else E.Push(e, s)
  {
    hide E.Push, E.Pushes;
    PushedOne(e, s);
    if r.extrabits > 0 {
      var x := ExtraBits(v - r.min, r.extrabits);
      E.PushAppend(e, [s], [x]);
      PushedOne(E.Push(e, s), x);
      FailedStays(E.Push(e, s), x);
      assert [s] + [x] == [s, x];
    }
  }

  lemma FailedStays(e: E.Encoder, s: Sym)
    ensures e.failed ==> E.Push(e, s) == e
  {
    hide E.CutSomewhere;
  }

  lemma ChunkIs(e: E.Encoder, distance: nat, n: nat, k: nat, m: nat)
    requires k < |LENCODES| && m < |DISTCODES| && 3 <= n <= 258 && 1 <= distance <= 32768
    requires LENCODES[k].min <= n <= LENCODES[k].max && DISTCODES[m].min <= distance <= DISTCODES[m].max
    ensures var l, d := LENCODES[k], DISTCODES[m];
      E.Pushes(e, E.ChunkSyms(distance, n)) ==
        E.Pushes(E.Pushes(e, E.WithExtra(LitLenSym(l.code), l, n)), E.WithExtra(DistSym(d.code), d, distance))
  {
    LenCodesTile();
    DistCodesTile();
    E.PlaceIs(LENCODES, 257, 3, 258, n, 0, k);
    E.PlaceIs(DISTCODES, 0, 1, 32768, distance, 0, m);
    hide LENCODES, DISTCODES, E.Place, E.Pushes, E.WithExtra;
    var l, d := LENCODES[k], DISTCODES[m];
    E.PushAppend(e, E.WithExtra(LitLenSym(l.code), l, n), E.WithExtra(DistSym(d.code), d, distance));
  }

  lemma MatchStep(e: E.Encoder, distance: nat, left: nat)
    requires left > 0
    ensures var n := E.FirstChunk(left);
      n <= left && E.Pushes(e, E.MatchSyms(distance, left)) == E.Pushes(E.Pushes(e, E.ChunkSyms(distance, n)), E.MatchSyms(distance, left - n))
  {
    hide E.ChunkSyms, E.Pushes;
    var n := E.FirstChunk(left);
    E.PushAppend(e, E.ChunkSyms(distance, n), E.MatchSyms(distance, left - n));
  }

  lemma MatchEnds(e: E.Encoder, distance: nat)
    ensures E.Pushes(e, E.MatchSyms(distance, 0)) == e
  {
  }

  lemma NoCallsYet(e: E.Encoder)
    ensures E.Pushes(e, E.CallSyms([])) == e
  {
  }

  lemma CallPushed(e: E.Encoder, calls: seq<Tokens.Token>, i: nat)
    requires i < |calls|
    ensures E.Pushes(e, E.CallSyms(calls[..i + 1])) == E.Pushes(E.Pushes(e, E.CallSyms(calls[..i])), E.TokenSyms(calls[i]))
  {
    hide E.Pushes, E.CallSyms, E.TokenSyms;
    assert calls[..i + 1] == calls[..i] + [calls[i]];
    E.LastCall(calls[..i], calls[i]);
    E.PushAppend(e, E.CallSyms(calls[..i]), E.TokenSyms(calls[i]));
  }

  lemma CallsFail(e: E.Encoder, calls: seq<Tokens.Token>, i: nat)
    requires i <= |calls| && E.Pushes(e, E.CallSyms(calls[..i])).failed
    ensures E.Pushes(e, E.CallSyms(calls)) == E.Pushes(e, E.CallSyms(calls[..i]))
  {
    hide E.Pushes, E.CallSyms;
    assert calls[..i] + calls[i..] == calls;
    E.SymsAppend(calls[..i], calls[i..]);
    E.PushAppend(e, E.CallSyms(calls[..i]), E.CallSyms(calls[i..]));
    E.FailedStays(E.Pushes(e, E.CallSyms(calls[..i])), E.CallSyms(calls[i..]));
  }

  lemma FlushedIs(e: E.Encoder)
    requires !e.failed
    ensures E.Flushed(e) == E.Cut(e, |e.buf|, |e.buf|)
  {
  }

  lemma FedBy(e: E.Encoder, before: seq<byte>, block: seq<byte>)
    ensures E.Fed(e, before, block) == E.Pushes(e, E.CallSyms(LZ77.Lazy(before + block, |before|, true, LZ77.NONE)))
  {
  }

  lemma CalledIs(e: E.Encoder, before: seq<byte>, block: seq<byte>, flush: bool)
    ensures var f := E.Fed(e, before, block);
      E.Called(e, before, block, flush) == if flush then E.Flushed(f) else f
    ensures var f := E.Fed(e, before, block); f.failed ==> E.Flushed(f) == f
  {
    hide E.Pushes, E.Cut;
  }

  lemma CutSomewhereIs(e: E.Encoder)
    requires BestCut(e.buf, |e.buf|) > 0
    ensures E.CutSomewhere(e) == E.Cut(e, BestCut(e.buf, |e.buf|), LastCut(e.buf, |e.buf|))
  {
    hide E.Cut, BestCut, LastCut;
  }

  /** If a block may end anywhere, the places found are such. */
  lemma CutsFound(ss: seq<Sym>)
    requires exists k :: 0 < k < |ss| && ss[k].LitLenSym?
    ensures var b, l := BestCut(ss, |ss|), LastCut(ss, |ss|);
      0 < b < |ss| && ss[b].LitLenSym? && 0 < l < |ss| && ss[l].LitLenSym?
  {
    hide BestCut, LastCut, Value;
    BestCutIsBest(ss, |ss|);
    LastCutIsLast(ss, |ss|);
    var k :| 0 < k < |ss| && ss[k].LitLenSym?;
    assert Viable(ss, k);
  }

  // ---- The scan of chooseblock()

  /** The estimate, with one more occurrence of a symbol that has had f among total. */
  function WithOneMore(len: int, f: nat, total: nat): int {
    len + f * ApproxLog2(f) - total * ApproxLog2(total) - (f + 1) * ApproxLog2(f + 1) + (total + 1) * ApproxLog2(total + 1)
  }

  /** One more occurrence of c, and what that does to the estimate. */
  method CountIn(freqs: array<int>, c: nat, total: nat, len: int) returns (total': nat, len': int)
    requires c < freqs.Length && freqs[c] >= 0
    modifies freqs
    ensures freqs[..] == old(freqs[..])[c := old(freqs[c]) + 1] && total' == total + 1
    ensures len' == WithOneMore(len, old(freqs[c]), total)
  {
    hide ApproxLog2;
    len' := len + freqs[c] * ApproxLog2(freqs[c]);
    len' := len' - total * ApproxLog2(total);
    freqs[c] := freqs[c] + 1;
    total' := total + 1;
    len' := len' - freqs[c] * ApproxLog2(freqs[c]);
    len' := len' + total' * ApproxLog2(total');
  }

  /** After i symbols: their frequencies, and the estimate for them. */
  ghost predicate Scanned(ss: seq<Sym>, i: nat, freqs1: seq<int>, freqs2: seq<int>, total1: nat, total2: nat, len: int) {
    && i <= |ss| && freqs1 == LitFreqs(ss[..i]) && freqs2 == DistFreqs(ss[..i])
    && total1 == Total(freqs1) && total2 == Total(freqs2) && len == Estimate(ss[..i])
  }

  lemma ScanStarts(ss: seq<Sym>, freqs1: seq<int>, freqs2: seq<int>)
    requires |freqs1| == 286 && forall c :: 0 <= c < 286 ==> freqs1[c] == if c == 256 then 1 else 0
    requires |freqs2| == 30 && forall c :: 0 <= c < 30 ==> freqs2[c] == 0
    ensures Scanned(ss, 0, freqs1, freqs2, 1, 0, 300 * 8) && BestCut(ss, 0) == -1 && LastCut(ss, 0) == 0
  {
    EstimateStarts();
    NothingEstimated();
    assert EOB == 256 && ss[..0] == [] && freqs1 == LitFreqs([]) && freqs2 == DistFreqs([]);
    hide LitFreqs, DistFreqs, Entropy, Total;
  }

  lemma ScanEnd(ss: seq<Sym>, i: nat, freqs1: seq<int>, freqs2: seq<int>, total1: nat, total2: nat, len: int)
    requires Scanned(ss, i, freqs1, freqs2, total1, total2, len) && i < |ss| <= SYMLIMIT
    requires forall k :: 0 <= k < |ss| ==> BlockSym(ss[k])
    ensures len > 0 && Value(ss, i) == i * 32768 / len
    ensures var b, viable := BestCut(ss, i), i > 0 && ss[i].LitLenSym?;
      && BestCut(ss, i + 1) == (if viable && (b < 0 || Value(ss, i) > Value(ss, b)) then i else b)
      && LastCut(ss, i + 1) == if viable then i else LastCut(ss, i)
  {
    hide Estimate, LitFreqs, DistFreqs, Total, BlockSym;
    EstimateLarge(ss[..i]);
  }

  lemma ScanLit(ss: seq<Sym>, i: nat, freqs1: seq<int>, freqs2: seq<int>, total1: nat, total2: nat, len: int, c: nat)
    requires Scanned(ss, i, freqs1, freqs2, total1, total2, len) && i < |ss| && ss[i] == LitLenSym(c) && c < |freqs1| == 286 && freqs1[c] >= 0
    ensures Scanned(ss, i + 1, freqs1[c := freqs1[c] + 1], freqs2, total1 + 1, total2, WithOneMore(len, freqs1[c], total1))
  {
    FreqsNatural(ss[..i]);
    hide LitFreqs, DistFreqs, Total, ApproxLog2, Entropy, ExtraBitsIn;
    assert ss[..i + 1] == ss[..i] + [ss[i]];
    BlockChoice.LitStep(ss[..i], c);
    EntropyStep(freqs1, c);
  }

  lemma ScanDist(ss: seq<Sym>, i: nat, freqs1: seq<int>, freqs2: seq<int>, total1: nat, total2: nat, len: int, c: nat)
    requires Scanned(ss, i, freqs1, freqs2, total1, total2, len) && i < |ss| && ss[i] == DistSym(c) && c < |freqs2| == 30 && freqs2[c] >= 0
    ensures Scanned(ss, i + 1, freqs1, freqs2[c := freqs2[c] + 1], total1, total2 + 1, WithOneMore(len, freqs2[c], total2))
  {
    FreqsNatural(ss[..i]);
    hide LitFreqs, DistFreqs, Total, ApproxLog2, Entropy, ExtraBitsIn;
    assert ss[..i + 1] == ss[..i] + [ss[i]];
    BlockChoice.DistStep(ss[..i], c);
    EntropyStep(freqs2, c);
  }

  lemma ScanExtra(ss: seq<Sym>, i: nat, freqs1: seq<int>, freqs2: seq<int>, total1: nat, total2: nat, len: int)
    requires Scanned(ss, i, freqs1, freqs2, total1, total2, len) && i < |ss| && ss[i].ExtraBits?
    ensures Scanned(ss, i + 1, freqs1, freqs2, total1, total2, len + 8 * ss[i].nbits)
  {
    hide LitFreqs, DistFreqs, Total, ApproxLog2, Entropy, ExtraBitsIn;
    assert ss[..i + 1] == ss[..i] + [ss[i]];
    BlockChoice.ExtraStep(ss[..i], ss[i].value, ss[i].nbits);
  }

  lemma ScanSizes(ss: seq<Sym>, i: nat, freqs1: seq<int>, freqs2: seq<int>, total1: nat, total2: nat, len: int)
    requires Scanned(ss, i, freqs1, freqs2, total1, total2, len) && i < |ss| && BlockSym(ss[i])
    ensures |freqs1| == 286 && (forall c :: 0 <= c < 286 ==> freqs1[c] >= 0)
    ensures |freqs2| == 30 && (forall c :: 0 <= c < 30 ==> freqs2[c] >= 0)
    ensures (ss[i].LitLenSym? ==> ss[i].code < 286) && (ss[i].DistSym? ==> ss[i].code < 30) && !ss[i].CodeLenSym?
  {
    FreqsNatural(ss[..i]);
    hide LitFreqs, DistFreqs, Estimate;
  }

  /** The blocks bs, padding and a trailer make up the bytes and stand for data. */
  ghost predicate Ends(kind: Kind, bs: seq<Block>, bytes: seq<byte>, data: seq<byte>) {
    && Legal(kind, bs) && bs != [] && Final(Last(bs))
    && Playable(EMPTY, SymsOf(bs)) && data == Played(EMPTY, SymsOf(bs)).hist
    && exists pad: nat {:trigger Tail(kind, pad, data)} :: pad < 8 && (|StreamBits(kind, bs)| + pad) % 8 == 0
         && BytesToBits(bytes) == StreamBits(kind, bs) + Tail(kind, pad, data)
  }

  lemma SumFits(kind: Kind, a: seq<byte>, b: seq<byte>)
    ensures kind.Zlib? ==> Checksum(kind, a).Adler?
    ensures kind.Gzip? ==> Checksum(kind, a).Crc?
    ensures kind.Bare? ==> Checksum(kind, a + b) == Checksum(kind, a)
  {
    KindOfSum(Initial(kind), a);
    KindOfSum(Initial(kind), a + b);
  }

  lemma {:induction false} KindOfSum(s: Sum, data: seq<byte>)
    ensures Updated(s, data).Adler? == s.Adler? && Updated(s, data).Crc? == s.Crc?
  {
    if data != [] {
      KindOfSum(s, data[..|data| - 1]);
    }
  }

  lemma TailRound(n: nat, m: nat)
    requires n % 8 == 0 && m % 8 == 0
    ensures (n + m) % 8 == 0
  {
  }

  lemma TailIs(kind: Kind, pad: nat, data: seq<byte>, sent: seq<bool>)
    requires Reduced(Checksum(kind, data))
    ensures sent + Zeros(pad) + Trailer(kind, Word(Checksum(kind, data)), |data|) == sent + Tail(kind, pad, data)
    ensures |Trailer(kind, Word(Checksum(kind, data)), |data|)| % 8 == 0
  {
    hide Trailer, Word, Checksum, Reduced;
    Regroup2(sent, Zeros(pad), Trailer(kind, Word(Checksum(kind, data)), |data|));
  }

  datatype FlushType = NoFlush | SyncFlush | EndOfData

  lemma HeaderFits()
    ensures 0x9C78 < Pow2(16) && 0x00088B1F < Pow2(32) && 0 < Pow2(32) && 0xFF02 < Pow2(16)
  {
    Sixteen();
    PowSum(16, 16);
  }

  lemma ZeroBits(n: nat)
    ensures BitsOf(0, n) == Zeros(n) && 0 < Pow2(n)
  {
    if n > 0 {
      ZeroBits(n - 1);
      assert Zeros(n) == [false] + Zeros(n - 1);
    }
  }

  lemma Rounded(n: nat, pad: nat)
    requires n % 8 != 0 && pad == 8 - n % 8
    ensures (n + pad) % 8 == 0
  {
  }

  lemma OneMoreIs(was: seq<Block>, bs: seq<Block>)
    requires OneMore(was, bs)
    ensures bs != []
  {
  }

  lemma FlushFits()
    ensures 0 < Pow2(3) && 0 < Pow2(16) && 0xFFFF < Pow2(16)
    ensures BitsOf(0, 3) == HeaderBits(false, 0)
  {
    Sixteen();
    Powers();
  }

  lemma FlushBitsAre(bits0: seq<bool>, pad: nat)
    ensures bits0 + BitsOf(0, 3) + Zeros(pad) + BitsOf(0, 16) + BitsOf(0xFFFF, 16) == bits0 + FlushBits(pad)
  {
    FlushFits();
    hide BitsOf, HeaderBits, Zeros;
    Regroup4(bits0, BitsOf(0, 3), Zeros(pad), BitsOf(0, 16), BitsOf(0xFFFF, 16));
    Regroup3(BitsOf(0, 3), Zeros(pad), BitsOf(0, 16), BitsOf(0xFFFF, 16));
  }

  lemma FlushFollows(kind: Kind, bs: seq<Block>, pad: nat)
    requires Legal(kind, bs) && Open(bs) && pad < 8 && (|StreamBits(kind, bs)| + 3 + pad) % 8 == 0
    requires Playable(EMPTY, SymsOf(bs)) && Played(EMPTY, SymsOf(bs)).mode.AtSym?
    ensures var c := bs + [FlushBlock(pad)];
      Legal(kind, c) && Open(c) && SymsOf(c) == SymsOf(bs) && StreamBits(kind, c) == StreamBits(kind, bs) + FlushBits(pad)
  {
    hide *;
    LegalOk(kind, bs);
    FlushCan(kind, bs, pad);
    AddBlock(kind, bs, FlushBlock(pad));
    assert SymsOf(bs) + [] == SymsOf(bs);
  }

  lemma FlushCan(kind: Kind, bs: seq<Block>, pad: nat)
    requires AllOk(bs) && pad < 8 && (|StreamBits(kind, bs)| + 3 + pad) % 8 == 0
    requires Playable(EMPTY, SymsOf(bs)) && Played(EMPTY, SymsOf(bs)).mode.AtSym?
    ensures var b := FlushBlock(pad);
      BlockOk(b) && CanFollow(kind, bs, b) && !Final(b) && Contents(b) == [] && BlockAsBits(b) == FlushBits(pad)
  {
    hide Playable, Played, FlushBits, StreamBits, SymsOf, AllOk;
    assert SymsOf(bs) + [] == SymsOf(bs);
  }

  lemma FlushIs(kind: Kind, bs: seq<Block>, bits0: seq<bool>, pad: nat, bits: seq<bool>, p: Player)
    requires Legal(kind, bs) && Open(bs) && bits0 == StreamBits(kind, bs) && pad < 8
    requires bits == bits0 + BitsOf(0, 3) + Zeros(pad) + BitsOf(0, 16) + BitsOf(0xFFFF, 16)
    requires (|bits0| + 3 + pad) % 8 == 0
    requires Playable(EMPTY, SymsOf(bs) + []) && Played(EMPTY, SymsOf(bs) + []) == p && p.mode.AtSym?
    ensures var c := bs + [FlushBlock(pad)];
      && Legal(kind, c) && Open(c) && bits == StreamBits(kind, c) && SymsOf(c) + [] == SymsOf(bs) + []
      && Last(c).FlushBlock? && |bits| % 8 == 0
  {
    hide *;
    assert SymsOf(bs) + [] == SymsOf(bs);
    FlushBitsAre(bits0, pad);
    FlushFollows(kind, bs, pad);
    FlushSize(pad);
    LastIs(bs, FlushBlock(pad));
  }

  lemma LastIs(bs: seq<Block>, b: Block)
    ensures Last(bs + [b]) == b && OneMore(bs, bs + [b])
  {
  }

  lemma TrailerFits(w: nat, size: nat)
    requires w < TWO32
    ensures Pow2(8) == 256 && Pow2(32) == TWO32
    ensures BitsOf(size % TWO32, 32) == BitsOf(size, 32)
  {
    Sixteen();
    PowSum(16, 16);
    LowHigh(size, 32);
    BitsOfSplit(size, 32, 0);
    hide Pow2, Low, High;
    assert BitsOf(size, 32 + 0) == BitsOf(size % TWO32, 32) + [];
  }

  lemma CodeTables(hist: seq<byte>, d: nat)
    requires CanReach(hist, d)
    ensures Tiles(LENCODES, 257, 3, 258) && Tiles(DISTCODES, 0, 1, 32768) && 1 <= d <= 32768 && d <= |hist|
    ensures forall h: seq<byte>, m :: Player(h, m).hist == h
  {
    LenCodesTile();
    DistCodesTile();
  }

  lemma CopyNone(hist: seq<byte>, d: nat)
    requires 1 <= d <= |hist|
    ensures Tokens.CopyBytes(hist, d, 0) == hist
  {
  }

  lemma {:induction false} CallPrefix(hist: seq<byte>, calls: seq<Tokens.Token>, i: nat)
    requires Tokens.Legal(hist, calls) && i <= |calls|
    ensures Tokens.Legal(hist, calls[..i])
    decreases |calls|
  {
    if i < |calls| {
      CallPrefix(hist, calls[..|calls| - 1], i);
      assert calls[..|calls| - 1][..i] == calls[..i];
    } else {
      assert calls[..i] == calls;
    }
  }

  lemma CallStep(hist: seq<byte>, calls: seq<Tokens.Token>, i: nat)
    requires i < |calls| && Tokens.Legal(hist, calls[..i + 1])
    ensures Tokens.Legal(hist, calls[..i]) && Tokens.LegalToken(Tokens.Expand(hist, calls[..i]), calls[i])
    ensures Tokens.Expand(hist, calls[..i + 1]) == Tokens.Apply(Tokens.Expand(hist, calls[..i]), calls[i])
  {
    assert calls[..i + 1][..i] == calls[..i];
  }

  /** The blocks of a legal stream end between two literals or matches. */
  lemma LegalStarts(kind: Kind, bs: seq<Block>)
    requires Legal(kind, bs)
    ensures Playable(EMPTY, SymsOf(bs)) && Played(EMPTY, SymsOf(bs)).mode.AtSym?
  {
    hide BlockOk, StreamBits;
  }

  lemma StillOpen(was: seq<Block>, bs: seq<Block>)
    requires OneMore(was, bs) && Open(was) && !Final(Last(bs))
    ensures Open(bs)
  {
    forall i | 0 <= i < |bs|
      ensures !Final(bs[i])
    {
      assert i < |was| ==> bs[i] == was[i];
    }
  }

  lemma SomeBoundary(a: seq<Sym>, ss: seq<Sym>)
    requires Playable(EMPTY, a + ss) && Playable(EMPTY, a) && Played(EMPTY, a).mode.AtSym? && |ss| > 4
    ensures exists k :: 0 < k < |ss| && ss[k].LitLenSym?
  {
    hide Fits, After;
    var p := Played(EMPTY, a);
    PlayAppend(EMPTY, a, ss);
    Prefix(p, ss, 0);
    assert ss[..0] == [];
    Prefix(p, ss, 1);
    DistanceBound(Played(p, ss[..1]).mode);
    var j := BoundaryNear(p, ss, 1);
  }

  lemma DistanceBound(m: Mode)
    ensures Distance(m) <= 3
  {
  }

  lemma CutAt(a: seq<Sym>, ss: seq<Sym>, n: nat)
    requires Playable(EMPTY, a + ss) && n < |ss| && ss[n].LitLenSym?
    ensures Playable(EMPTY, a + ss[..n]) && Played(EMPTY, a + ss[..n]).mode.AtSym?
  {
    hide Playable, Played;
    BoundaryIsAtSym(EMPTY, a + ss, |a| + n);
    assert (a + ss)[..|a| + n] == a + ss[..n] && (a + ss)[|a| + n] == ss[n];
  }

  /** A block of some but not all of the symbols leaves the buffer short of full. */
  lemma CheapestCut(b: Block, t: Trees, final: bool, ss: seq<Sym>, dynamicLen: nat, staticLen: nat)
    requires Cheapest(b, t, final, ss, dynamicLen, staticLen)
    ensures |Contents(b)| == (if b.DynamicBlock? then dynamicLen else staticLen) && Contents(b) <= ss
    ensures Final(b) == final && !b.FlushBlock?
  {
  }

  /** b is the block outblock() is to send: the first symbols of ss, statically or with
      the trees t, whichever is cheaper for each symbol. */
  ghost predicate Cheapest(b: Block, t: Trees, final: bool, ss: seq<Sym>, dynamicLen: nat, staticLen: nat) {
    && !b.FlushBlock? && b.final == final && (b.DynamicBlock? ==> b.trees == t)
    && dynamicLen <= |ss| && staticLen <= |ss| && b.syms == ss[..if b.DynamicBlock? then dynamicLen else staticLen]
    && Sendable(t) && AllEncodable(CodesOf(t), ss[..dynamicLen]) && AllEncodable(StaticCodes(), ss[..staticLen])
    && (b.DynamicBlock? <==>
          |StaticBlockBits(final, ss[..staticLen])| * dynamicLen > |DynamicBlockBits(final, t, ss[..dynamicLen])| * staticLen)
  }

  lemma CheapestIs(b: Block, t: Trees, final: bool, ss: seq<Sym>, dynamicLen: nat, staticLen: nat, dynamic: bool)
    requires dynamicLen <= |ss| && staticLen <= |ss|
    requires Sendable(t) && AllEncodable(CodesOf(t), ss[..dynamicLen]) && AllEncodable(StaticCodes(), ss[..staticLen])
    requires b == if dynamic then DynamicBlock(final, t, ss[..dynamicLen]) else StaticBlock(final, ss[..staticLen])
    requires dynamic <==>
      |StaticBlockBits(final, ss[..staticLen])| * dynamicLen > |DynamicBlockBits(final, t, ss[..dynamicLen])| * staticLen
    ensures Cheapest(b, t, final, ss, dynamicLen, staticLen)
    ensures |Contents(b)| == (if dynamic then dynamicLen else staticLen)
  {
  }

  lemma PlanLengths(p: Plan)
    requires PlanSizes(p)
    ensures p.hlit <= |p.len1| && p.hdist <= |p.len2|
  {
  }

  lemma AsDynamic(final: bool, t: Trees, ss: seq<Sym>)
    requires Sendable(t) && AllEncodable(CodesOf(t), ss)
    ensures var b := DynamicBlock(final, t, ss);
      BlockOk(b) && BlockAsBits(b) == DynamicBlockBits(final, t, ss) && Contents(b) == ss
  {
  }

  lemma AsStatic(final: bool, ss: seq<Sym>)
    requires AllEncodable(StaticCodes(), ss)
    ensures var b := StaticBlock(final, ss);
      BlockOk(b) && BlockAsBits(b) == StaticBlockBits(final, ss) && Contents(b) == ss
  {
  }

  ghost predicate OneMore(was: seq<Block>, bs: seq<Block>) {
    |bs| == |was| + 1 && bs[..|was|] == was
  }

  function Last(bs: seq<Block>): Block {
    if bs == [] then FlushBlock(0) else bs[|bs| - 1]
  }

  lemma BufferedSyms(bs: seq<Block>, ss: seq<Sym>)
    requires Playable(EMPTY, SymsOf(bs) + ss)
    ensures forall i :: 0 <= i < |ss| ==> BlockSym(ss[i])
  {
    hide Playable, BlockSym;
    var all := SymsOf(bs) + ss;
    PlayableSyms(EMPTY, all);
    forall i | 0 <= i < |ss|
      ensures BlockSym(ss[i])
    {
      assert all[|SymsOf(bs)| + i] == ss[i];
    }
  }

  lemma StaticSize(final: bool, ss: seq<Sym>)
    requires AllEncodable(StaticCodes(), ss) && AllEncodable(StaticFull(), ss)
    requires SymsBits(StaticFull(), ss) == SymsBits(StaticCodes(), ss)
    ensures Encodable(StaticFull(), LitLenSym(EOB))
    ensures |StaticBlockBits(final, ss)| == 3 + |SymsBits(StaticFull(), ss)| + |SymBits(StaticFull(), LitLenSym(EOB))|
  {
    EobCode();
    hide SymsBits, AllEncodable, StaticFull, StaticCodes, SymBits, CodeBits, Encodable;
  }

  lemma Follows(kind: Kind, bs: seq<Block>, b: Block)
    requires AllOk(bs) && BlockOk(b) && !b.FlushBlock?
    requires Playable(EMPTY, SymsOf(bs) + Contents(b)) && Played(EMPTY, SymsOf(bs) + Contents(b)).mode.AtSym?
    ensures CanFollow(kind, bs, b)
  {
    hide Playable, Played, BlockOk, SymsOf, AllOk, StreamBits;
  }

  lemma BlockFollows(kind: Kind, bs: seq<Block>, b: Block, ss: seq<Sym>, p: Player)
    requires Legal(kind, bs) && Open(bs) && BlockOk(b) && !b.FlushBlock?
    requires Playable(EMPTY, SymsOf(bs) + ss) && Played(EMPTY, SymsOf(bs) + ss) == p
    requires |Contents(b)| <= |ss| && Contents(b) == ss[..|Contents(b)|]
    requires Playable(EMPTY, SymsOf(bs) + Contents(b)) && Played(EMPTY, SymsOf(bs) + Contents(b)).mode.AtSym?
    ensures Legal(kind, bs + [b]) && StreamBits(kind, bs + [b]) == StreamBits(kind, bs) + BlockAsBits(b)
    ensures !Final(b) ==> Open(bs + [b])
    ensures Playable(EMPTY, SymsOf(bs + [b]) + ss[|Contents(b)|..])
    ensures Played(EMPTY, SymsOf(bs + [b]) + ss[|Contents(b)|..]) == p
    ensures OneMore(bs, bs + [b]) && Last(bs + [b]) == b
  {
    hide *;
    LegalOk(kind, bs);
    Follows(kind, bs, b);
    AddBlock(kind, bs, b);
    assert SymsOf(bs) + Contents(b) + ss[|Contents(b)|..] == SymsOf(bs) + ss;
    LastIs(bs, b);
  }

  lemma EobCode()
    ensures Encodable(StaticFull(), LitLenSym(EOB))
    ensures EOB < |StaticCodes().lit| && StaticCodes().lit[EOB] > 0
    ensures SymBits(StaticFull(), LitLenSym(EOB)) == CodeBits(StaticCodes().lit, EOB)
  {
  }

  lemma SmallLens(p: Plan)
    requires PlanSizes(p) && Sendable(TreesOf(p))
    ensures forall i :: 0 <= i < 19 ==> p.len3[i] < 8
  {
  }

  lemma PlanEob(p: Plan)
    requires PlanSizes(p) && Sendable(TreesOf(p))
    ensures EOB < |TreesOf(p).lit| && TreesOf(p).lit[EOB] > 0
    ensures Encodable(FullCodes(p), LitLenSym(EOB))
    ensures SymBits(FullCodes(p), LitLenSym(EOB)) == CodeBits(TreesOf(p).lit, EOB)
  {
    hide CodeBits, Complete, Spells, AllEncodable, MapAt;
    CodeOfPrefix(p.len1, p.hlit, EOB);
  }

  lemma Regroup2(a: seq<bool>, b: seq<bool>, c: seq<bool>)
    ensures a + b + c == a + (b + c)
  {
  }

  lemma LenLenNone(cl: seq<CodeLen>)
    requires |cl| == 19
    ensures LenLenBits(cl, 0) == []
  {
  }

  lemma LenLenNext(cl: seq<CodeLen>, i: nat)
    requires |cl| == 19 && i < 19
    ensures LenLenBits(cl, i + 1) == LenLenBits(cl, i) + BitsOf(cl[MapAt(i)], 3)
  {
  }

  lemma FitsIsBlockSym(p: Player, s: Sym)
    requires Fits(p, s)
    ensures BlockSym(s)
  {
    Inflate.ExtraBitsSmall();
    assert |DISTCODES| == 30;
    hide Pow2, LENCODES, DISTCODES;
  }

  /** Every symbol that may be sent is one the trees have room for. */
  lemma PlayableSyms(p: Player, ss: seq<Sym>)
    requires Playable(p, ss)
    ensures forall i :: 0 <= i < |ss| ==> BlockSym(ss[i])
  {
    hide Fits, After, BlockSym, Played, Playable;
    forall i | 0 <= i < |ss|
      ensures BlockSym(ss[i])
    {
      Prefix(p, ss, i);
      FitsIsBlockSym(Played(p, ss[..i]), ss[i]);
    }
  }

  lemma StartFacts(k: Kind, buf: seq<Sym>)
    requires |buf| == SYMLIMIT
    ensures Written([], [] + [], 0, 0) && Ring(buf, 0, []) && Open([]) && Checksum(k, []) == Initial(k)
  {
    var nothing: seq<byte> := [];
    assert nothing + nothing == nothing;
  }

  /** The static codes, built once. */
  method StaticTrees() returns (h: HufTrees)
    ensures Built(h) && h.lens == StaticFull()
  {
    hide CodeBits, Verdict;
    var l := new CodeLen[288](i requires 0 <= i < 288 =>
      if i < 144 then 8 else if i < 256 then 9 else if i < 280 then 7 else 8);
    var d := new CodeLen[30](_ => 5);
    var lc, dc := new int[288](_ => 0), new int[30](_ => 0);
    var longest := HufCodes(l, lc, 288);
    longest := HufCodes(d, dc, 30);
    assert l[..288] == Inflate.StaticLitLen() && d[..30] == ShortDist();
    assert forall i :: 0 <= i < 288 ==> lc[i] == Val(CodeBits(Inflate.StaticLitLen(), i));
    assert forall i :: 0 <= i < 30 ==> dc[i] == Val(CodeBits(ShortDist(), i));
    hide Inflate.StaticLitLen, ShortDist;
    h := HufTrees(StaticFull(),
                  seq(288, i requires 0 <= i < 288 == lc.Length && (forall k :: 0 <= k < 288 ==> lc[k] >= 0) reads lc => lc[i]),
                  seq(30, i requires 0 <= i < 30 == dc.Length && (forall k :: 0 <= k < 30 ==> dc[k] >= 0) reads dc => dc[i]), []);
  }

  lemma ShortNumber(h: HufTrees, s: Sym)
    requires Built(h) && Encodable(h.lens, s) && Short(s)
    ensures NumberOf(h, s).1 <= 15
  {
    hide CodeBits, Pow2;
  }

  /** symsize: how many bits writesym() would send. */
  function SymSize(s: Sym, h: HufTrees): (n: nat)
    requires Built(h) && Encodable(h.lens, s)
    ensures n == |SymBits(h.lens, s)|
  {
    match s
    case LitLenSym(c) => h.lens.lit[c]
    case DistSym(c) => h.lens.dist[c]
    case CodeLenSym(c) => h.lens.lens[c]
    case ExtraBits(_, k) => k
  }

  method SizeSpelling(spelling: seq<Sym>, h: HufTrees) returns (size: nat)
    requires Built(h) && AllEncodable(h.lens, spelling)
    ensures size == |SymsBits(h.lens, spelling)|
  {
    hide Built, Encodable, SymBits;
    size := 0;
    assert SymsBits(h.lens, spelling[..0]) == [];
    for i := 0 to |spelling|
      invariant size == |SymsBits(h.lens, spelling[..i])|
    {
      TakeOne(h.lens, spelling, i);
      size := size + SymSize(spelling[i], h);
    }
    assert spelling[..|spelling|] == spelling;
  }
}

/** Two places where the source relies on its input to stay inside an array: exactly when
    a stream does not, and that there are such streams. None of them is one that the
    compressor writes. */
module SourceArrays {
  import opened Bits
  import opened Canonical
  import opened DecodeTable
  import opened Checksums
  import opened DeflateCodes
  import opened Inflate
  import opened Symbols
  import opened SymbolCoding
  import opened CodeLengths
  import opened TreeCoding
  import opened Blocks

  // ---- distcodes, of 30 records

  /** The table is left exactly when the distance code is 30 or above. */
  lemma BeyondExactly(st: State, buf: seq<bool>)
    requires Good(st)
    ensures Step(st, buf) == Fail(BeyondTables) <==> st.phase.GotDistSym? && st.sym >= 30
  {
    hide Complete, Checksum, Reduced, Field, CopyMatch, DecodeSym, TreeSizes, KraftTo, GotDistSymStep;
    if st.phase.GotDistSym? {
      BeyondDist(st, buf);
    }
  }

  lemma BeyondDist(st: State, buf: seq<bool>)
    requires |st.before| == DWINSIZE
    ensures GotDistSymStep(st, buf) == Fail(BeyondTables) <==> st.sym >= 30
  {
    NoFarther(st.sym, buf);
    hide DISTCODES, Field, CopyMatch;
  }

  /** No record reaches back beyond the window. */
  lemma NoFarther(c: nat, buf: seq<bool>)
    ensures |DISTCODES| == 30
    ensures c < 30 ==>
      var r := DISTCODES[c]; |buf| >= r.extrabits ==> r.min + Field(buf, r.extrabits) <= DWINSIZE
  {
    if c < 30 && |buf| >= DISTCODES[c].extrabits {
      RecordEnds(c);
      hide DISTCODES, Pow2;
      assert Field(buf, DISTCODES[c].extrabits) < Pow2(DISTCODES[c].extrabits);
    }
  }

  lemma RecordEnds(c: nat)
    requires c < 30
    ensures |DISTCODES| == 30 && DISTCODES[c].min + Pow2(DISTCODES[c].extrabits) <= DWINSIZE + 1
  {
    Powers();
    hide Pow2;
  }

  /** Codes that have such a symbol get there. */
  lemma BeyondReached(st: State, t: Codes, c: nat, rest: seq<bool>)
    requires Good(st) && st.phase.GotLen? && Uses(st, t) && 30 <= c < |t.dist| && t.dist[c] > 0 && rest != []
    ensures Run(st, CodeBits(t.dist, c) + rest).err == Bad(BeyondTables)
  {
    hide *;
    DistSymDecodes(st, t, c, rest);
    var s := st.(phase := GotDistSym, sym := c);
    BeyondExactly(s, rest);
    RunOnce(s, rest);
  }

  /** The static codes have two. */
  lemma BeyondInStaticBlock(st: State, final: bool, c: nat, rest: seq<bool>)
    requires Good(st) && st.phase.OutsideBlk? && 30 <= c < 32 && rest != []
    ensures Run(st, HeaderBits(final, 1) + (CodeBits(StaticLitLen(), 257) + (CodeBits(StaticDist(), c) + rest))).err
            == Bad(BeyondTables)
  {
    StaticHas(c);
    hide *;
    var t := StaticCodes();
    var s := AfterHeader(st, final, 1);
    var tail := CodeBits(StaticDist(), c) + rest;
    HeaderDecodes(st, final, 1, CodeBits(StaticLitLen(), 257) + tail);
    StaticUsed(st, final);
    LitLenDecodes(s, t, 257, tail);
    FirstLength(s);
    BeyondReached(LitLenStep(s, 257), t, c, rest);
  }

  lemma StaticHas(c: nat)
    requires c < 32
    ensures StaticCodes().lit == StaticLitLen() && StaticCodes().dist == StaticDist()
    ensures StaticLitLen()[257] > 0 && StaticDist()[c] > 0 && EOB == 256
  {
  }

  lemma StaticUsed(st: State, final: bool)
    ensures var s := AfterHeader(st, final, 1); s.phase.InBlk? && Uses(s, StaticCodes())
  {
  }

  lemma FirstLength(st: State)
    ensures var s := LitLenStep(st, 257);
      s.phase.GotLen? && s.litlen == st.litlen && s.dist == st.dist && forall t :: Uses(st, t) ==> Uses(s, t)
  {
  }

  // ---- lengths[], of 286 + 32 entries

  const LENGTHS: nat := 286 + 32

  /** The sizes at the front of a dynamic block say how many lengths there will be: too many
      exactly when the two fields add up to more than 60. */
  lemma SizesFit(st: State, buf: seq<bool>)
    requires Good(st) && st.phase.TreesHdr? && |buf| >= 14
    ensures var r := Step(st, buf);
      && r.Next? && r.st.phase.TreesLenLen?
      && (r.st.hlit + r.st.hdist <= LENGTHS <==> Field(buf, 5) + Field(buf[5..], 5) <= 60)
  {
    hide Complete, Checksum, Reduced, Field;
  }

  ghost predicate KeepsSizes(st: State, r: StepResult) {
    r.Next? ==>
      && r.st.hlit == st.hlit && r.st.hdist == st.hdist && |r.st.lengths| <= st.hlit + st.hdist
      && (r.st.phase.InBlk? ==> |r.st.lengths| == st.hlit + st.hdist)
  }

  /** The sizes stay, no more lengths are stored than they say, and just as many before
      the trees come into force. */
  lemma AsManyLengths(st: State, buf: seq<bool>)
    requires Good(st) && (st.phase.TreesLenLen? || st.phase.TreesLen? || st.phase.TreesLenRep?)
    ensures KeepsSizes(st, Step(st, buf))
  {
    hide Complete, Checksum, Reduced, TreesLenLenStep, TreesLenStep, TreesLenRepStep;
    if st.phase.TreesLenLen? {
      LenLenKeeps(st, buf);
    } else if st.phase.TreesLen? {
      LenKeeps(st, buf);
    } else {
      LenRepKeeps(st, buf);
    }
  }

  lemma LenLenKeeps(st: State, buf: seq<bool>)
    requires st.phase.TreesLenLen? && TreeSizes(st) && st.lenptr < st.hclen
    ensures KeepsSizes(st, TreesLenLenStep(st, buf))
  {
    hide Complete, Field, TableError;
  }

  lemma LenKeeps(st: State, buf: seq<bool>)
    requires st.phase.TreesLen? && TreeSizes(st)
    ensures KeepsSizes(st, TreesLenStep(st, buf))
  {
    hide Complete, DecodeSym, TableError;
  }

  lemma LenRepKeeps(st: State, buf: seq<bool>)
    requires st.phase.TreesLenRep? && TreeSizes(st)
    ensures KeepsSizes(st, TreesLenRepStep(st, buf))
  {
    hide Field, Repeat;
  }

  /** One symbol for each length. */
  function Plain(lens: seq<CodeLen>): (ss: seq<Sym>)
    ensures |ss| == |lens|
  {
    if lens == [] then [] else Plain(lens[..|lens| - 1]) + [CodeLenSym(lens[|lens| - 1])]
  }

  lemma {:induction false} PlainSpells(lens: seq<CodeLen>, t: Codes)
    requires forall i :: 0 <= i < |lens| ==> lens[i] < |t.lens| && t.lens[lens[i]] > 0
    ensures Spells(Plain(lens), lens) && AllEncodable(t, Plain(lens))
  {
    hide Spells;
    if lens == [] {
      NothingSpelt();
    } else {
      var n := |lens| - 1;
      PlainSpells(lens[..n], t);
      SpellOne(Plain(lens[..n]), lens[..n], lens[n]);
      assert lens[..n] + [lens[n]] == lens;
    }
  }

  lemma NothingSpelt()
    ensures Spells([], [])
  {
  }

  /** Codes of two bits for the lengths that the static trees use. */
  const TWO_BITS: seq<CodeLen> := [0, 0, 0, 0, 0, 2, 0, 2, 2, 2, 0, 0, 0, 0, 0, 0, 0, 0, 0]

  lemma {:induction false} ZerosAdd(ls: seq<CodeLen>, a: nat, b: nat)
    requires a <= b <= |ls| && forall i :: a <= i < b ==> ls[i] == 0
    ensures KraftTo(ls, b) == KraftTo(ls, a)
  {
    if a < b {
      ZerosAdd(ls, a, b - 1);
    }
  }

  lemma TwoBitsComplete()
    ensures Complete(TWO_BITS)
  {
    Powers();
    assert KraftTo(TWO_BITS, 0) == 0 && Pow2(15) == 4 * Pow2(13);
    hide Pow2, KraftTo, Complete;
    ZerosAdd(TWO_BITS, 0, 5);
    KraftRun(TWO_BITS, 5, 6, 2);
    ZerosAdd(TWO_BITS, 6, 7);
    KraftRun(TWO_BITS, 7, 10, 2);
    ZerosAdd(TWO_BITS, 10, 19);
    CompleteByKraft(TWO_BITS);
  }

  /** The static trees, all 288 and 32 lengths of them, sent as a dynamic block's own. */
  function WideTrees(): Trees {
    Trees(StaticLitLen(), StaticDist(), TWO_BITS, 10, Plain(StaticLitLen() + StaticDist()))
  }

  lemma WideReadable()
    ensures Readable(WideTrees())
  {
    StaticComplete();
    TwoBitsComplete();
    hide Complete, Spells, Plain;
    PlainSpells(StaticLitLen() + StaticDist(), CodesOf(WideTrees()));
    assert forall i :: 10 <= i < 19 ==> TWO_BITS[MapAt(i)] == 0;
  }

  /** The decompressor reads all their lengths, two more than there is room for, and goes on. */
  lemma TooManyLengths(st: State, final: bool)
    requires Good(st) && st.phase.OutsideBlk?
    ensures var t := WideTrees();
      && |t.cl| == 19 && t.hclen <= 19 && AllEncodable(CodesOf(t), t.spelling)
      && var o := Run(st, HeaderBits(final, 2) + (SizeBits(t) + LenLenBits(t.cl, t.hclen) + SymsBits(CodesOf(t), t.spelling) + [false]));
      o.err == NoError && o.st.phase.InBlk? && |o.st.lengths| == LENGTHS + 2
  {
    WideReadable();
    hide *;
    var t := WideTrees();
    ReadableSizes(t);
    SpellingFits(t);
    var s := AfterHeader(st, final, 2);
    AfterHeaderIs(st, final);
    HeaderDecodes(st, final, 2, SizeBits(t) + LenLenBits(t.cl, t.hclen) + SymsBits(CodesOf(t), t.spelling) + [false]);
    TreesDecode(s, t, [false]);
    WideIn(s);
    OneBitWaits(TreesIn(s, t));
  }

  lemma WideIn(st: State)
    requires Readable(WideTrees())
    ensures WideTrees().hclen >= 4 && AllListable(WideTrees().spelling)
    ensures var s := TreesIn(st, WideTrees()); s.phase.InBlk? && |s.lengths| == LENGTHS + 2 && s.litlen == StaticLitLen()
  {
    hide Complete, AllEncodable, AllListable, Listed, AfterTree, Plain;
  }

  /** No literal code has a single bit. */
  lemma OneBitWaits(st: State)
    requires Good(st) && st.phase.InBlk? && st.litlen == StaticLitLen()
    ensures Run(st, [false]) == Outcome(st, [false], NoError)
  {
    hide Complete, Checksum, Reduced, CodeBits, Run;
    RunOnce(st, [false]);
  }
}

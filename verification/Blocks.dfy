/** Whole blocks as bits (section 3.2.3 of RFC 1951), and the decompressor
    reading them back. */
module Blocks {
  import opened Bits
  import opened Canonical
  import opened Checksums
  import opened DeflateCodes
  import opened DecodeTable
  import opened Inflate
  import opened Symbols
  import opened SymbolCoding
  import opened CodeLengths
  import opened TreeCoding

  /** The three bits before every block. */
  function HeaderBits(final: bool, btype: nat): (b: seq<bool>)
    ensures |b| == 3
  {
    [final] + BitsOf(btype, 2)
  }

  function Begun(st: State, final: bool): State {
    if final then st.(lastblock := true) else st
  }

  lemma HeaderField(final: bool, btype: nat, rest: seq<bool>)
    requires btype < 4
    ensures var b := HeaderBits(final, btype) + rest;
      b[0] == final && Field(b[1..], 2) == btype && b[3..] == rest && |b| == 3 + |rest|
  {
    Powers();
    hide Pow2, Field, BitsOf;
    var b := HeaderBits(final, btype) + rest;
    assert b[1..] == BitsOf(btype, 2) + rest;
    FieldKnown(btype, 2, rest);
    assert b[1..][2..] == b[3..];
  }

  /** After a stored block's header the decompressor skips to a byte boundary. */
  function AfterHeader(st: State, final: bool, btype: nat): State
    requires btype < 3
  {
    if btype == 0 then Begun(st, final).(phase := UncompLen)
    else if btype == 1 then Begun(st, final).(phase := InBlk, litlen := StaticLitLen(), dist := SomeDist(StaticDist()))
    else Begun(st, final).(phase := TreesHdr)
  }

  /** What is left after skipping to a byte boundary, the end being on one. */
  function Aligned(b: seq<bool>): seq<bool> {
    b[|b| % 8..]
  }

  lemma HeaderDecodes(st: State, final: bool, btype: nat, rest: seq<bool>)
    requires Good(st) && st.phase.OutsideBlk? && btype < 3
    ensures Good(AfterHeader(st, final, btype))
    ensures Run(st, HeaderBits(final, btype) + rest) ==
      Run(AfterHeader(st, final, btype), if btype == 0 then Aligned(rest) else rest)
  {
    hide Complete, Checksum, Reduced, Field, Run, HeaderBits, StaticLitLen, StaticDist;
    var b := HeaderBits(final, btype) + rest;
    HeaderField(final, btype, rest);
    RunOne(st, b);
    assert b[3 + |rest| % 8..] == b[3..][|rest| % 8..];
  }

  // ---- Static blocks

  function StaticCodes(): Codes {
    Codes(StaticLitLen(), StaticDist(), [])
  }

  /** The state after a block's symbols and its end-of-block code. */
  function Closed(st: State, ss: seq<Sym>): State
    requires InSymbols(st) && Playable(PlayerOf(st), ss)
  {
    AfterBlock(AfterSyms(st, ss))
  }

  function BlockBits(t: Codes, ss: seq<Sym>): seq<bool>
    requires AllEncodable(t, ss) && EOB < |t.lit| && t.lit[EOB] > 0
  {
    SymsBits(t, ss) + CodeBits(t.lit, EOB)
  }

  /** The symbols of a block that ends between two literals or matches. */
  lemma ContentsDecode(st: State, t: Codes, ss: seq<Sym>, rest: seq<bool>)
    requires Good(st) && st.phase.InBlk? && InSymbols(st) && Uses(st, t)
    requires Playable(PlayerOf(st), ss) && Played(PlayerOf(st), ss).mode.AtSym?
    requires AllEncodable(t, ss) && EOB < |t.lit| && t.lit[EOB] > 0
    ensures Good(Closed(st, ss)) && Run(st, BlockBits(t, ss) + rest) == Run(Closed(st, ss), rest)
  {
    hide Good, Run, CodeBits, SymsBits, AfterSyms, Playable, Played, Uses;
    var eob := CodeBits(t.lit, EOB);
    assert |eob| > 0;
    SymsDecode(st, t, ss, eob + rest);
    UsesStays(st, AfterSyms(st, ss), t);
    EobDecodes(AfterSyms(st, ss), t, rest);
    assert BlockBits(t, ss) + rest == SymsBits(t, ss) + (eob + rest);
  }

  function StaticBlockBits(final: bool, ss: seq<Sym>): seq<bool>
    requires AllEncodable(StaticCodes(), ss)
  {
    HeaderBits(final, 1) + BlockBits(StaticCodes(), ss)
  }

  function AfterStatic(st: State, final: bool, ss: seq<Sym>): State
    requires |st.before| == DWINSIZE && Playable(Player(st.output, AtSym), ss)
  {
    Closed(AfterHeader(st, final, 1), ss)
  }

  lemma StaticDecodes(st: State, final: bool, ss: seq<Sym>, rest: seq<bool>)
    requires Good(st) && st.phase.OutsideBlk? && |st.before| == DWINSIZE
    requires Playable(Player(st.output, AtSym), ss) && Played(Player(st.output, AtSym), ss).mode.AtSym?
    requires AllEncodable(StaticCodes(), ss)
    ensures Good(AfterStatic(st, final, ss))
    ensures Run(st, StaticBlockBits(final, ss) + rest) == Run(AfterStatic(st, final, ss), rest)
  {
    hide Good, Run, HeaderBits, BlockBits, Playable, Played, Closed;
    var b := BlockBits(StaticCodes(), ss);
    HeaderDecodes(st, final, 1, b + rest);
    ContentsDecode(AfterHeader(st, final, 1), StaticCodes(), ss, rest);
    assert StaticBlockBits(final, ss) + rest == HeaderBits(final, 1) + (b + rest);
  }

  // ---- Dynamic blocks

  /** A block's own trees: the lengths sent, those of the code-length alphabet,
      how many of these are sent, and the symbols that spell the lengths out. */
  datatype Trees = Trees(lit: seq<CodeLen>, dist: seq<CodeLen>, cl: seq<CodeLen>, hclen: nat, spelling: seq<Sym>)

  function CodesOf(t: Trees): Codes {
    Codes(t.lit, t.dist, t.cl)
  }

  /** The decompressor takes the trees: it also reads two lengths more of each kind than
      there are symbols. */
  ghost predicate Readable(t: Trees) {
    && 257 <= |t.lit| <= 288 && 1 <= |t.dist| <= 32 && 4 <= t.hclen <= 19 && |t.cl| == 19
    && (forall i :: 0 <= i < 19 ==> t.cl[i] < 8) && (forall i :: t.hclen <= i < 19 ==> t.cl[MapAt(i)] == 0)
    && Complete(t.cl) && Complete(t.lit) && (t.dist == [0] || Complete(t.dist))
    && Spells(t.spelling, t.lit + t.dist) && AllEncodable(CodesOf(t), t.spelling)
  }

  /** The trees can be sent and are what the decompressor insists on. */
  ghost predicate Sendable(t: Trees) {
    Readable(t) && |t.lit| <= 286 && |t.dist| <= 30 && t.lit[EOB] > 0
  }

  function SizeBits(t: Trees): (b: seq<bool>)
    requires |t.lit| >= 257 && |t.dist| >= 1 && t.hclen >= 4
    ensures |b| == 14
  {
    BitsOf(|t.lit| - 257, 5) + BitsOf(|t.dist| - 1, 5) + BitsOf(t.hclen - 4, 4)
  }

  ghost function DynamicBlockBits(final: bool, t: Trees, ss: seq<Sym>): seq<bool>
    requires Sendable(t) && AllEncodable(CodesOf(t), ss)
  {
    HeaderBits(final, 2) + SizeBits(t) + LenLenBits(t.cl, t.hclen) + SymsBits(CodesOf(t), t.spelling)
    + BlockBits(CodesOf(t), ss)
  }

  function Sized(st: State, t: Trees): State
    requires |t.lit| >= 257 && |t.dist| >= 1 && t.hclen >= 4
  {
    st.(hlit := |t.lit|, hdist := |t.dist|, hclen := t.hclen, lenptr := 0, lenlen := Repeat(0, 19), lengths := [],
        phase := TreesLenLen)
  }

  lemma SizeFields(t: Trees, rest: seq<bool>)
    requires 257 <= |t.lit| <= 288 && 1 <= |t.dist| <= 32 && 4 <= t.hclen <= 19
    ensures var b := SizeBits(t) + rest;
      && Field(b, 5) == |t.lit| - 257 && Field(b[5..], 5) == |t.dist| - 1 && Field(b[10..], 4) == t.hclen - 4
      && b[14..] == rest && |b| == 14 + |rest|
  {
    Powers();
    hide Pow2, Field, BitsOf;
    var x, y, z := BitsOf(|t.lit| - 257, 5), BitsOf(|t.dist| - 1, 5), BitsOf(t.hclen - 4, 4);
    var b := SizeBits(t) + rest;
    assert b == x + (y + (z + rest)) && b[5..] == y + (z + rest) && b[10..] == z + rest && b[14..] == rest;
    FieldKnown(|t.lit| - 257, 5, y + (z + rest));
    FieldKnown(|t.dist| - 1, 5, z + rest);
    FieldKnown(t.hclen - 4, 4, rest);
  }

  lemma SizesStep(st: State, t: Trees, b: seq<bool>)
    requires Good(st) && st.phase.TreesHdr? && |b| >= 14 && |t.lit| >= 257 && |t.dist| >= 1 && t.hclen >= 4
    requires Field(b, 5) == |t.lit| - 257 && Field(b[5..], 5) == |t.dist| - 1 && Field(b[10..], 4) == t.hclen - 4
    ensures Step(st, b) == Next(Sized(st, t), 14)
  {
    hide Complete, Checksum, Reduced, Field, Repeat;
  }

  lemma SizesDecode(st: State, t: Trees, rest: seq<bool>)
    requires Good(st) && st.phase.TreesHdr?
    requires 257 <= |t.lit| <= 288 && 1 <= |t.dist| <= 32 && 4 <= t.hclen <= 19
    ensures Good(Sized(st, t)) && Run(st, SizeBits(t) + rest) == Run(Sized(st, t), rest)
  {
    hide Good, Step, Run, SizeBits, Sized, Field;
    SizeFields(t, rest);
    SizesStep(st, t, SizeBits(t) + rest);
    RunOne(st, SizeBits(t) + rest);
  }

  /** The state while the first n code-length code lengths are in. */
  function PartLoaded(st: State, t: Trees, n: nat): State
    requires |t.lit| >= 257 && |t.dist| >= 1 && t.hclen >= 4 && |t.cl| == 19 && n <= 19
  {
    Sized(st, t).(lenptr := n, lenlen := Loaded(t.cl, n))
  }

  lemma LenLenStepIs(st: State, t: Trees, n: nat, b: seq<bool>)
    requires Readable(t) && n < t.hclen && Good(PartLoaded(st, t, n)) && |b| >= 3 && Field(b, 3) == t.cl[MapAt(n)]
    ensures n + 1 < t.hclen ==> Step(PartLoaded(st, t, n), b) == Next(PartLoaded(st, t, n + 1), 3)
    ensures n + 1 == t.hclen ==> Step(PartLoaded(st, t, n), b) == Next(TreesBegun(st, t), 3)
  {
    hide Complete, Checksum, Reduced, Field, LENLENMAP, Repeat, TableError, Spells, AllEncodable;
    LoadedAll(t.cl, t.hclen);
  }

  lemma LenLenOne(st: State, t: Trees, n: nat, rest: seq<bool>)
    requires Readable(t) && n < t.hclen && Good(PartLoaded(st, t, n))
    ensures var v := BitsOf(t.cl[MapAt(n)], 3);
      && (n + 1 < t.hclen ==>
            Good(PartLoaded(st, t, n + 1)) && Run(PartLoaded(st, t, n), v + rest) == Run(PartLoaded(st, t, n + 1), rest))
      && (n + 1 == t.hclen ==>
            Good(TreesBegun(st, t)) && Run(PartLoaded(st, t, n), v + rest) == Run(TreesBegun(st, t), rest))
  {
    assert t.cl[MapAt(n)] < Pow2(3) by { Powers(); }
    hide Good, Step, Field, Run, BitsOf, Pow2, PartLoaded, TreesBegun, Readable, MapAt;
    FieldKnown(t.cl[MapAt(n)], 3, rest);
    LenLenStepIs(st, t, n, BitsOf(t.cl[MapAt(n)], 3) + rest);
    RunOne(PartLoaded(st, t, n), BitsOf(t.cl[MapAt(n)], 3) + rest);
  }

  function TreesBegun(st: State, t: Trees): State
    requires |t.lit| >= 257 && |t.dist| >= 1 && t.hclen >= 4
  {
    Sized(st, t).(lenptr := 0, lenlen := t.cl, phase := TreesLen)
  }

  lemma {:induction false} PartDecodes(st: State, t: Trees, n: nat, rest: seq<bool>)
    requires Readable(t) && n < t.hclen && Good(Sized(st, t))
    ensures Good(PartLoaded(st, t, n))
    ensures Run(Sized(st, t), LenLenBits(t.cl, n) + rest) == Run(PartLoaded(st, t, n), rest)
    decreases n
  {
    hide Good, Run, Readable, BitsOf;
    assert Readable(t) ==> |t.lit| >= 257 && |t.dist| >= 1 && t.hclen >= 4 && |t.cl| == 19 && t.hclen <= 19 by { ReadableSizes(t); }
    if n == 0 {
      assert LenLenBits(t.cl, 0) + rest == rest;
      assert PartLoaded(st, t, 0) == Sized(st, t);
    } else {
      hide PartLoaded;
      var last := BitsOf(t.cl[MapAt(n - 1)], 3);
      PartDecodes(st, t, n - 1, last + rest);
      LenLenOne(st, t, n - 1, rest);
      assert LenLenBits(t.cl, n) + rest == LenLenBits(t.cl, n - 1) + (last + rest);
    }
  }

  lemma ReadableSizes(t: Trees)
    requires Readable(t)
    ensures 257 <= |t.lit| <= 288 && 1 <= |t.dist| <= 32 && 4 <= t.hclen <= 19 && |t.cl| == 19
  {
  }

  lemma LenLensDecode(st: State, t: Trees, rest: seq<bool>)
    requires Readable(t) && Good(Sized(st, t))
    ensures Good(TreesBegun(st, t)) && Run(Sized(st, t), LenLenBits(t.cl, t.hclen) + rest) == Run(TreesBegun(st, t), rest)
  {
    ReadableSizes(t);
    hide Good, Run, Readable, BitsOf, PartLoaded, Sized, TreesBegun;
    var n := t.hclen - 1;
    var last := BitsOf(t.cl[MapAt(n)], 3);
    PartDecodes(st, t, n, last + rest);
    LenLenOne(st, t, n, rest);
    assert LenLenBits(t.cl, t.hclen) + rest == LenLenBits(t.cl, n) + (last + rest);
  }

  /** The state once the block's own trees are in force. */
  function TreesIn(st: State, t: Trees): State
    requires |t.lit| >= 257 && |t.dist| >= 1 && t.hclen >= 4 && AllListable(t.spelling)
  {
    AfterTree(TreesBegun(st, t), t.spelling)
      .(litlen := t.lit, dist := if t.dist == [0] then NoDist else SomeDist(t.dist), phase := InBlk)
  }

  lemma TreesEnd(st: State, t: Trees, rest: seq<bool>)
    requires Readable(t) && rest != []
    requires Good(AfterTree(TreesBegun(st, t), t.spelling))
    ensures Good(TreesIn(st, t)) && Uses(TreesIn(st, t), CodesOf(t))
    ensures Run(AfterTree(TreesBegun(st, t), t.spelling), rest) == Run(TreesIn(st, t), rest)
  {
    hide Complete, Checksum, Reduced, Run, AfterTree, AllEncodable, AllListable, Listed, DecodeSym, TreesSymStep;
    var m := AfterTree(TreesBegun(st, t), t.spelling);
    assert m.lengths == t.lit + t.dist;
    assert m.lengths[..m.hlit] == t.lit && m.lengths[m.hlit..] == t.dist;
    RunOne(m, rest);
  }

  /** The trees are read back and put in force. */
  lemma TreesDecode(st: State, t: Trees, rest: seq<bool>)
    requires Readable(t) && Good(st) && st.phase.TreesHdr? && rest != []
    ensures Good(TreesIn(st, t)) && Uses(TreesIn(st, t), CodesOf(t))
    ensures Run(st, SizeBits(t) + LenLenBits(t.cl, t.hclen) + SymsBits(CodesOf(t), t.spelling) + rest) == Run(TreesIn(st, t), rest)
  {
    ReadableSizes(t);
    SpellingFits(t);
    var x, y, z := SizeBits(t), LenLenBits(t.cl, t.hclen), SymsBits(CodesOf(t), t.spelling);
    BegunTrees(st, t);
    hide Good, Run, Readable, SizeBits, LenLenBits, SymsBits, AfterTree, Uses, Sized, TreesBegun, TreesIn, AllListable, Listed;
    SizesDecode(st, t, y + (z + rest));
    LenLensDecode(st, t, z + rest);
    TreeDecodes(TreesBegun(st, t), CodesOf(t), t.spelling, rest);
    TreesEnd(st, t, rest);
    Regroup3(x, y, z, rest);
  }

  lemma SpellingFits(t: Trees)
    requires Readable(t)
    ensures AllListable(t.spelling) && AllEncodable(CodesOf(t), t.spelling)
    ensures Reached(Listed(t.spelling)) == |t.lit| + |t.dist|
  {
  }

  lemma BegunTrees(st: State, t: Trees)
    requires |t.lit| >= 257 && |t.dist| >= 1 && t.hclen >= 4
    ensures var s := TreesBegun(st, t);
      s.phase.TreesLen? && s.lengths == [] && s.lenlen == t.cl && s.hlit == |t.lit| && s.hdist == |t.dist|
  {
  }

  lemma SendableSizes(t: Trees)
    requires Sendable(t)
    ensures Readable(t) && 257 <= |t.lit| <= 286 && 1 <= |t.dist| <= 30 && 4 <= t.hclen <= 19 && |t.cl| == 19
  {
  }

  function AfterDynamic(st: State, final: bool, t: Trees, ss: seq<Sym>): State
    requires |t.lit| >= 257 && |t.dist| >= 1 && t.hclen >= 4 && AllListable(t.spelling)
    requires |st.before| == DWINSIZE && Playable(Player(st.output, AtSym), ss)
  {
    Closed(TreesIn(AfterHeader(st, final, 2), t), ss)
  }

  lemma DynamicDecodes(st: State, final: bool, t: Trees, ss: seq<Sym>, rest: seq<bool>)
    requires Good(st) && st.phase.OutsideBlk? && |st.before| == DWINSIZE && Sendable(t)
    requires Playable(Player(st.output, AtSym), ss) && Played(Player(st.output, AtSym), ss).mode.AtSym?
    requires AllEncodable(CodesOf(t), ss)
    ensures AllListable(t.spelling) && Good(AfterDynamic(st, final, t, ss))
    ensures Run(st, DynamicBlockBits(final, t, ss) + rest) == Run(AfterDynamic(st, final, t, ss), rest)
  {
    hide *;
    SendableSizes(t);
    SpellingFits(t);
    SendableEob(t);
    var st1, header := AfterHeader(st, final, 2), SizeBits(t) + LenLenBits(t.cl, t.hclen) + SymsBits(CodesOf(t), t.spelling);
    var b := BlockBits(CodesOf(t), ss);
    AfterHeaderIs(st, final);
    TreesInKeeps(st1, t);
    BlockNotEmpty(CodesOf(t), ss);
    HeaderDecodes(st, final, 2, header + (b + rest));
    TreesDecode(st1, t, b + rest);
    TreesInPlays(st1, t, st.output);
    ContentsDecode(TreesIn(st1, t), CodesOf(t), ss, rest);
    DynamicBitsAre(final, t, ss, rest);
    AfterDynamicIs(st, final, t, ss);
  }

  lemma AfterHeaderIs(st: State, final: bool)
    ensures var s := AfterHeader(st, final, 2); s.phase.TreesHdr? && s.before == st.before && s.output == st.output
  {
  }

  lemma BlockNotEmpty(t: Codes, ss: seq<Sym>)
    requires AllEncodable(t, ss) && EOB < |t.lit| && t.lit[EOB] > 0
    ensures BlockBits(t, ss) != []
  {
    hide CodeBits, SymsBits;
  }

  lemma TreesInPlays(st: State, t: Trees, out: seq<byte>)
    requires |t.lit| >= 257 && |t.dist| >= 1 && t.hclen >= 4 && AllListable(t.spelling)
    requires |st.before| == DWINSIZE && st.output == out
    ensures var s := TreesIn(st, t);
      InSymbols(s) && s.phase.InBlk? && PlayerOf(s) == Player(out, AtSym) && CodesOf(t).lit == t.lit
  {
    TreesInKeeps(st, t);
    hide TreesIn;
  }

  lemma AfterDynamicIs(st: State, final: bool, t: Trees, ss: seq<Sym>)
    requires |t.lit| >= 257 && |t.dist| >= 1 && t.hclen >= 4 && AllListable(t.spelling)
    requires |st.before| == DWINSIZE && Playable(Player(st.output, AtSym), ss)
    requires InSymbols(TreesIn(AfterHeader(st, final, 2), t)) && PlayerOf(TreesIn(AfterHeader(st, final, 2), t)) == Player(st.output, AtSym)
    ensures AfterDynamic(st, final, t, ss) == Closed(TreesIn(AfterHeader(st, final, 2), t), ss)
  {
    hide TreesIn, AfterHeader, Closed, Playable;
  }

  lemma DynamicBitsAre(final: bool, t: Trees, ss: seq<Sym>, rest: seq<bool>)
    requires Sendable(t) && AllEncodable(CodesOf(t), ss) && AllEncodable(CodesOf(t), t.spelling)
    requires |t.lit| >= 257 && |t.dist| >= 1 && 4 <= t.hclen <= 19 && |t.cl| == 19 && t.lit[EOB] > 0 && CodesOf(t).lit == t.lit
    ensures DynamicBlockBits(final, t, ss) + rest == HeaderBits(final, 2)
      + (SizeBits(t) + LenLenBits(t.cl, t.hclen) + SymsBits(CodesOf(t), t.spelling) + (BlockBits(CodesOf(t), ss) + rest))
  {
    hide HeaderBits, SizeBits, LenLenBits, SymsBits, BlockBits, Sendable, AllEncodable, CodesOf;
    Regroup5(HeaderBits(final, 2), SizeBits(t), LenLenBits(t.cl, t.hclen), SymsBits(CodesOf(t), t.spelling),
             BlockBits(CodesOf(t), ss), rest);
  }

  lemma Regroup5(h: seq<bool>, x: seq<bool>, y: seq<bool>, z: seq<bool>, b: seq<bool>, rest: seq<bool>)
    ensures h + x + y + z + b + rest == h + (x + y + z + (b + rest))
  {
    Regroup4(h, x, y, z, b + rest);
    Regroup3(x, y, z, b + rest);
    assert h + x + y + z + b + rest == h + x + y + z + (b + rest);
  }

  lemma SendableEob(t: Trees)
    requires Sendable(t)
    ensures EOB < |t.lit| && t.lit[EOB] > 0 && CodesOf(t).lit == t.lit
  {
  }

  lemma TreesInKeeps(st: State, t: Trees)
    requires |t.lit| >= 257 && |t.dist| >= 1 && t.hclen >= 4 && AllListable(t.spelling)
    ensures var s := TreesIn(st, t);
      s.phase.InBlk? && s.before == st.before && s.output == st.output && s.kind == st.kind && s.lastblock == st.lastblock
  {
  }

  // ---- The empty stored block of a flush

  function FlushBits(pad: nat): seq<bool> {
    HeaderBits(false, 0) + Zeros(pad) + BitsOf(0, 16) + BitsOf(0xFFFF, 16)
  }

  function AfterFlush(st: State): State {
    st.(uncomplen := 0)
  }

  lemma StoredSteps(st: State, v: nat, b: seq<bool>)
    requires Good(st) && |b| >= 16 && Field(b, 16) == v
    ensures st.phase.UncompLen? ==> Step(st, b) == Next(st.(uncomplen := v, phase := UncompNLen), 16)
    ensures st.phase.UncompNLen? && v == 0xFFFF && st.uncomplen == 0 ==> Step(st, b) == Next(AfterBlock(st), 16)
  {
    hide Complete, Checksum, Reduced, Field;
  }

  lemma LenFieldDecodes(st: State, v: nat, rest: seq<bool>)
    requires Good(st) && st.phase.UncompLen? && v < Pow2(16)
    ensures var s := st.(uncomplen := v, phase := UncompNLen);
      Good(s) && Run(st, BitsOf(v, 16) + rest) == Run(s, rest)
  {
    hide Good, Step, Field, Run, BitsOf, Pow2;
    FieldKnown(v, 16, rest);
    StoredSteps(st, v, BitsOf(v, 16) + rest);
    RunOne(st, BitsOf(v, 16) + rest);
  }

  lemma EmptyStoredDecodes(st: State, rest: seq<bool>)
    requires Good(st) && st.phase.UncompNLen? && st.uncomplen == 0 && 0xFFFF < Pow2(16)
    ensures Good(AfterBlock(st)) && Run(st, BitsOf(0xFFFF, 16) + rest) == Run(AfterBlock(st), rest)
  {
    hide Good, Step, Field, Run, BitsOf, Pow2;
    FieldKnown(0xFFFF, 16, rest);
    StoredSteps(st, 0xFFFF, BitsOf(0xFFFF, 16) + rest);
    RunOne(st, BitsOf(0xFFFF, 16) + rest);
  }

  lemma SixteenBits()
    ensures Pow2(16) == 0x10000
  {
    Powers();
    assert Pow2(16) == 8 * Pow2(13);
  }

  lemma SkipPad(pad: nat, b: seq<bool>)
    requires pad < 8 && |b| % 8 == 0
    ensures Aligned(Zeros(pad) + b) == b
  {
  }

  /** The states an empty stored block passes through. */
  lemma FlushStates(st: State)
    requires st.phase.OutsideBlk? && !st.lastblock
    ensures var st1 := AfterHeader(st, false, 0);
      && st1.phase.UncompLen?
      && AfterBlock(st1.(uncomplen := 0, phase := UncompNLen)) == AfterFlush(st)
  {
  }

  lemma FlushDecodes(st: State, pad: nat, rest: seq<bool>)
    requires Good(st) && st.phase.OutsideBlk? && !st.lastblock && pad < 8 && |rest| % 8 == 0
    ensures Good(AfterFlush(st)) && Run(st, FlushBits(pad) + rest) == Run(AfterFlush(st), rest)
  {
    hide Good, Run, HeaderBits, BitsOf, Pow2, Aligned, AfterHeader, AfterBlock, AfterFlush, Zeros;
    SixteenBits();
    var h, p, x, y := HeaderBits(false, 0), Zeros(pad), BitsOf(0, 16), BitsOf(0xFFFF, 16);
    FlushStates(st);
    var st1 := AfterHeader(st, false, 0);
    HeaderDecodes(st, false, 0, p + (x + (y + rest)));
    SkipPad(pad, x + (y + rest));
    LenFieldDecodes(st1, 0, y + rest);
    EmptyStoredDecodes(st1.(uncomplen := 0, phase := UncompNLen), rest);
    Regroup4(h, p, x, y, rest);
  }

  /** What a block leaves behind besides its output. */
  lemma ClosedKeeps(st: State, ss: seq<Sym>)
    requires InSymbols(st) && Playable(PlayerOf(st), ss)
    ensures var s := Closed(st, ss);
      && s.before == st.before && s.kind == st.kind && s.lastblock == st.lastblock
      && s.output == Played(PlayerOf(st), ss).hist
      && s.phase == (if st.lastblock then End else OutsideBlk)
  {
    hide Playable, Played;
  }
}

/** Symbols as bits, and the decompressor reading them back. */
module SymbolCoding {
  import opened Bits
  import opened Canonical
  import opened Checksums
  import opened DeflateCodes
  import opened DecodeTable
  import opened Inflate
  import opened Symbols
  import Tokens

  /** The code lengths of the alphabets in force. */
  datatype Codes = Codes(lit: seq<CodeLen>, dist: seq<CodeLen>, lens: seq<CodeLen>)

  /** The code for s exists. */
  predicate Encodable(t: Codes, s: Sym) {
    match s
    case LitLenSym(c) => c < |t.lit| && t.lit[c] > 0
    case DistSym(c) => c < |t.dist| && t.dist[c] > 0
    case CodeLenSym(c) => c < |t.lens| && t.lens[c] > 0
    case ExtraBits(v, n) => v < Pow2(n)
  }

  /** What writesym() sends for s. */
  function SymBits(t: Codes, s: Sym): (b: seq<bool>)
    requires Encodable(t, s)
  {
    match s
    case LitLenSym(c) => CodeBits(t.lit, c)
    case DistSym(c) => CodeBits(t.dist, c)
    case CodeLenSym(c) => CodeBits(t.lens, c)
    case ExtraBits(v, n) => BitsOf(v, n)
  }

  predicate AllEncodable(t: Codes, ss: seq<Sym>) {
    forall i :: 0 <= i < |ss| ==> Encodable(t, ss[i])
  }

  function SymsBits(t: Codes, ss: seq<Sym>): seq<bool>
    requires AllEncodable(t, ss)
  {
    if ss == [] then [] else SymsBits(t, ss[..|ss| - 1]) + SymBits(t, ss[|ss| - 1])
  }

  lemma SymsBitsOne(t: Codes, ss: seq<Sym>, s: Sym)
    requires AllEncodable(t, ss) && Encodable(t, s)
    ensures AllEncodable(t, ss + [s]) && SymsBits(t, ss + [s]) == SymsBits(t, ss) + SymBits(t, s)
  {
    assert (ss + [s])[..|ss|] == ss;
  }

  /** A complete code decodes what it encodes, whatever follows. */
  lemma DecodeKnown(ls: seq<CodeLen>, i: nat, rest: seq<bool>)
    requires Complete(ls) && i < |ls| && ls[i] > 0
    ensures DecodeSym(ls, CodeBits(ls, i) + rest) == Found(i, ls[i])
  {
    hide CodeBits, Complete;
    var s := CodeBits(ls, i) + rest;
    assert IsCode(ls, i, s);
    BaseFull(ls);
    PrefixFree(ls, i, DecodeSym(ls, s).code, s);
  }

  lemma FieldKnown(v: nat, n: nat, rest: seq<bool>)
    requires v < Pow2(n)
    ensures Field(BitsOf(v, n) + rest, n) == v && (BitsOf(v, n) + rest)[n..] == rest
  {
    ValBitsOf(v, n);
    assert (BitsOf(v, n) + rest)[..n] == BitsOf(v, n);
  }

  // ---- The decompressor between two symbols

  predicate InSymbols(st: State) {
    && |st.before| == DWINSIZE
    && (st.phase.InBlk? || (st.phase.GotLenSym? && 257 <= st.sym < 286) || st.phase.GotLen? || st.phase.GotDistSym?)
  }

  function PlayerOf(st: State): Player
    requires InSymbols(st)
  {
    Player(st.output,
           if st.phase.InBlk? then AtSym
           else if st.phase.GotLenSym? then LenExtra(st.sym - 257)
           else if st.phase.GotLen? then AtDist(st.len)
           else DistExtra(st.len, st.sym))
  }

  function LitLenStep(st: State, c: nat): (r: State)
    requires c < 286 && c != EOB
    ensures r == st.(phase := r.phase, sym := r.sym, len := r.len, output := r.output)
  {
    if c < 256 then Emit(st, c)
    else if LENCODES[c - 257].extrabits == 0 then st.(phase := GotLen, sym := c, len := LENCODES[c - 257].min)
    else st.(phase := GotLenSym, sym := c)
  }

  function LenStep(st: State, v: nat): (r: State)
    requires 257 <= st.sym < 286
    ensures r == st.(phase := r.phase, sym := r.sym, len := r.len, output := r.output)
  {
    st.(phase := GotLen, len := LENCODES[st.sym - 257].min + v)
  }

  function DistStep(st: State, c: nat): (r: State)
    requires |st.before| == DWINSIZE && c < 30
    requires DISTCODES[c].extrabits == 0 ==> 1 <= DISTCODES[c].min <= DWINSIZE
    ensures r == st.(phase := r.phase, sym := r.sym, len := r.len, output := r.output)
  {
    var s := st.(phase := GotDistSym, sym := c);
    if DISTCODES[c].extrabits == 0 then CopyStep(s, DISTCODES[c].min) else s
  }

  function CopyStep(st: State, d: nat): (r: State)
    requires |st.before| == DWINSIZE && 1 <= d <= DWINSIZE
    ensures r == st.(phase := InBlk, len := 0, output := r.output)
  {
    CopyMatch(st, d, st.len).(phase := InBlk, len := 0)
  }

  /** The state after one more symbol. */
  function SymStep(st: State, s: Sym): (r: State)
    requires InSymbols(st) && Fits(PlayerOf(st), s)
    ensures r == st.(phase := r.phase, sym := r.sym, len := r.len, output := r.output)
  {
    assert |DISTCODES| == 30;
    if st.phase.InBlk? then LitLenStep(st, s.code)
    else if st.phase.GotLenSym? then LenStep(st, s.value)
    else if st.phase.GotLen? then DistStep(st, s.code)
    else CopyStep(st, DISTCODES[st.sym].min + s.value)
  }

  lemma {:induction false} CopyMatchIsCopyBytes(st: State, d: nat, n: nat)
    requires |st.before| == DWINSIZE && 1 <= d <= DWINSIZE && d <= |st.output|
    ensures CopyMatch(st, d, n).output == Tokens.CopyBytes(st.output, d, n)
    decreases n
  {
    if n > 0 {
      CopyMatchIsCopyBytes(Emit(st, Back(st, d)), d, n - 1);
    }
  }

  lemma LitLenPlays(st: State, s: Sym)
    requires InSymbols(st) && st.phase.InBlk? && Fits(PlayerOf(st), s)
    ensures InSymbols(LitLenStep(st, s.code)) && PlayerOf(LitLenStep(st, s.code)) == After(PlayerOf(st), s)
  {
    assert |LENCODES| == 29;
    hide Pow2, LENCODES, DISTCODES;
  }

  lemma LenPlays(st: State, s: Sym)
    requires InSymbols(st) && st.phase.GotLenSym? && Fits(PlayerOf(st), s)
    ensures InSymbols(LenStep(st, s.value)) && PlayerOf(LenStep(st, s.value)) == After(PlayerOf(st), s)
  {
    assert |LENCODES| == 29;
    hide Pow2, LENCODES, DISTCODES;
  }

  lemma CopyPlays(st: State, d: nat)
    requires InSymbols(st) && st.phase.GotDistSym? && 1 <= d <= DWINSIZE && d <= |st.output|
    ensures InSymbols(CopyStep(st, d)) && PlayerOf(CopyStep(st, d)) == Player(Tokens.CopyBytes(st.output, d, st.len), AtSym)
  {
    CopyMatchIsCopyBytes(st, d, st.len);
    hide CopyMatch;
  }

  lemma DistPlays(st: State, s: Sym)
    requires InSymbols(st) && st.phase.GotLen? && Fits(PlayerOf(st), s)
    ensures |DISTCODES| == 30 && (DISTCODES[s.code].extrabits == 0 ==> 1 <= DISTCODES[s.code].min <= DWINSIZE)
    ensures InSymbols(DistStep(st, s.code)) && PlayerOf(DistStep(st, s.code)) == After(PlayerOf(st), s)
  {
    assert |DISTCODES| == 30;
    hide Pow2, LENCODES, DISTCODES, CopyStep;
    if DISTCODES[s.code].extrabits == 0 {
      CopyPlays(st.(phase := GotDistSym, sym := s.code), DISTCODES[s.code].min);
    }
  }

  /** The machine's state mirrors the meaning of the symbols. */
  lemma SymStepPlays(st: State, s: Sym)
    requires InSymbols(st) && Fits(PlayerOf(st), s)
    ensures InSymbols(SymStep(st, s)) && PlayerOf(SymStep(st, s)) == After(PlayerOf(st), s)
  {
    assert |DISTCODES| == 30;
    hide LitLenStep, LenStep, DistStep, CopyStep, Pow2, LENCODES, DISTCODES;
    if st.phase.InBlk? {
      LitLenPlays(st, s);
    } else if st.phase.GotLenSym? {
      LenPlays(st, s);
    } else if st.phase.GotLen? {
      DistPlays(st, s);
    } else {
      CopyPlays(st, DISTCODES[st.sym].min + s.value);
    }
  }

  function AfterSyms(st: State, ss: seq<Sym>): (r: State)
    requires InSymbols(st) && Playable(PlayerOf(st), ss)
    ensures r == st.(phase := r.phase, sym := r.sym, len := r.len, output := r.output)
    ensures InSymbols(r) && PlayerOf(r) == Played(PlayerOf(st), ss)
  {
    if ss == [] then st else
      var m := AfterSyms(st, ss[..|ss| - 1]);
      SymStepPlays(m, ss[|ss| - 1]);
      SymStep(m, ss[|ss| - 1])
  }

  /** The state decodes with the codes t. */
  ghost predicate Uses(st: State, t: Codes) {
    st.litlen == t.lit && (st.dist == SomeDist(t.dist) || (st.dist == NoDist && forall i :: 0 <= i < |t.dist| ==> t.dist[i] == 0))
  }

  /** One turn of a run. */
  lemma RunOne(st: State, b: seq<bool>)
    requires Good(st) && b != []
    ensures var r := Step(st, b);
      r.Next? ==> Good(r.st) && r.used <= |b| && Run(st, b) == Run(r.st, b[r.used..])
  {
    hide Good, Step, Run;
    RunOnce(st, b);
  }

  /** A code word at the front of the stream is looked up and eaten. */
  lemma CodeWord(ls: seq<CodeLen>, i: nat, rest: seq<bool>)
    requires Complete(ls) && i < |ls| && ls[i] > 0
    ensures var b := CodeBits(ls, i) + rest; DecodeSym(ls, b) == Found(i, ls[i]) && b != [] && b[ls[i]..] == rest
  {
    DecodeKnown(ls, i, rest);
    hide CodeBits;
  }

  lemma LiteralDecodes(st: State, t: Codes, c: nat, rest: seq<bool>)
    requires Good(st) && st.phase.InBlk? && Uses(st, t) && c < |t.lit| && t.lit[c] > 0 && c < 256
    ensures Good(Emit(st, c)) && Run(st, CodeBits(t.lit, c) + rest) == Run(Emit(st, c), rest)
  {
    hide Complete, Checksum, Reduced, DecodeSym, CodeBits, Run;
    CodeWord(t.lit, c, rest);
    RunOne(st, CodeBits(t.lit, c) + rest);
  }

  lemma LengthDecodes(st: State, t: Codes, c: nat, rest: seq<bool>)
    requires Good(st) && st.phase.InBlk? && Uses(st, t) && c < |t.lit| && t.lit[c] > 0 && 257 <= c < 286
    ensures var s := st.(phase := GotLenSym, sym := c);
      Good(s) && Run(st, CodeBits(t.lit, c) + rest) == Run(s, rest)
  {
    hide Complete, Checksum, Reduced, DecodeSym, CodeBits, Run;
    CodeWord(t.lit, c, rest);
    RunOne(st, CodeBits(t.lit, c) + rest);
  }

  lemma LenExtraStep(st: State, b: seq<bool>)
    requires Good(st) && st.phase.GotLenSym?
    ensures 257 <= st.sym < 286 && |LENCODES| == 29
    ensures var n := LENCODES[st.sym - 257].extrabits;
      |b| >= n ==> Step(st, b) == Next(LenStep(st, Field(b, n)), n)
  {
    assert |LENCODES| == 29;
    hide Complete, Checksum, Reduced, Field, LENCODES;
  }

  lemma LenExtraDecodes(st: State, v: nat, rest: seq<bool>)
    requires Good(st) && st.phase.GotLenSym? && 0 <= st.sym - 257 < |LENCODES|
    requires var r := LENCODES[st.sym - 257]; v < Pow2(r.extrabits) && (r.extrabits > 0 || rest != [])
    ensures 257 <= st.sym < 286
    ensures var s := LenStep(st, v);
      Good(s) && Run(st, BitsOf(v, LENCODES[st.sym - 257].extrabits) + rest) == Run(s, rest)
  {
    assert |LENCODES| == 29;
    hide Good, Step, Run, Field, BitsOf, LENCODES, Pow2, LenStep;
    LenExtraStep(st, []);
    var n := LENCODES[st.sym - 257].extrabits;
    FieldKnown(v, n, rest);
    LenExtraStep(st, BitsOf(v, n) + rest);
    RunOne(st, BitsOf(v, n) + rest);
  }

  lemma DistSymDecodes(st: State, t: Codes, c: nat, rest: seq<bool>)
    requires Good(st) && st.phase.GotLen? && Uses(st, t) && c < |t.dist| && t.dist[c] > 0
    ensures var s := st.(phase := GotDistSym, sym := c);
      Good(s) && Run(st, CodeBits(t.dist, c) + rest) == Run(s, rest)
  {
    hide Complete, Checksum, Reduced, DecodeSym, CodeBits, Run;
    CodeWord(t.dist, c, rest);
    RunOne(st, CodeBits(t.dist, c) + rest);
  }

  lemma DistExtraStep(st: State, r: CodeRecord, b: seq<bool>)
    requires Good(st) && st.phase.GotDistSym? && st.sym < |DISTCODES| && r == DISTCODES[st.sym]
    ensures |st.before| == DWINSIZE
    ensures |b| >= r.extrabits && 1 <= r.min + Field(b, r.extrabits) <= DWINSIZE ==>
      Step(st, b) == Next(CopyStep(st, r.min + Field(b, r.extrabits)), r.extrabits)
  {
    hide Complete, Checksum, Reduced, Field, DISTCODES, CopyMatch;
  }

  lemma DistExtraDecodes(st: State, r: CodeRecord, v: nat, rest: seq<bool>)
    requires Good(st) && st.phase.GotDistSym? && st.sym < |DISTCODES| && r == DISTCODES[st.sym]
    requires v < Pow2(r.extrabits) && (r.extrabits > 0 || rest != []) && 1 <= r.min + v <= DWINSIZE
    ensures |st.before| == DWINSIZE
    ensures var s := CopyStep(st, r.min + v);
      Good(s) && Run(st, BitsOf(v, r.extrabits) + rest) == Run(s, rest)
  {
    hide Good, Step, Run, Field, BitsOf, DISTCODES, Pow2, CopyStep;
    FieldKnown(v, r.extrabits, rest);
    DistExtraStep(st, r, BitsOf(v, r.extrabits) + rest);
    RunOne(st, BitsOf(v, r.extrabits) + rest);
  }

  lemma LitLenDecodes(st: State, t: Codes, c: nat, rest: seq<bool>)
    requires Good(st) && st.phase.InBlk? && Uses(st, t) && c < |t.lit| && t.lit[c] > 0 && c < 286 && c != EOB && rest != []
    ensures Good(LitLenStep(st, c)) && Run(st, CodeBits(t.lit, c) + rest) == Run(LitLenStep(st, c), rest)
  {
    hide Good, Run, Field, Pow2, CodeBits, BitsOf;
    if c < 256 {
      LiteralDecodes(st, t, c, rest);
    } else {
      LengthDecodes(st, t, c, rest);
      assert |LENCODES| == 29;
      hide LENCODES;
      if LENCODES[c - 257].extrabits == 0 {
        NoExtra(rest);
        LenExtraDecodes(st.(phase := GotLenSym, sym := c), 0, rest);
      }
    }
  }

  lemma DistCodeDecodes(st: State, t: Codes, c: nat, r: CodeRecord, rest: seq<bool>)
    requires Good(st) && st.phase.GotLen? && Uses(st, t) && c < |t.dist| && t.dist[c] > 0 && rest != []
    requires c < 30 == |DISTCODES| && r == DISTCODES[c]
    requires |st.before| == DWINSIZE && (r.extrabits == 0 ==> 1 <= r.min <= DWINSIZE)
    ensures Good(DistStep(st, c)) && Run(st, CodeBits(t.dist, c) + rest) == Run(DistStep(st, c), rest)
  {
    hide Good, Run, Pow2, CodeBits, BitsOf, DISTCODES, CopyStep, Uses;
    DistSymDecodes(st, t, c, rest);
    if r.extrabits == 0 {
      NoExtra(rest);
      DistExtraDecodes(st.(phase := GotDistSym, sym := c), r, 0, rest);
    }
  }

  /** st reads the symbol s back, whatever follows. */
  ghost predicate ReadsBack(st: State, t: Codes, s: Sym, rest: seq<bool>)
    requires Good(st) && InSymbols(st) && Fits(PlayerOf(st), s) && Encodable(t, s)
  {
    Good(SymStep(st, s)) && Run(st, SymBits(t, s) + rest) == Run(SymStep(st, s), rest)
  }

  lemma CodeReadsBack(st: State, t: Codes, s: Sym, rest: seq<bool>)
    requires Good(st) && InSymbols(st) && Uses(st, t) && Fits(PlayerOf(st), s) && Encodable(t, s) && rest != []
    requires st.phase.InBlk? || st.phase.GotLen?
    ensures ReadsBack(st, t, s, rest)
  {
    assert |LENCODES| == 29 && |DISTCODES| == 30;
    hide Good, Run, Pow2, CodeBits, LENCODES, DISTCODES, LitLenStep, DistStep, BitsOf;
    if st.phase.InBlk? {
      LitLenDecodes(st, t, s.code, rest);
    } else {
      DistCodeDecodes(st, t, s.code, DISTCODES[s.code], rest);
    }
  }

  lemma LenExtraFits(st: State, t: Codes, s: Sym)
    requires InSymbols(st) && Fits(PlayerOf(st), s) && st.phase.GotLenSym? && Encodable(t, s)
    ensures |LENCODES| == 29 && s.ExtraBits? && s.nbits == LENCODES[st.sym - 257].extrabits && s.value < Pow2(s.nbits)
    ensures SymStep(st, s) == LenStep(st, s.value) && SymBits(t, s) == BitsOf(s.value, LENCODES[st.sym - 257].extrabits)
  {
    assert |LENCODES| == 29;
    hide LENCODES, Pow2, LenStep, BitsOf;
  }

  lemma LenExtraReadsBack(st: State, t: Codes, s: Sym, rest: seq<bool>)
    requires Good(st) && InSymbols(st) && Fits(PlayerOf(st), s) && Encodable(t, s) && rest != []
    requires st.phase.GotLenSym?
    ensures ReadsBack(st, t, s, rest)
  {
    LenExtraFits(st, t, s);
    hide Good, Run, Pow2, LENCODES, BitsOf, Fits, PlayerOf, SymStep, SymBits, LenStep, InSymbols, Encodable;
    LenExtraDecodes(st, s.value, rest);
  }

  lemma DistExtraFits(st: State, t: Codes, s: Sym)
    requires InSymbols(st) && Fits(PlayerOf(st), s) && st.phase.GotDistSym? && Encodable(t, s)
    ensures st.sym < |DISTCODES| && |st.before| == DWINSIZE && s.ExtraBits?
    ensures var r := DISTCODES[st.sym];
      && s.value < Pow2(r.extrabits) && 1 <= r.min + s.value <= DWINSIZE
      && SymStep(st, s) == CopyStep(st, r.min + s.value) && SymBits(t, s) == BitsOf(s.value, r.extrabits)
  {
    assert |DISTCODES| == 30;
    hide DISTCODES, LENCODES, Pow2, CopyStep, BitsOf;
  }

  lemma ReadBackBy(st: State, t: Codes, s: Sym, rest: seq<bool>)
    requires Good(st) && InSymbols(st) && Fits(PlayerOf(st), s) && Encodable(t, s)
    requires Good(SymStep(st, s)) && Run(st, SymBits(t, s) + rest) == Run(SymStep(st, s), rest)
    ensures ReadsBack(st, t, s, rest)
  {
  }

  lemma DistExtraReadsBack(st: State, t: Codes, s: Sym, rest: seq<bool>)
    requires Good(st) && InSymbols(st) && Fits(PlayerOf(st), s) && Encodable(t, s) && rest != []
    requires st.phase.GotDistSym?
    ensures ReadsBack(st, t, s, rest)
  {
    hide *;
    DistExtraFits(st, t, s);
    DistExtraDecodes(st, DISTCODES[st.sym], s.value, rest);
    ReadBackBy(st, t, s, rest);
  }

  /** One symbol is read back, whatever follows. */
  lemma SymDecodes(st: State, t: Codes, s: Sym, rest: seq<bool>)
    requires Good(st) && InSymbols(st) && Uses(st, t) && Fits(PlayerOf(st), s) && Encodable(t, s) && rest != []
    ensures ReadsBack(st, t, s, rest)
  {
    hide Good, ReadsBack, Fits, Encodable, Uses, PlayerOf;
    if st.phase.InBlk? || st.phase.GotLen? {
      CodeReadsBack(st, t, s, rest);
    } else if st.phase.GotLenSym? {
      LenExtraReadsBack(st, t, s, rest);
    } else {
      DistExtraReadsBack(st, t, s, rest);
    }
  }

  lemma NoExtra(rest: seq<bool>)
    ensures Pow2(0) == 1 && BitsOf(0, 0) + rest == rest
  {
  }

  lemma UsesStays(st: State, s: State, t: Codes)
    requires Uses(st, t) && s == st.(phase := s.phase, sym := s.sym, len := s.len, output := s.output)
    ensures Uses(s, t)
  {
  }

  /** A run of symbols is read back. */
  lemma {:induction false} SymsDecode(st: State, t: Codes, ss: seq<Sym>, rest: seq<bool>)
    requires Good(st) && InSymbols(st) && Uses(st, t) && Playable(PlayerOf(st), ss) && AllEncodable(t, ss) && rest != []
    ensures Good(AfterSyms(st, ss)) && Run(st, SymsBits(t, ss) + rest) == Run(AfterSyms(st, ss), rest)
    decreases |ss|
  {
    hide Good, Run, Fits, After, Encodable, SymBits, SymStep, InSymbols, PlayerOf, Uses;
    if ss == [] {
      assert [] + rest == rest;
    } else {
      var n := |ss| - 1;
      var m, last := AfterSyms(st, ss[..n]), SymBits(t, ss[n]);
      SymsDecode(st, t, ss[..n], last + rest);
      UsesStays(st, m, t);
      SymDecodes(m, t, ss[n], rest);
      assert SymsBits(t, ss) + rest == SymsBits(t, ss[..n]) + (last + rest);
    }
  }

  /** The end-of-block code closes the block. */
  lemma EobDecodes(st: State, t: Codes, rest: seq<bool>)
    requires Good(st) && st.phase.InBlk? && Uses(st, t) && EOB < |t.lit| && t.lit[EOB] > 0
    ensures Good(AfterBlock(st)) && Run(st, CodeBits(t.lit, EOB) + rest) == Run(AfterBlock(st), rest)
  {
    hide Complete, Checksum, Reduced, DecodeSym, CodeBits, Run;
    CodeWord(t.lit, EOB, rest);
    RunOne(st, CodeBits(t.lit, EOB) + rest);
  }
}

/** Sending code lengths: the run-length encoding of section 3.2.7 of RFC 1951,
    as outblock() chooses it and as the decompressor undoes it. */
module CodeLengths {
  import opened Bits
  import opened Canonical
  import opened Checksums
  import opened DeflateCodes
  import opened DecodeTable
  import opened Inflate
  import opened Symbols
  import opened SymbolCoding

  datatype Pending = Nothing | Rep(of: CodeLen, addon: nat, nbits: nat)

  /** The lengths listed so far, and the repetition begun, if any. */
  datatype Lister = Lister(lens: seq<CodeLen>, pending: Pending)

  predicate Listable(l: Lister, s: Sym) {
    match l.pending
    case Nothing => s.CodeLenSym? && s.code < 19 && (s.code == 16 ==> l.lens != [])
    case Rep(_, _, n) => s.ExtraBits? && s.nbits == n && s.value < Pow2(n)
  }

  function List(l: Lister, s: Sym): Lister
    requires Listable(l, s)
  {
    match l.pending
    case Nothing =>
      if s.code < 16 then Lister(l.lens + [s.code], Nothing)
      else if s.code == 16 then Lister(l.lens, Rep(l.lens[|l.lens| - 1], 3, 2))
      else if s.code == 17 then Lister(l.lens, Rep(0, 3, 3))
      else Lister(l.lens, Rep(0, 11, 7))
    case Rep(x, a, _) => Lister(l.lens + Repeat(x, a + s.value), Nothing)
  }

  const START: Lister := Lister([], Nothing)

  predicate AllListable(ss: seq<Sym>)
    decreases |ss|, 0
  {
    ss == [] || (AllListable(ss[..|ss| - 1]) && Listable(Listed(ss[..|ss| - 1]), ss[|ss| - 1]))
  }

  /** What a list of code-length symbols spells out. */
  function Listed(ss: seq<Sym>): Lister
    requires AllListable(ss)
    decreases |ss|, 1
  {
    if ss == [] then START else List(Listed(ss[..|ss| - 1]), ss[|ss| - 1])
  }

  /** The symbols spell out exactly these lengths. */
  ghost predicate Spells(ss: seq<Sym>, lens: seq<CodeLen>) {
    AllListable(ss) && Listed(ss) == Lister(lens, Nothing)
  }

  lemma ListOne(ss: seq<Sym>, s: Sym)
    requires AllListable(ss) && Listable(Listed(ss), s)
    ensures AllListable(ss + [s]) && Listed(ss + [s]) == List(Listed(ss), s)
  {
    assert (ss + [s])[..|ss|] == ss;
  }

  lemma SpellOne(ss: seq<Sym>, lens: seq<CodeLen>, c: CodeLen)
    requires Spells(ss, lens)
    ensures Spells(ss + [CodeLenSym(c)], lens + [c])
  {
    ListOne(ss, CodeLenSym(c));
  }

  lemma SpellRepeat(ss: seq<Sym>, lens: seq<CodeLen>, code: nat, v: nat)
    requires Spells(ss, lens) && 16 <= code < 19 && (code == 16 ==> lens != [])
    requires v < if code == 16 then 4 else if code == 17 then 8 else 128
    ensures var n := if code == 16 then 2 else if code == 17 then 3 else 7;
      var x := if code == 16 then lens[|lens| - 1] else 0;
      Spells(ss + [CodeLenSym(code), ExtraBits(v, n)], lens + Repeat(x, v + if code == 18 then 11 else 3))
  {
    Powers();
    var n := if code == 16 then 2 else if code == 17 then 3 else 7;
    hide Pow2;
    ListOne(ss, CodeLenSym(code));
    ListOne(ss + [CodeLenSym(code)], ExtraBits(v, n));
    assert ss + [CodeLenSym(code), ExtraBits(v, n)] == (ss + [CodeLenSym(code)]) + [ExtraBits(v, n)];
  }

  lemma RepeatMore(lens: seq<CodeLen>, x: CodeLen, a: nat, b: nat)
    ensures lens + Repeat(x, a) + Repeat(x, b) == lens + Repeat(x, a + b)
    ensures Repeat(x, 1) == [x] && lens + Repeat(x, 0) == lens
  {
  }

  // ---- Which symbols are sent

  function OneByOne(v: CodeLen, k: nat): (r: seq<Sym>)
    ensures |r| == k
  {
    if k == 0 then [] else OneByOne(v, k - 1) + [CodeLenSym(v)]
  }

  /** The next piece of a run: as much as one repetition holds, but never leaving one or two. */
  function Piece(left: nat, most: nat): (n: nat)
    requires left >= 3 && most >= 6
    ensures 3 <= n <= most && n <= left && (n == left || left - n >= 3)
  {
    if left <= most then left
    else if most > left - 3 then left - 3
    else most
  }

  function ZeroPieces(left: nat): (r: seq<Sym>)
    requires left == 0 || left >= 3
    ensures 3 * |r| <= 2 * left
  {
    if left == 0 then [] else
      var n := Piece(left, 138);
      (if n < 11 then [CodeLenSym(17), ExtraBits(n - 3, 3)] else [CodeLenSym(18), ExtraBits(n - 11, 7)]) + ZeroPieces(left - n)
  }

  function RunPieces(left: nat): (r: seq<Sym>)
    requires left == 0 || left >= 3
    ensures 3 * |r| <= 2 * left
  {
    if left == 0 then [] else
      var n := Piece(left, 6);
      [CodeLenSym(16), ExtraBits(n - 3, 2)] + RunPieces(left - n)
  }

  /** k equal lengths. */
  function RunOf(v: CodeLen, k: nat): (r: seq<Sym>)
    requires k > 0
    ensures |r| <= k && (|r| == k <==> k < if v == 0 then 3 else 4)
  {
    if v == 0 then
      if k < 3 then OneByOne(0, k) else ZeroPieces(k)
    else OneByOne(v, 1) + if k - 1 < 3 then OneByOne(v, k - 1) else RunPieces(k - 1)
  }

  /** Where the run that starts at i ends. */
  function RunEnd(src: seq<CodeLen>, i: nat, j: nat): (e: nat)
    requires i < j <= |src| && forall k :: i <= k < j ==> src[k] == src[i]
    ensures j <= e <= |src| && (forall k :: i <= k < e ==> src[k] == src[i]) && (e < |src| ==> src[e] != src[i])
    decreases |src| - j
  {
    if j < |src| && src[j] == src[i] then RunEnd(src, i, j + 1) else j
  }

  /** The symbols that transmit src from i on. */
  function Spelling(src: seq<CodeLen>, i: nat): seq<Sym>
    requires i <= |src|
    decreases |src| - i
  {
    if i == |src| then [] else
      var e := RunEnd(src, i, i + 1);
      RunOf(src[i], e - i) + Spelling(src, e)
  }

  /** From i on, no three zeros and no four other equal lengths stand together. */
  ghost predicate NoRuns(src: seq<CodeLen>, i: nat) {
    forall k :: i <= k < |src| ==> NoRunAt(src, k)
  }

  ghost predicate NoRunAt(src: seq<CodeLen>, k: nat)
    requires k < |src|
  {
    if src[k] == 0 then k + 2 >= |src| || src[k + 1] != 0 || src[k + 2] != 0
    else k + 3 >= |src| || src[k + 1] != src[k] || src[k + 2] != src[k] || src[k + 3] != src[k]
  }

  /** There are never more symbols than lengths, and as many only if no run is long enough
      to be abbreviated. */
  lemma {:induction false} SpellingSize(src: seq<CodeLen>, i: nat)
    requires i <= |src|
    ensures |Spelling(src, i)| <= |src| - i && (|Spelling(src, i)| == |src| - i <==> NoRuns(src, i))
    decreases |src| - i
  {
    hide RunOf, NoRunAt;
    if i < |src| {
      var e := RunEnd(src, i, i + 1);
      SpellingSize(src, e);
      RunSplits(src, i, e);
    }
  }

  lemma RunSplits(src: seq<CodeLen>, i: nat, e: nat)
    requires i < e <= |src| && (forall k :: i <= k < e ==> src[k] == src[i]) && (e < |src| ==> src[e] != src[i])
    ensures NoRuns(src, i) <==> e - i < (if src[i] == 0 then 3 else 4) && NoRuns(src, e)
  {
    assert NoRuns(src, i) ==> NoRunAt(src, i);
    if e - i < if src[i] == 0 then 3 else 4 {
      forall k | i <= k < e ensures NoRunAt(src, k) {
        assert e < |src| ==> src[e] != src[k];
      }
    }
  }

  lemma OneMoreOf(r: seq<Sym>, v: CodeLen, k: nat)
    ensures r + OneByOne(v, k + 1) == r + OneByOne(v, k) + [CodeLenSym(v)] && r + OneByOne(v, 0) == r
  {
  }

  /** k equal lengths, spelt out one by one. */
  method SendLiterally(syms: seq<Sym>, v: CodeLen, k: nat, ghost lens: seq<CodeLen>) returns (r: seq<Sym>)
    requires Spells(syms, lens)
    ensures Spells(r, lens + Repeat(v, k)) && r == syms + OneByOne(v, k)
  {
    hide Spells, Repeat, OneByOne;
    r := syms;
    RepeatMore(lens, v, 0, 0);
    OneMoreOf(syms, v, 0);
    for i := 0 to k
      invariant Spells(r, lens + Repeat(v, i)) && r == syms + OneByOne(v, i)
    {
      SpellOne(r, lens + Repeat(v, i), v);
      RepeatMore(lens, v, i, 1);
      OneMoreOf(syms, v, i);
      r := r + [CodeLenSym(v)];
    }
  }

  /** A run of k zeros. */
  method SendZeros(syms: seq<Sym>, k: nat, ghost lens: seq<CodeLen>) returns (r: seq<Sym>)
    requires Spells(syms, lens) && k > 0
    ensures Spells(r, lens + Repeat(0, k)) && r == syms + RunOf(0, k)
  {
    hide Spells, Repeat, ZeroPieces;
    if k < 3 {
      r := SendLiterally(syms, 0, k, lens);
      return;
    }
    r := syms;
    var left := k;
    RepeatMore(lens, 0, 0, 0);
    while left > 0
      invariant left == 0 || 3 <= left <= k
      invariant Spells(r, lens + Repeat(0, k - left)) && r + ZeroPieces(left) == syms + ZeroPieces(k)
    {
      var rpt := if left < 138 then left else 138;
      if rpt > left - 3 && rpt < left {
        rpt := left - 3;
      }
      assert rpt == Piece(left, 138);
      ghost var so := lens + Repeat(0, k - left);
      RepeatMore(lens, 0, k - left, rpt);
      ZeroStep(r, left);
      if rpt < 11 {
        SpellRepeat(r, so, 17, rpt - 3);
        r := r + [CodeLenSym(17), ExtraBits(rpt - 3, 3)];
      } else {
        SpellRepeat(r, so, 18, rpt - 11);
        r := r + [CodeLenSym(18), ExtraBits(rpt - 11, 7)];
      }
      left := left - rpt;
    }
    NoPieces(r);
  }

  lemma ZeroStep(r: seq<Sym>, left: nat)
    requires left >= 3
    ensures var n := Piece(left, 138);
      r + ZeroPieces(left) == (r + if n < 11 then [CodeLenSym(17), ExtraBits(n - 3, 3)] else [CodeLenSym(18), ExtraBits(n - 11, 7)])
                              + ZeroPieces(left - n)
  {
  }

  lemma RunStep(r: seq<Sym>, left: nat)
    requires left >= 3
    ensures var n := Piece(left, 6); r + RunPieces(left) == (r + [CodeLenSym(16), ExtraBits(n - 3, 2)]) + RunPieces(left - n)
  {
  }

  lemma NoPieces(r: seq<Sym>)
    ensures r + ZeroPieces(0) == r && r + RunPieces(0) == r
  {
  }

  lemma LastOfRepeat(lens: seq<CodeLen>, v: CodeLen, n: nat)
    requires n > 0
    ensures var s := lens + Repeat(v, n); s != [] && s[|s| - 1] == v
  {
  }

  /** A run of k equal non-zero lengths. */
  method SendRun(syms: seq<Sym>, v: CodeLen, k: nat, ghost lens: seq<CodeLen>) returns (r: seq<Sym>)
    requires Spells(syms, lens) && k > 0 && v != 0
    ensures Spells(r, lens + Repeat(v, k)) && r == syms + RunOf(v, k)
  {
    hide Spells, Repeat, RunPieces, OneByOne;
    r := SendLiterally(syms, v, 1, lens);
    ghost var first := r;
    var left := k - 1;
    if left < 3 {
      r := SendLiterally(r, v, left, lens + Repeat(v, 1));
      RepeatMore(lens, v, 1, left);
      assert r == syms + (OneByOne(v, 1) + OneByOne(v, left));
      return;
    }
    while left > 0
      invariant left == 0 || 3 <= left < k
      invariant Spells(r, lens + Repeat(v, k - left)) && r + RunPieces(left) == first + RunPieces(k - 1)
    {
      var rpt := if left < 6 then left else 6;
      if rpt > left - 3 && rpt < left {
        rpt := left - 3;
      }
      assert rpt == Piece(left, 6);
      LastOfRepeat(lens, v, k - left);
      RepeatMore(lens, v, k - left, rpt);
      SpellRepeat(r, lens + Repeat(v, k - left), 16, rpt - 3);
      RunStep(r, left);
      r := r + [CodeLenSym(16), ExtraBits(rpt - 3, 2)];
      left := left - rpt;
    }
    NoPieces(r);
    assert r == syms + (OneByOne(v, 1) + RunPieces(k - 1));
  }

  lemma RunIsRepeat(src: seq<CodeLen>, i: nat, j: nat)
    requires i < j <= |src| && forall k :: i <= k < j ==> src[k] == src[i]
    ensures src[..i] + Repeat(src[i], j - i) == src[..j]
  {
  }

  lemma SpellingStep(syms: seq<Sym>, src: seq<CodeLen>, i: nat, e: nat)
    requires i < |src| && e == RunEnd(src, i, i + 1)
    ensures syms + Spelling(src, i) == (syms + RunOf(src[i], e - i)) + Spelling(src, e)
  {
    hide RunOf;
  }

  lemma SpellingEnds(syms: seq<Sym>, src: seq<CodeLen>)
    ensures syms + Spelling(src, |src|) == syms && [] + Spelling(src, 0) == Spelling(src, 0)
  {
  }

  lemma {:induction false} RunEndFrom(src: seq<CodeLen>, i: nat, a: nat, b: nat)
    requires i < a <= b <= |src| && forall k :: i <= k < b ==> src[k] == src[i]
    ensures RunEnd(src, i, a) == RunEnd(src, i, b)
    decreases b - a
  {
    if a < b {
      RunEndFrom(src, i, a + 1, b);
    }
  }

  /** One run: its length, and its symbols. */
  method SendNext(syms: seq<Sym>, src: seq<CodeLen>, i: nat) returns (r: seq<Sym>, e: nat)
    requires i < |src| && Spells(syms, src[..i])
    ensures e == RunEnd(src, i, i + 1) && Spells(r, src[..e]) && r == syms + RunOf(src[i], e - i)
  {
    hide Spells, Repeat, RunOf, RunEnd;
    var j := 1;
    while i + j < |src| && src[i + j] == src[i]
      invariant 1 <= j && i + j <= |src|
      invariant forall k :: i <= k < i + j ==> src[k] == src[i]
    {
      j := j + 1;
    }
    e := i + j;
    RunIsRepeat(src, i, e);
    RunEndFrom(src, i, i + 1, e);
    EndHere(src, i, e);
    if src[i] == 0 {
      r := SendZeros(syms, j, src[..i]);
    } else {
      r := SendRun(syms, src[i], j, src[..i]);
    }
  }

  /** The symbols that transmit the trees' code lengths: they spell them out, and
      there are as many as lengths exactly when no run is long enough to be abbreviated. */
  method SendLengths(src: seq<CodeLen>) returns (syms: seq<Sym>)
    ensures Spells(syms, src) && syms == Spelling(src, 0)
    ensures |syms| <= |src| && (|syms| == |src| <==> NoRuns(src, 0))
  {
    hide *;
    syms := [];
    var i := 0;
    NothingSpelt(src[..0]);
    SpellingSize(src, 0);
    SpellingEnds([], src);
    while i < |src|
      invariant i <= |src| && Spells(syms, src[..i]) && syms + Spelling(src, i) == Spelling(src, 0)
    {
      ghost var so, at := syms, i;
      syms, i := SendNext(syms, src, i);
      SpellingStep(so, src, at, i);
    }
    assert src[..i] == src;
    SpellingEnds(syms, src);
  }

  lemma NothingSpelt(lens: seq<CodeLen>)
    requires lens == []
    ensures Spells([], lens)
  {
  }

  lemma EndHere(src: seq<CodeLen>, i: nat, j: nat)
    requires i < j <= |src| && (forall k :: i <= k < j ==> src[k] == src[i]) && (j < |src| ==> src[j] != src[i])
    ensures RunEnd(src, i, j) == j
  {
  }
}

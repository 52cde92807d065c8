/** The formats in numbers, as RFC 1950, RFC 1951 and RFC 1952 give them: code tables, code
    words, block headers, container headers and trailers. */
module Formats {
  import opened Bits
  import opened Canonical
  import opened Checksums
  import opened DeflateCodes
  import opened DecodeTable
  import opened Inflate
  import opened Symbols
  import opened SymbolCoding
  import opened TreeCoding
  import opened Blocks
  import opened Containers
  import opened ChecksumValues

  // ---- Section 3.2.5 of RFC 1951

  /** Length codes: eight without extra bits, then four to each number of them, and 258 apart. */
  lemma LengthCodes(c: nat)
    requires 257 <= c <= 285
    ensures |LENCODES| == 29
    ensures var r, k := LENCODES[c - 257], c - 257;
      && r.code == c
      && (c < 265 ==> r.extrabits == 0 && r.min == k + 3)
      && (265 <= c < 285 ==> r.extrabits == k / 4 - 1 && r.min == 3 + (4 + k % 4) * Pow2(k / 4 - 1))
      && (c == 285 ==> r.extrabits == 0 && r.min == 258)
  {
    Powers();
    hide Pow2;
    assert |LENCODES| == 29;
  }

  /** Code c stands for the distances from min on, with so many extra bits. */
  predicate Distances(c: nat, min: nat, extra: nat) {
    c < |DISTCODES| && DISTCODES[c].code == c && DISTCODES[c].min == min && DISTCODES[c].extrabits == extra
  }

  lemma NearDistances(c: nat)
    requires c < 16
    ensures c < 4 ==> Distances(c, c + 1, 0)
    ensures c >= 4 ==> Distances(c, 1 + (2 + c % 2) * Pow2(c / 2 - 1), c / 2 - 1)
  {
    Powers();
    hide Pow2;
    assert |DISTCODES| == 30;
  }

  lemma FarDistances(c: nat)
    requires 16 <= c < 30
    ensures Distances(c, 1 + (2 + c % 2) * Pow2(c / 2 - 1), c / 2 - 1)
  {
    Powers();
    hide Pow2;
    assert |DISTCODES| == 30;
  }

  /** Distance codes: four without extra bits, then two to each number of them. */
  lemma DistanceCodes(c: nat)
    requires c < 30
    ensures |DISTCODES| == 30
    ensures c < 4 ==> Distances(c, c + 1, 0)
    ensures c >= 4 ==> Distances(c, 1 + (2 + c % 2) * Pow2(c / 2 - 1), c / 2 - 1)
  {
    hide Pow2, Distances;
    assert |DISTCODES| == 30;
    hide DISTCODES;
    if c < 16 {
      NearDistances(c);
    } else {
      FarDistances(c);
    }
  }

  // ---- Section 3.2.7

  /** The order of code-length code lengths: the repetitions, none, and then outward from eight. */
  lemma LengthOrder(i: nat)
    requires i < 19
    ensures MapAt(i) ==
      if i < 3 then 16 + i else if i == 3 then 0
      else if i % 2 == 0 then 8 + (i - 4) / 2 else 8 - (i - 3) / 2
  {
  }

  // ---- Sections 3.1.1 and 3.2.6

  lemma {:induction false} BitOfNumber(v: nat, n: nat, j: nat)
    requires j < n
    ensures BitsOf(v, n)[j] == (v / Pow2(j) % 2 == 1)
  {
    if j > 0 {
      BitOfNumber(v / 2, n - 1, j - 1);
      HalfMod(v, Pow2(j - 1));
    }
  }

  lemma {:induction false} ReverseAt(s: seq<bool>, j: nat)
    requires j < |s|
    ensures Reverse(s)[j] == s[|s| - 1 - j]
  {
    if j < |s| - 1 {
      ReverseAt(s[1..], j);
    }
  }

  /** A code word is sent from its highest bit on. */
  lemma HighestFirst(ls: seq<CodeLen>, i: nat, j: nat)
    requires i < |ls| && j < ls[i]
    ensures CodeBits(ls, i)[j] == (CodeNum(ls, i) / Pow2(ls[i] - 1 - j) % 2 == 1)
  {
    ReverseAt(BitsOf(CodeNum(ls, i), ls[i]), j);
    BitOfNumber(CodeNum(ls, i), ls[i], ls[i] - 1 - j);
  }

  lemma {:induction false} CountRun(ls: seq<CodeLen>, a: nat, b: nat, v: CodeLen, len: nat)
    requires a <= b <= |ls| && forall i :: a <= i < b ==> ls[i] == v
    ensures CountTo(ls, b, len) == CountTo(ls, a, len) + if v == len then b - a else 0
    decreases b
  {
    if a < b {
      CountRun(ls, a, b - 1, v, len);
    }
  }

  /** How many of the first i static codes have this length. */
  lemma StaticCounts(i: nat, len: nat)
    requires i <= 288
    ensures CountTo(StaticLitLen(), i, len) ==
      if len == 8 then (if i <= 144 then i else if i <= 280 then 144 else i - 136)
      else if len == 9 then (if i <= 144 then 0 else if i <= 256 then i - 144 else 112)
      else if len == 7 then (if i <= 256 then 0 else if i <= 280 then i - 256 else 24)
      else 0
  {
    var ls := StaticLitLen();
    assert CountTo(ls, 0, len) == 0;
    CountRun(ls, 0, if i <= 144 then i else 144, 8, len);
    if i > 144 {
      CountRun(ls, 144, if i <= 256 then i else 256, 9, len);
    }
    if i > 256 {
      CountRun(ls, 256, if i <= 280 then i else 280, 7, len);
    }
    if i > 280 {
      CountRun(ls, 280, i, 8, len);
    }
  }

  lemma {:induction false} NoShortCodes(len: nat)
    requires len <= 7
    ensures Start(StaticLitLen(), len) == 0
  {
    if len > 1 {
      NoShortCodes(len - 1);
      StaticCounts(288, len - 1);
    }
  }

  lemma StaticStarts()
    ensures var ls := StaticLitLen(); Start(ls, 7) == 0 && Start(ls, 8) == 48 && Start(ls, 9) == 400
  {
    NoShortCodes(7);
    StaticCounts(288, 7);
    StaticCounts(288, 8);
    hide StaticLitLen, CountTo;
  }

  /** The static code words for literals and lengths. */
  lemma StaticWords(i: nat)
    requires i < 288
    ensures var ls := StaticLitLen();
      && (i < 144 ==> ls[i] == 8 && CodeNum(ls, i) == 0x30 + i)
      && (144 <= i < 256 ==> ls[i] == 9 && CodeNum(ls, i) == 0x190 + (i - 144))
      && (256 <= i < 280 ==> ls[i] == 7 && CodeNum(ls, i) == i - 256)
      && (280 <= i ==> ls[i] == 8 && CodeNum(ls, i) == 0xC0 + (i - 280))
  {
    StaticStarts();
    StaticCounts(i, StaticLitLen()[i]);
    hide Start, CountTo;
  }

  lemma {:induction false} NoShortDistances(len: nat)
    requires len <= 5
    ensures Start(StaticDist(), len) == 0
  {
    if len > 1 {
      NoShortDistances(len - 1);
      CountRun(StaticDist(), 0, 32, 5, len - 1);
    }
  }

  /** Static distance codes are their numbers in five bits. */
  lemma StaticDistances(i: nat)
    requires i < 32
    ensures StaticDist()[i] == 5 && CodeNum(StaticDist(), i) == i
  {
    NoShortDistances(5);
    CountRun(StaticDist(), 0, i, 5, 5);
  }

  // ---- Section 3.2.3

  /** The final bit and the type, lowest bit first. */
  lemma BlockTypes(final: bool)
    ensures HeaderBits(final, 0) == [final, false, false]
    ensures HeaderBits(final, 1) == [final, true, false]
    ensures HeaderBits(final, 2) == [final, false, true]
    ensures HeaderBits(final, 3) == [final, true, true]
  {
    assert BitsOf(0, 1) == [false] && BitsOf(1, 1) == [true];
    assert BitsOf(0, 2) == [false, false] && BitsOf(1, 2) == [true, false];
    assert BitsOf(2, 2) == [false, true] && BitsOf(3, 2) == [true, true];
  }

  lemma StaticType(final: bool, ss: seq<Sym>)
    requires AllEncodable(StaticCodes(), ss)
    ensures StaticBlockBits(final, ss)[..3] == [final, true, false]
  {
    BlockTypes(final);
    hide HeaderBits, BlockBits, StaticCodes;
  }

  /** A number of n bits in a stream, lowest bit first. */
  function NumberAt(b: seq<bool>, at: nat, n: nat): nat
    requires at + n <= |b|
  {
    Val(b[at..at + n])
  }

  lemma Sliced(a: seq<bool>, x: seq<bool>, c: seq<bool>)
    ensures |a + x + c| == |a| + |x| + |c| && (a + x + c)[|a|..|a| + |x|] == x
  {
  }

  lemma SixParts(b: seq<bool>, h: seq<bool>, x: seq<bool>, y: seq<bool>, z: seq<bool>, l: seq<bool>, m: seq<bool>, n: seq<bool>)
    requires |h| == 3 && |x| == 5 && |y| == 5 && |z| == 4 && b == h + (x + y + z) + l + m + n
    ensures |b| >= 17 + |l| && b[..3] == h && b[3..8] == x && b[8..13] == y && b[13..17] == z && b[17..17 + |l|] == l
  {
    assert b == h + x + (y + z + l + m + n);
    Sliced(h, x, y + z + l + m + n);
    assert b == (h + x) + y + (z + l + m + n);
    Sliced(h + x, y, z + l + m + n);
    assert b == (h + x + y) + z + (l + m + n);
    Sliced(h + x + y, z, l + m + n);
    assert b == (h + x + y + z) + l + (m + n);
    Sliced(h + x + y + z, l, m + n);
  }

  lemma {:induction false} LenLenAt(cl: seq<CodeLen>, n: nat, k: nat)
    requires |cl| == 19 && k < n <= 19 && cl[MapAt(k)] < 8
    ensures |LenLenBits(cl, n)| == 3 * n && NumberAt(LenLenBits(cl, n), 3 * k, 3) == cl[MapAt(k)]
  {
    hide MapAt;
    if k == n - 1 {
      assert Pow2(3) == 8 by { Powers(); }
      ValBitsOf(cl[MapAt(k)], 3);
      assert LenLenBits(cl, n)[3 * k..3 * k + 3] == BitsOf(cl[MapAt(k)], 3);
    } else {
      LenLenAt(cl, n - 1, k);
      assert LenLenBits(cl, n)[3 * k..3 * k + 3] == LenLenBits(cl, n - 1)[3 * k..3 * k + 3];
    }
  }

  lemma Inside(b: seq<bool>, from: nat, l: seq<bool>, at: nat, n: nat)
    requires from + |l| <= |b| && b[from..from + |l|] == l && at + n <= |l|
    ensures NumberAt(b, from + at, n) == NumberAt(l, at, n)
  {
    var x, y := b[from + at..from + at + n], l[at..at + n];
    forall j | 0 <= j < n ensures x[j] == y[j] {
      assert b[from..from + |l|][at + j] == b[from + at + j];
    }
    assert x == y;
  }

  lemma ReadableLens(t: Trees, k: nat)
    requires Sendable(t) && k < 19
    ensures 257 <= |t.lit| <= 286 && 1 <= |t.dist| <= 30 && 4 <= t.hclen <= 19 && |t.cl| == 19 && t.cl[MapAt(k)] < 8
  {
    hide Complete, AllEncodable;
  }

  lemma SizesAre(t: Trees)
    requires 257 <= |t.lit| <= 286 && 1 <= |t.dist| <= 30 && 4 <= t.hclen <= 19
    ensures Val(BitsOf(|t.lit| - 257, 5)) == |t.lit| - 257 && Val(BitsOf(|t.dist| - 1, 5)) == |t.dist| - 1
    ensures Val(BitsOf(t.hclen - 4, 4)) == t.hclen - 4
  {
    Powers();
    hide Pow2;
    ValBitsOf(|t.lit| - 257, 5);
    ValBitsOf(|t.dist| - 1, 5);
    ValBitsOf(t.hclen - 4, 4);
  }

  lemma DynamicLayout(final: bool, t: Trees, ss: seq<Sym>)
    requires Sendable(t) && AllEncodable(CodesOf(t), ss)
    ensures 257 <= |t.lit| && 1 <= |t.dist| && 4 <= t.hclen <= 19 && |t.cl| == 19
    ensures var b, l := DynamicBlockBits(final, t, ss), LenLenBits(t.cl, t.hclen);
      && |b| >= 17 + |l| && b[..3] == HeaderBits(final, 2) && b[3..8] == BitsOf(|t.lit| - 257, 5)
      && b[8..13] == BitsOf(|t.dist| - 1, 5) && b[13..17] == BitsOf(t.hclen - 4, 4) && b[17..17 + |l|] == l
  {
    SendableSizes(t);
    SendableEob(t);
    SpellingFits(t);
    DynamicIs(final, t, ss);
    hide *;
    SixParts(DynamicBlockBits(final, t, ss), HeaderBits(final, 2), BitsOf(|t.lit| - 257, 5), BitsOf(|t.dist| - 1, 5),
             BitsOf(t.hclen - 4, 4), LenLenBits(t.cl, t.hclen), SymsBits(CodesOf(t), t.spelling), BlockBits(CodesOf(t), ss));
  }

  /** The type of a dynamic block, the three sizes behind it, and the code-length code lengths
      of three bits each. */
  lemma DynamicHeader(final: bool, t: Trees, ss: seq<Sym>, k: nat)
    requires Sendable(t) && AllEncodable(CodesOf(t), ss) && k < t.hclen
    ensures k < 19 && t.hclen <= 19 && |t.cl| == 19
    ensures var b := DynamicBlockBits(final, t, ss);
      && |b| >= 17 + 3 * t.hclen && b[..3] == [final, false, true]
      && NumberAt(b, 3, 5) == |t.lit| - 257 && NumberAt(b, 8, 5) == |t.dist| - 1 && NumberAt(b, 13, 4) == t.hclen - 4
      && NumberAt(b, 17 + 3 * k, 3) == t.cl[MapAt(k)]
  {
    hide *;
    SendableSizes(t);
    ReadableLens(t, k);
    BlockTypes(final);
    SizesAre(t);
    DynamicLayout(final, t, ss);
    LenLenAt(t.cl, t.hclen, k);
    var b := DynamicBlockBits(final, t, ss);
    NumbersIn(b);
    Inside(b, 17, LenLenBits(t.cl, t.hclen), 3 * k, 3);
  }

  lemma DynamicIs(final: bool, t: Trees, ss: seq<Sym>)
    requires Sendable(t) && AllEncodable(CodesOf(t), ss) && AllEncodable(CodesOf(t), t.spelling)
    requires |t.lit| >= 257 && |t.dist| >= 1 && 4 <= t.hclen <= 19 && |t.cl| == 19 && t.lit[EOB] > 0 && CodesOf(t).lit == t.lit
    ensures DynamicBlockBits(final, t, ss) == HeaderBits(final, 2)
      + (BitsOf(|t.lit| - 257, 5) + BitsOf(|t.dist| - 1, 5) + BitsOf(t.hclen - 4, 4))
      + LenLenBits(t.cl, t.hclen) + SymsBits(CodesOf(t), t.spelling) + BlockBits(CodesOf(t), ss)
  {
    hide HeaderBits, LenLenBits, SymsBits, BlockBits, Sendable, AllEncodable, CodesOf, BitsOf;
  }

  lemma NumbersIn(b: seq<bool>)
    ensures |b| >= 17 ==> NumberAt(b, 3, 5) == Val(b[3..8]) && NumberAt(b, 8, 5) == Val(b[8..13]) && NumberAt(b, 13, 4) == Val(b[13..17])
  {
  }

  // ---- What no encoder should send

  /** A block of the reserved type counts as none; only its final bit is kept. */
  lemma ReservedType(st: State, final: bool, rest: seq<bool>)
    requires Good(st) && st.phase.OutsideBlk?
    ensures Good(Begun(st, final)) && Run(st, [final, true, true] + rest) == Run(Begun(st, final), rest)
  {
    BlockTypes(final);
    hide Run, HeaderBits, BitsOf, Good;
    HeaderField(final, 3, rest);
    ReservedStep(st, final, HeaderBits(final, 3) + rest);
    RunOne(st, HeaderBits(final, 3) + rest);
  }

  lemma ReservedStep(st: State, final: bool, b: seq<bool>)
    requires Good(st) && st.phase.OutsideBlk? && |b| >= 3 && b[0] == final && Field(b[1..], 2) == 3
    ensures Step(st, b) == Next(Begun(st, final), 3)
  {
    hide Complete, Checksum, Reduced, Field, StaticLitLen, StaticDist;
  }

  /** The two length codes that stand for nothing are passed over. */
  lemma UnusedLengths(st: State, c: nat, rest: seq<bool>)
    requires Good(st) && st.phase.InBlk? && (c == 286 || c == 287) && c < |st.litlen| && st.litlen[c] > 0
    ensures Run(st, CodeBits(st.litlen, c) + rest) == Run(st, rest)
  {
    assert Complete(st.litlen);
    hide Complete, Checksum, Reduced, DecodeSym, CodeBits, Run;
    CodeWord(st.litlen, c, rest);
    RunOne(st, CodeBits(st.litlen, c) + rest);
  }

  /** A length in a block without distances is an error. */
  lemma NoDistances(st: State, b: seq<bool>)
    requires Good(st) && st.phase.GotLen? && st.dist.NoDist? && b != []
    ensures Run(st, b) == Outcome(st, b, Bad(NoDistTable))
  {
    hide Complete, Checksum, Reduced, DecodeSym;
  }

  // ---- Section 3.2.7 of RFC 1951: repetitions

  /** Code c has been read, and then that n lengths like the last one, or zeros, are meant; no more are stored than
      announced. */
  function After(st: State, c: nat, n: nat): State {
    var x := if c == 16 && st.lengths != [] then st.lengths[|st.lengths| - 1] else 0;
    Asked(st, c).(lengths := st.lengths + Repeat(x, Min(n, if |st.lengths| < st.hlit + st.hdist then st.hlit + st.hdist - |st.lengths| else 0)),
                  phase := TreesLen)
  }

  function Asked(st: State, c: nat): State {
    st.(lenextrabits := if c == 16 then 2 else if c == 17 then 3 else 7, lenaddon := if c == 18 then 11 else 3,
        lenrep := if c == 16 && st.lengths != [] then st.lengths[|st.lengths| - 1] else 0, phase := TreesLenRep)
  }

  /** 16 repeats the last length three to six times, 17 a zero three to ten times, 18 a zero eleven to 138 times. */
  lemma Repetitions(st: State, c: nat, v: nat, rest: seq<bool>)
    requires Good(st) && st.phase.TreesLen? && |st.lengths| < st.hlit + st.hdist
    requires 16 <= c <= 18 && c < |st.lenlen| && st.lenlen[c] > 0
    requires v < if c == 16 then 4 else if c == 17 then 8 else 128
    ensures var s := After(st, c, v + if c == 18 then 11 else 3);
      var n := if c == 16 then 2 else if c == 17 then 3 else 7;
      Good(s) && Run(st, CodeBits(st.lenlen, c) + (BitsOf(v, n) + rest)) == Run(s, rest)
  {
    var n := if c == 16 then 2 else if c == 17 then 3 else 7;
    assert Pow2(2) == 4 && Pow2(3) == 8 && Pow2(7) == 128;
    hide *;
    AskedFirst(st, c, BitsOf(v, n) + rest);
    ThenStored(st, c, v, rest);
  }

  lemma AskedFirst(st: State, c: nat, rest: seq<bool>)
    requires Good(st) && st.phase.TreesLen? && |st.lengths| < st.hlit + st.hdist
    requires 16 <= c <= 18 && c < |st.lenlen| && st.lenlen[c] > 0
    ensures Good(Asked(st, c)) && Run(st, CodeBits(st.lenlen, c) + rest) == Run(Asked(st, c), rest)
  {
    hide Complete, Checksum, Reduced, DecodeSym, CodeBits, Run, TreesDone;
    CodeWord(st.lenlen, c, rest);
    RunOne(st, CodeBits(st.lenlen, c) + rest);
  }

  lemma ThenStored(st: State, c: nat, v: nat, rest: seq<bool>)
    requires Good(Asked(st, c)) && 16 <= c <= 18 && |st.lengths| < st.hlit + st.hdist
    requires var n := if c == 16 then 2 else if c == 17 then 3 else 7; v < Pow2(n)
    ensures var s := After(st, c, v + if c == 18 then 11 else 3);
      var n := if c == 16 then 2 else if c == 17 then 3 else 7;
      Good(s) && Run(Asked(st, c), BitsOf(v, n) + rest) == Run(s, rest)
  {
    var n := if c == 16 then 2 else if c == 17 then 3 else 7;
    hide Good, Step, Field, Run, BitsOf, Pow2, After, Asked;
    FieldKnown(v, n, rest);
    StoreStep(st, c, v, BitsOf(v, n) + rest);
    RunOne(Asked(st, c), BitsOf(v, n) + rest);
  }

  lemma StoreStep(st: State, c: nat, v: nat, b: seq<bool>)
    requires Good(Asked(st, c)) && 16 <= c <= 18 && |st.lengths| < st.hlit + st.hdist
    requires var n := if c == 16 then 2 else if c == 17 then 3 else 7; |b| >= n && Field(b, n) == v && v < Pow2(n)
    ensures Step(Asked(st, c), b) == Next(After(st, c, v + if c == 18 then 11 else 3), if c == 16 then 2 else if c == 17 then 3 else 7)
  {
    hide Complete, Checksum, Reduced, Field, Pow2, Repeat;
  }
}

/** The first half of outblock(): from the symbols of a block to its own Huffman
    trees and the symbols that transmit them. */
module BlockTrees {
  import opened Bits
  import opened Canonical
  import opened DeflateCodes
  import opened Symbols
  import opened SymbolCoding
  import opened CodeLengths
  import opened TreeCoding
  import opened Blocks
  import Huffman
  import HuffmanCodes
  import HuffmanTheory
  import Kraft
  import DeflateHuffman

  /** struct huftrees: lengths and mirrored codes of the three alphabets. */
  datatype HufTrees = HufTrees(lens: Codes, lit: seq<nat>, dist: seq<nat>, codelen: seq<nat>)

  /** The codes are the canonical ones for the lengths. */
  ghost predicate CodesFor(ls: seq<CodeLen>, codes: seq<nat>) {
    |codes| == |ls| && forall i :: 0 <= i < |ls| ==> codes[i] == Val(CodeBits(ls, i))
  }

  ghost predicate Built(h: HufTrees) {
    CodesFor(h.lens.lit, h.lit) && CodesFor(h.lens.dist, h.dist) && CodesFor(h.lens.lens, h.codelen)
  }

  /** The code number and length writesym() hands to outbits(). */
  function NumberOf(h: HufTrees, s: Sym): (r: (nat, nat))
    requires Encodable(h.lens, s) && Built(h)
    ensures s.ExtraBits? || r.1 <= 15
    ensures BitsOf(r.0, r.1) == SymBits(h.lens, s) && r.0 < Pow2(r.1)
  {
    if s.ExtraBits? then (s.value, s.nbits) else
      NumberIsCode(h, s);
      if s.LitLenSym? then (h.lit[s.code], h.lens.lit[s.code])
      else if s.DistSym? then (h.dist[s.code], h.lens.dist[s.code])
      else (h.codelen[s.code], h.lens.lens[s.code])
  }

  lemma NumberIsCode(h: HufTrees, s: Sym)
    requires Encodable(h.lens, s) && Built(h) && !s.ExtraBits?
    ensures var c, ls, codes := s.code,
        if s.LitLenSym? then h.lens.lit else if s.DistSym? then h.lens.dist else h.lens.lens,
        if s.LitLenSym? then h.lit else if s.DistSym? then h.dist else h.codelen;
      c < |ls| == |codes| && codes[c] < Pow2(ls[c]) && BitsOf(codes[c], ls[c]) == CodeBits(ls, c)
  {
    hide CodeBits;
    var ls := if s.LitLenSym? then h.lens.lit else if s.DistSym? then h.lens.dist else h.lens.lens;
    ValBound(CodeBits(ls, s.code));
    BitsOfVal(CodeBits(ls, s.code));
  }

  /** How often s occurs. */
  function Occurrences(ss: seq<Sym>, s: Sym): (n: nat)
    ensures n > 0 <==> s in ss
  {
    if ss == [] then 0 else Occurrences(ss[..|ss| - 1], s) + if ss[|ss| - 1] == s then 1 else 0
  }

  /** Some symbol is used. */
  ghost predicate Used(fs: seq<int>) {
    exists i :: 0 <= i < |fs| && fs[i] > 0
  }

  /** A code for the given frequencies: complete unless there is nothing to encode. */
  ghost predicate Serves(ls: seq<CodeLen>, fs: seq<int>) {
    && |ls| == |fs|
    && (forall i :: 0 <= i < |fs| && fs[i] > 0 ==> ls[i] > 0)
    && (Used(fs) ==> Complete(ls))
    && (!Used(fs) ==> forall i :: 0 <= i < |ls| ==> ls[i] == 0)
  }

  lemma {:induction false} CountAtLeast(fs: seq<int>, n: nat, i: nat)
    requires i < n <= |fs| && fs[i] > 0
    ensures DeflateHuffman.CountPositive(fs, n) >= 1
    ensures forall j :: 0 <= j < n && j != i && fs[j] > 0 ==> DeflateHuffman.CountPositive(fs, n) >= 2
    decreases n
  {
    if i < n - 1 {
      CountAtLeast(fs, n - 1, i);
    } else {
      forall j | 0 <= j < n - 1 && fs[j] > 0
        ensures DeflateHuffman.CountPositive(fs, n - 1) >= 1
      {
        CountAtLeast(fs, n - 1, j);
      }
    }
  }

  lemma {:induction false} CountOne(fs: seq<int>, n: nat) returns (i: nat)
    requires n <= |fs| && DeflateHuffman.CountPositive(fs, n) >= 1
    ensures i < n && fs[i] > 0
  {
    if fs[n - 1] > 0 {
      i := n - 1;
    } else {
      i := CountOne(fs, n - 1);
    }
  }

  lemma {:induction false} CountTwo(fs: seq<int>, n: nat) returns (i: nat, j: nat)
    requires n <= |fs| && DeflateHuffman.CountPositive(fs, n) >= 2
    ensures i < j < n && fs[i] > 0 && fs[j] > 0
  {
    if fs[n - 1] > 0 {
      j := n - 1;
      i := CountOne(fs, n - 1);
    } else {
      i, j := CountTwo(fs, n - 1);
    }
  }

  lemma SomeZero(fs: seq<int>, n: nat)
    requires n == |fs| >= 2 && DeflateHuffman.CountPositive(fs, n) == 1 && forall i :: 0 <= i < n ==> fs[i] >= 0
    ensures DeflateHuffman.FirstZero(fs, n) < n
  {
    var i := CountOne(fs, n);
    CountAtLeast(fs, n, i);
    var j := if i == 0 then 1 else 0;
    assert fs[j] <= 0;
  }

  /** After deflate_buildhuf's special case there are two used symbols or none. */
  lemma InventedTwo(fs: seq<int>, n: nat)
    requires n == |fs| >= 2 && Used(fs) && forall i :: 0 <= i < n ==> fs[i] >= 0
    ensures var r := DeflateHuffman.Invented(fs, n);
      && (forall i :: 0 <= i < n && fs[i] > 0 ==> r[i] > 0)
      && exists i, j :: 0 <= i < j < n && r[i] > 0 && r[j] > 0
  {
    var a :| 0 <= a < n && fs[a] > 0;
    CountAtLeast(fs, n, a);
    var r := DeflateHuffman.Invented(fs, n);
    if DeflateHuffman.CountPositive(fs, n) == 1 {
      var z := DeflateHuffman.FirstZero(fs, n);
      SomeZero(fs, n);
      assert r[a] > 0 && r[z] > 0;
      assert 0 <= z < a < n || 0 <= a < z < n;
    } else {
      var i, j := CountTwo(fs, n);
      assert 0 <= i < j < n && r[i] > 0 && r[j] > 0;
    }
  }

  lemma InventedNone(fs: seq<int>, n: nat)
    requires n == |fs| && !Used(fs)
    ensures DeflateHuffman.Invented(fs, n) == fs
  {
    if DeflateHuffman.CountPositive(fs, n) >= 1 {
      var i := CountOne(fs, n);
    }
  }

  /** The lengths deflate_buildhuf writes serve the frequencies it was given. */
  lemma BuiltServes(fs: seq<int>, raised: seq<int>, adjust: nat, d: Kraft.Lengths, ls: seq<CodeLen>, n: nat)
    requires n == |fs| == |raised| == |ls| >= 2 && forall i :: 0 <= i < n ==> fs[i] >= 0
    requires raised == DeflateHuffman.Raised(DeflateHuffman.Invented(fs, n), n, adjust)
    requires Huffman.IsHuffman(Huffman.Active(raised, n), d)
    requires forall i :: 0 <= i < n ==> ls[i] == Huffman.WrittenLength(d, i)
    ensures Serves(ls, fs)
  {
    hide HuffmanTheory.Optimal, Huffman.FibonacciBounded, Complete;
    var w := Huffman.Active(raised, n);
    if Used(fs) {
      InventedTwo(fs, n);
      var f0 := DeflateHuffman.Invented(fs, n);
      var a, b :| 0 <= a < b < n && f0[a] > 0 && f0[b] > 0;
      assert a in w && b in w;
      forall i | i in w
        ensures 0 <= i < |ls| && d[i] <= 15 && ls[i] == d[i]
      {
        assert ls[i] == Huffman.WrittenLength(d, i);
      }
      HuffmanCodes.HuffmanComplete(w, d, ls, a, b);
    } else {
      InventedNone(fs, n);
    }
  }

  /** The code lengths for given frequencies, in the end. */
  function LensFor(fs: seq<int>, n: nat, limit: nat): (ls: seq<CodeLen>)
    requires n <= |fs| && (limit == 15 || limit == 7) && n < DeflateHuffman.MaxProb(limit)
    ensures |ls| == n
  {
    seq(n, i requires 0 <= i < n =>
      var l := Huffman.HufLength(DeflateHuffman.Adjusted(fs, n, limit), n, i);
      if l <= 15 then l else 15)
  }

  lemma LensAre(fs: seq<int>, n: nat, limit: nat, ls: seq<CodeLen>)
    requires n <= |fs| && (limit == 15 || limit == 7) && n < DeflateHuffman.MaxProb(limit) && |ls| == n
    requires forall i :: 0 <= i < n ==> ls[i] == Huffman.HufLength(DeflateHuffman.Adjusted(fs, n, limit), n, i)
    ensures ls == LensFor(fs, n, limit)
  {
  }

  /** deflate_buildhuf followed by hufcodes. ok is the verdict of the former's final
      assertion. */
  method BuildCode(freqs: array<int>, n: nat, limit: nat) returns (ok: bool, ls: seq<CodeLen>, codes: seq<nat>)
    requires (n == 286 && limit == 15) || (n == 30 && limit == 15) || (n == 19 && limit == 7)
    requires freqs.Length == n && forall i :: 0 <= i < n ==> freqs[i] >= 0
    modifies freqs
    ensures ok <==> DeflateHuffman.Codable(old(freqs[..]), n, limit)
    ensures ok ==> ls == LensFor(old(freqs[..]), n, limit)
    ensures ok ==> Serves(ls, old(freqs[..])) && CodesFor(ls, codes) && forall i :: 0 <= i < n ==> ls[i] <= limit
  {
    hide Huffman.IsHuffman, Serves, DeflateHuffman.Flattened, DeflateHuffman.Borderline, CodeBits, Complete;
    hide DeflateHuffman.Invented, DeflateHuffman.Raised, Huffman.WrittenLength, KraftTo, Verdict;
    hide DeflateHuffman.Adjusted, DeflateHuffman.Codable, DeflateHuffman.NoSlack, Huffman.HufLength, LensFor;
    var lengths := new byte[n](_ => 0);
    ghost var fs := freqs[..];
    ghost var d, adjust;
    ok, d, adjust := DeflateHuffman.DeflateBuildHuf(freqs, lengths, n, limit);
    ls, codes := [], [];
    if !ok {
      return;
    }
    var lens := new CodeLen[n](i requires 0 <= i < n && lengths.Length == n && (forall k :: 0 <= k < n ==> lengths[k] <= limit <= 15) reads lengths =>
      lengths[i]);
    ls := lens[..];
    BuiltServes(fs, freqs[..], adjust, d, ls, n);
    LensAre(fs, n, limit, ls);
    var table := new int[n](_ => 0);
    var longest := HufCodes(lens, table, n);
    assert lens[..n] == ls;
    codes := seq(n, i requires 0 <= i < n == table.Length && (forall k :: 0 <= k < n ==> table[k] >= 0) reads table => table[i]);
  }

  // ---- The circular symbol buffer

  const SYMLIMIT: nat := 65536

  function Place(start: nat, i: nat): (k: nat)
    ensures k < SYMLIMIT
  {
    (start + i) % SYMLIMIT
  }

  /** From start on, the buffer holds ss. */
  ghost predicate Ring(buf: seq<Sym>, start: nat, ss: seq<Sym>) {
    |buf| == SYMLIMIT && |ss| <= SYMLIMIT && forall i :: 0 <= i < |ss| ==> buf[Place(start, i)] == ss[i]
  }

  lemma RingAt(buf: seq<Sym>, start: nat, ss: seq<Sym>, i: nat)
    requires Ring(buf, start, ss) && i < |ss|
    ensures |buf| == SYMLIMIT && buf[(start + i) % SYMLIMIT] == ss[i]
  {
    assert buf[Place(start, i)] == ss[i];
  }

  lemma RingPush(buf: seq<Sym>, start: nat, ss: seq<Sym>, s: Sym)
    requires Ring(buf, start, ss) && |ss| < SYMLIMIT
    ensures Ring(buf[(start + |ss|) % SYMLIMIT := s], start, ss + [s])
  {
    var buf' := buf[(start + |ss|) % SYMLIMIT := s];
    forall i | 0 <= i < |ss|
      ensures buf'[Place(start, i)] == ss[i]
    {
      assert Place(start, i) != (start + |ss|) % SYMLIMIT;
    }
  }

  lemma PlaceShift(start: nat, n: nat, i: nat)
    ensures Place((start + n) % SYMLIMIT, i) == Place(start, n + i)
  {
  }

  lemma RingDrop(buf: seq<Sym>, start: nat, ss: seq<Sym>, n: nat)
    requires Ring(buf, start, ss) && n <= |ss|
    ensures Ring(buf, (start + n) % SYMLIMIT, ss[n..])
  {
    hide Place;
    forall i | 0 <= i < |ss| - n
      ensures buf[Place((start + n) % SYMLIMIT, i)] == ss[n..][i]
    {
      PlaceShift(start, n, i);
    }
  }

  /** The symbols a block may hold. */
  predicate BlockSym(s: Sym) {
    match s
    case LitLenSym(c) => c < 286
    case DistSym(c) => c < 30
    case ExtraBits(v, n) => v < Pow2(n) && n <= 13
    case CodeLenSym(_) => false
  }

  ghost predicate Counted(freqs: seq<int>, ss: seq<Sym>, dist: bool) {
    forall c :: 0 <= c < |freqs| ==>
      freqs[c] == if dist then Occurrences(ss, DistSym(c)) else Occurrences(ss, LitLenSym(c)) + if c == EOB then 1 else 0
  }

  lemma CountSym(freqs: seq<int>, ss: seq<Sym>, i: nat, dist: bool)
    requires i < |ss| && Counted(freqs, ss[..i], dist)
    ensures dist && ss[i].DistSym? && ss[i].code < |freqs| ==>
      Counted(freqs[ss[i].code := freqs[ss[i].code] + 1], ss[..i + 1], dist)
    ensures !dist && ss[i].LitLenSym? && ss[i].code < |freqs| ==>
      Counted(freqs[ss[i].code := freqs[ss[i].code] + 1], ss[..i + 1], dist)
    ensures (if dist then !ss[i].DistSym? else !ss[i].LitLenSym?) ==> Counted(freqs, ss[..i + 1], dist)
  {
    assert ss[..i + 1][..i] == ss[..i];
  }

  method Clear(a: array<int>)
    modifies a
    ensures forall i :: 0 <= i < a.Length ==> a[i] == 0
  {
    for i := 0 to a.Length
      invariant forall k :: 0 <= k < i ==> a[k] == 0
    {
      a[i] := 0;
    }
  }

  lemma CountNone(freqs1: seq<int>, freqs2: seq<int>, ss: seq<Sym>)
    requires ss == [] && |freqs1| == 286 && forall i :: 0 <= i < 286 ==> freqs1[i] == if i == EOB then 1 else 0
    requires forall i :: 0 <= i < |freqs2| ==> freqs2[i] == 0
    ensures Counted(freqs1, ss, false) && Counted(freqs2, ss, true)
  {
  }

  /** The frequency tables of a block: one end-of-block code is bound to be needed. */
  method CountBlock(syms: array<Sym>, symstart: nat, len: nat, freqs1: array<int>, freqs2: array<int>, ghost ss: seq<Sym>)
    requires Ring(syms[..], symstart, ss) && len <= |ss| && freqs1.Length == 286 && freqs2.Length == 30 && freqs1 != freqs2
    requires freqs1 != syms as object && freqs2 != syms as object
    requires forall i :: 0 <= i < |ss| ==> BlockSym(ss[i])
    modifies freqs1, freqs2
    ensures Counted(freqs1[..], ss[..len], false) && Counted(freqs2[..], ss[..len], true)
  {
    hide Counted, Ring;
    Clear(freqs1);
    Clear(freqs2);
    freqs1[EOB] := 1;
    CountNone(freqs1[..], freqs2[..], ss[..0]);
    for i := 0 to len
      invariant Counted(freqs1[..], ss[..i], false) && Counted(freqs2[..], ss[..i], true)
    {
      RingAt(syms[..], symstart, ss, i);
      CountSym(freqs1[..], ss, i, false);
      CountSym(freqs2[..], ss, i, true);
      var sym := syms[(symstart + i) % SYMLIMIT];
      assert BlockSym(ss[i]);
      if sym.LitLenSym? {
        freqs1[sym.code] := freqs1[sym.code] + 1;
      } else if sym.DistSym? {
        freqs2[sym.code] := freqs2[sym.code] + 1;
      }
    }
  }

  // ---- Trees for a block

  /** How many of the first n lengths are sent: no zeros at the end beyond the least number. */
  function SentOf(ls: seq<CodeLen>, n: nat, least: nat): (k: nat)
    requires least <= n <= |ls|
    ensures least <= k <= n
    decreases n
  {
    if n > least && ls[n - 1] == 0 then SentOf(ls, n - 1, least) else n
  }

  /** The loops that find HLIT, HDIST and HCLEN. */
  method Trim(ls: seq<CodeLen>, least: nat) returns (k: nat)
    requires least <= |ls|
    ensures least <= k <= |ls| && forall i :: k <= i < |ls| ==> ls[i] == 0
    ensures (k == least || ls[k - 1] != 0) && k == SentOf(ls, |ls|, least)
  {
    k := |ls|;
    while k > least && ls[k - 1] == 0
      invariant least <= k <= |ls| && forall i :: k <= i < |ls| ==> ls[i] == 0
      invariant SentOf(ls, k, least) == SentOf(ls, |ls|, least)
    {
      k := k - 1;
    }
  }

  /** The three codes and what the block sends of them. */
  datatype Plan = Plan(len1: seq<CodeLen>, len2: seq<CodeLen>, len3: seq<CodeLen>, hlit: nat, hdist: nat, hclen: nat,
                       spelling: seq<Sym>)

  ghost predicate PlanSizes(p: Plan) {
    && |p.len1| == 286 && |p.len2| == 30 && |p.len3| == 19
    && 257 <= p.hlit <= 286 && 1 <= p.hdist <= 30 && 4 <= p.hclen <= 19
    && (forall i :: p.hlit <= i < 286 ==> p.len1[i] == 0) && (forall i :: p.hdist <= i < 30 ==> p.len2[i] == 0)
    && (p.hdist == 1 || p.len2[p.hdist - 1] != 0)
  }

  function TreesOf(p: Plan): Trees
    requires p.hlit <= |p.len1| && p.hdist <= |p.len2|
  {
    Trees(p.len1[..p.hlit], p.len2[..p.hdist], p.len3, p.hclen, p.spelling)
  }

  function FullCodes(p: Plan): Codes {
    Codes(p.len1, p.len2, p.len3)
  }

  /** Dropping the unused tails of the alphabets loses no code. */
  lemma TrimmedCodes(p: Plan, s: Sym)
    requires PlanSizes(p)
    ensures Encodable(FullCodes(p), s) <==> Encodable(CodesOf(TreesOf(p)), s)
    ensures Encodable(FullCodes(p), s) ==> SymBits(FullCodes(p), s) == SymBits(CodesOf(TreesOf(p)), s)
  {
    hide CodeBits, BitsOf, Pow2;
    if s.LitLenSym? && s.code < p.hlit {
      CodeOfPrefix(p.len1, p.hlit, s.code);
    } else if s.DistSym? && s.code < p.hdist {
      CodeOfPrefix(p.len2, p.hdist, s.code);
    }
  }

  lemma TrimmedDist(p: Plan, fs: seq<int>)
    requires PlanSizes(p) && Serves(p.len2, fs)
    ensures var d := p.len2[..p.hdist]; d == [0] || Complete(d)
  {
    hide Complete;
    CompletePrefix(p.len2, p.hdist);
    if !Used(fs) {
      assert p.len2[p.hdist - 1] == 0;
      assert p.len2[..1] == [0];
    }
  }

  lemma UsedEob(fs: seq<int>, ss: seq<Sym>)
    requires |fs| == 286 && Counted(fs, ss, false)
    ensures Used(fs) && fs[EOB] > 0
  {
    assert fs[256] == Occurrences(ss, LitLenSym(256)) + 1;
  }

  /** The codes exist for whatever was counted. */
  lemma CountedEncodable(p: Plan, fs1: seq<int>, fs2: seq<int>, ss: seq<Sym>)
    requires |fs1| == 286 && |fs2| == 30 && Counted(fs1, ss, false) && Counted(fs2, ss, true)
    requires Serves(p.len1, fs1) && Serves(p.len2, fs2)
    requires forall i :: 0 <= i < |ss| ==> BlockSym(ss[i])
    ensures AllEncodable(FullCodes(p), ss)
  {
    hide Complete, Pow2;
    forall i | 0 <= i < |ss|
      ensures Encodable(FullCodes(p), ss[i])
    {
      assert ss[i] in ss && BlockSym(ss[i]);
      assert ss[i].LitLenSym? ==> fs1[ss[i].code] > 0;
      assert ss[i].DistSym? ==> fs2[ss[i].code] > 0;
    }
  }

  lemma SpellingEncodable(p: Plan, fs3: seq<int>, lens: seq<CodeLen>)
    requires Serves(p.len3, fs3) && |fs3| == 19
    requires forall c :: 0 <= c < 19 ==> fs3[c] == Occurrences(p.spelling, CodeLenSym(c))
    requires Spells(p.spelling, lens) && lens != []
    ensures AllEncodable(FullCodes(p), p.spelling) && Complete(p.len3)
  {
    hide Complete, Pow2;
    forall i | 0 <= i < |p.spelling|
      ensures Encodable(FullCodes(p), p.spelling[i])
    {
      ListedSym(p.spelling, i);
      assert p.spelling[i] in p.spelling;
      assert p.spelling[i].CodeLenSym? ==> fs3[p.spelling[i].code] > 0;
    }
    assert p.spelling != [] by { NothingListed(p.spelling); }
    FirstListed(p.spelling);
    assert p.spelling[0] in p.spelling && fs3[p.spelling[0].code] > 0;
  }

  lemma NothingListed(ss: seq<Sym>)
    ensures ss == [] ==> AllListable(ss) && Listed(ss).lens == []
  {
  }

  lemma {:induction false} ListedNbits(ss: seq<Sym>)
    requires AllListable(ss)
    ensures Listed(ss).pending.Rep? ==> Listed(ss).pending.nbits <= 7
  {
    if ss != [] {
      ListedNbits(ss[..|ss| - 1]);
    }
  }

  lemma {:induction false} ListedSym(ss: seq<Sym>, i: nat)
    requires AllListable(ss) && i < |ss|
    ensures ss[i].CodeLenSym? || ss[i].ExtraBits?
    ensures ss[i].CodeLenSym? ==> ss[i].code < 19
    ensures ss[i].ExtraBits? ==> ss[i].value < Pow2(ss[i].nbits) && ss[i].nbits <= 7
    decreases |ss|
  {
    ListedNbits(ss[..|ss| - 1]);
    if i < |ss| - 1 {
      ListedSym(ss[..|ss| - 1], i);
    }
  }

  lemma {:induction false} FirstListed(ss: seq<Sym>)
    requires AllListable(ss) && ss != []
    ensures ss[0].CodeLenSym? && ss[0].code < 19
    decreases |ss|
  {
    if |ss| == 1 {
      assert ss[..0] == [];
    } else {
      FirstListed(ss[..|ss| - 1]);
    }
  }

  /** The pieces make trees the decompressor accepts, with a code for every symbol. */
  lemma PlanSendable(p: Plan, fs1: seq<int>, fs2: seq<int>, fs3: seq<int>, ss: seq<Sym>)
    requires PlanSizes(p)
    requires |fs1| == 286 && |fs2| == 30 && |fs3| == 19 && Counted(fs1, ss, false) && Counted(fs2, ss, true)
    requires forall c :: 0 <= c < 19 ==> fs3[c] == Occurrences(p.spelling, CodeLenSym(c))
    requires Serves(p.len1, fs1) && Serves(p.len2, fs2) && Serves(p.len3, fs3)
    requires forall i :: 0 <= i < 19 ==> p.len3[i] < 8
    requires forall i :: p.hclen <= i < 19 ==> p.len3[MapAt(i)] == 0
    requires Spells(p.spelling, p.len1[..p.hlit] + p.len2[..p.hdist])
    requires forall i :: 0 <= i < |ss| ==> BlockSym(ss[i])
    ensures Sendable(TreesOf(p)) && AllEncodable(CodesOf(TreesOf(p)), ss) && AllEncodable(FullCodes(p), ss)
    ensures AllEncodable(FullCodes(p), p.spelling)
  {
    hide Complete, Spells, Counted, Encodable, Occurrences;
    UsedEob(fs1, ss);
    CompletePrefix(p.len1, p.hlit);
    TrimmedDist(p, fs2);
    CountedEncodable(p, fs1, fs2, ss);
    SpellingEncodable(p, fs3, p.len1[..p.hlit] + p.len2[..p.hdist]);
    TrimmedAll(p, ss);
    TrimmedAll(p, p.spelling);
  }

  lemma TrimmedAll(p: Plan, ss: seq<Sym>)
    requires PlanSizes(p) && AllEncodable(FullCodes(p), ss)
    ensures AllEncodable(CodesOf(TreesOf(p)), ss)
  {
    hide Encodable;
    forall i | 0 <= i < |ss|
      ensures Encodable(CodesOf(TreesOf(p)), ss[i])
    {
      TrimmedCodes(p, ss[i]);
    }
  }

  /** Frequencies of the code-length alphabet. */
  method CountSpelling(spelling: seq<Sym>) returns (freqs3: array<int>)
    requires AllListable(spelling)
    ensures fresh(freqs3) && freqs3.Length == 19
    ensures forall c :: 0 <= c < 19 ==> freqs3[c] == Occurrences(spelling, CodeLenSym(c))
  {
    freqs3 := new int[19](_ => 0);
    assert spelling[..0] == [];
    for i := 0 to |spelling|
      invariant forall c :: 0 <= c < 19 ==> freqs3[c] == Occurrences(spelling[..i], CodeLenSym(c))
    {
      ListedSym(spelling, i);
      assert spelling[..i + 1][..i] == spelling[..i];
      if spelling[i].CodeLenSym? {
        freqs3[spelling[i].code] := freqs3[spelling[i].code] + 1;
      }
    }
    assert spelling[..|spelling|] == spelling;
  }

  /** The code-length code lengths in the order of transmission. */
  function Mapped(len3: seq<CodeLen>): (ls: seq<CodeLen>)
    requires |len3| == 19
    ensures |ls| == 19
  {
    seq(19, i requires 0 <= i < 19 => len3[MapAt(i)])
  }

  /** HCLEN: code-length code lengths that are not sent. */
  method FindHclen(len3: seq<CodeLen>) returns (codelen: seq<CodeLen>, hclen: nat)
    requires |len3| == 19
    ensures |codelen| == 19 && (forall i :: 0 <= i < 19 ==> codelen[i] == len3[MapAt(i)])
    ensures 4 <= hclen <= 19 && forall i :: hclen <= i < 19 ==> len3[MapAt(i)] == 0
    ensures codelen == Mapped(len3) && hclen == SentOf(Mapped(len3), 19, 4)
  {
    codelen := seq(19, i requires 0 <= i < 19 => len3[MapAt(i)]);
    hclen := Trim(codelen, 4);
    assert forall i :: hclen <= i < 19 ==> codelen[i] == len3[MapAt(i)];
  }

  // ---- Which blocks have trees

  function LitFreqs(ss: seq<Sym>): (fs: seq<int>)
    ensures |fs| == 286
  {
    seq(286, c requires 0 <= c < 286 => Occurrences(ss, LitLenSym(c)) + if c == EOB then 1 else 0)
  }

  function DistFreqs(ss: seq<Sym>): (fs: seq<int>)
    ensures |fs| == 30
  {
    seq(30, c requires 0 <= c < 30 => Occurrences(ss, DistSym(c)) as int)
  }

  function LenFreqs(ss: seq<Sym>): (fs: seq<int>)
    ensures |fs| == 19
  {
    seq(19, c requires 0 <= c < 19 => Occurrences(ss, CodeLenSym(c)) as int)
  }

  /** The code lengths that are sent for a block. */
  function SentLens(ss: seq<Sym>): (ls: seq<CodeLen>)
    ensures |ls| <= 316
  {
    var len1, len2 := LensFor(LitFreqs(ss), 286, 15), LensFor(DistFreqs(ss), 30, 15);
    len1[..SentOf(len1, 286, 257)] + len2[..SentOf(len2, 30, 1)]
  }

  /** The trees of a block. */
  function TreesFor(ss: seq<Sym>): (t: Trees)
    ensures |t.lit| >= 257 && |t.dist| >= 1 && |t.cl| == 19 && 4 <= t.hclen <= 19
  {
    var len1, len2 := LensFor(LitFreqs(ss), 286, 15), LensFor(DistFreqs(ss), 30, 15);
    var spelling := Spelling(SentLens(ss), 0);
    var len3 := LensFor(LenFreqs(spelling), 19, 7);
    Trees(len1[..SentOf(len1, 286, 257)], len2[..SentOf(len2, 30, 1)], len3, SentOf(Mapped(len3), 19, 4), spelling)
  }

  lemma TreesAre(ss: seq<Sym>, p: Plan)
    requires p.len1 == LensFor(LitFreqs(ss), 286, 15) && p.len2 == LensFor(DistFreqs(ss), 30, 15)
    requires p.hlit == SentOf(p.len1, 286, 257) && p.hdist == SentOf(p.len2, 30, 1)
    requires p.spelling == Spelling(SentLens(ss), 0) && p.len3 == LensFor(LenFreqs(p.spelling), 19, 7)
    requires p.hclen == SentOf(Mapped(p.len3), 19, 4)
    ensures TreesOf(p) == TreesFor(ss)
  {
  }

  /** No assertion fails while the trees for these symbols are made: the three codes can be
      limited, and the array of tree symbols does not overflow. */
  predicate Plannable(ss: seq<Sym>) {
    && DeflateHuffman.Codable(LitFreqs(ss), 286, 15) && DeflateHuffman.Codable(DistFreqs(ss), 30, 15)
    && |Spelling(SentLens(ss), 0)| < 286 + 30
    && DeflateHuffman.Codable(LenFreqs(Spelling(SentLens(ss), 0)), 19, 7)
  }

  /** The first code is too long, nothing is to spare after the adjustment, and the code for
      the adjusted frequencies is too long again. */
  predicate Hopeless(fs: seq<int>, n: nat, limit: nat)
    requires n <= |fs| && (limit == 15 || limit == 7) && n < DeflateHuffman.MaxProb(limit)
  {
    var f0 := DeflateHuffman.Invented(fs, n);
    && !DeflateHuffman.FitsIn(f0, n, limit) && DeflateHuffman.NoSlack(f0, n, limit)
    && !DeflateHuffman.FitsIn(DeflateHuffman.Raised(f0, n, DeflateHuffman.Adjustment(f0, n, limit)), n, limit)
  }

  /** What is wrong with symbols that have no trees: one of the three codes cannot be
      limited, or all 316 lengths are sent and no run of them is long enough to be abbreviated. */
  lemma PlanFails(ss: seq<Sym>)
    ensures var sent := SentLens(ss);
      !Plannable(ss) <==>
        || Hopeless(LitFreqs(ss), 286, 15) || Hopeless(DistFreqs(ss), 30, 15)
        || (|sent| == 316 && NoRuns(sent, 0)) || Hopeless(LenFreqs(Spelling(sent, 0)), 19, 7)
  {
    hide NoRuns, Spelling, SentLens, LitFreqs, DistFreqs, LenFreqs, DeflateHuffman.Codable;
    FreqsNatural(ss);
    FreqsNatural(Spelling(SentLens(ss), 0));
    HopelessIs(LitFreqs(ss), 286, 15);
    HopelessIs(DistFreqs(ss), 30, 15);
    SpellingSize(SentLens(ss), 0);
    HopelessIs(LenFreqs(Spelling(SentLens(ss), 0)), 19, 7);
  }

  lemma HopelessIs(fs: seq<int>, n: nat, limit: nat)
    requires 2 <= n <= |fs| && n <= HuffmanTheory.HUFMAX && (limit == 15 || limit == 7) && n < DeflateHuffman.MaxProb(limit)
    requires forall i :: 0 <= i < n ==> fs[i] >= 0
    ensures Hopeless(fs, n, limit) <==> !DeflateHuffman.Codable(fs, n, limit)
  {
    hide DeflateHuffman.Codable, DeflateHuffman.FitsIn, DeflateHuffman.NoSlack, DeflateHuffman.Raised, DeflateHuffman.Adjustment;
    DeflateHuffman.FailsExactly(fs, n, limit);
  }

  lemma FreqsNatural(ss: seq<Sym>)
    ensures forall i :: 0 <= i < 286 ==> LitFreqs(ss)[i] >= 0
    ensures forall i :: 0 <= i < 30 ==> DistFreqs(ss)[i] >= 0
    ensures forall i :: 0 <= i < 19 ==> LenFreqs(ss)[i] >= 0
  {
  }

  lemma CountedIs(fs1: seq<int>, fs2: seq<int>, ss: seq<Sym>)
    requires |fs1| == 286 && |fs2| == 30 && Counted(fs1, ss, false) && Counted(fs2, ss, true)
    ensures fs1 == LitFreqs(ss) && fs2 == DistFreqs(ss)
  {
  }

  lemma LenCountsAre(fs3: seq<int>, spelling: seq<Sym>)
    requires |fs3| == 19 && forall c :: 0 <= c < 19 ==> fs3[c] == Occurrences(spelling, CodeLenSym(c))
    ensures fs3 == LenFreqs(spelling)
  {
  }

  lemma SentAre(ss: seq<Sym>, len1: seq<CodeLen>, len2: seq<CodeLen>, hlit: nat, hdist: nat)
    requires len1 == LensFor(LitFreqs(ss), 286, 15) && len2 == LensFor(DistFreqs(ss), 30, 15)
    requires hlit == SentOf(len1, 286, 257) && hdist == SentOf(len2, 30, 1)
    ensures SentLens(ss) == len1[..hlit] + len2[..hdist]
  {
  }

  lemma PlannableIs(ss: seq<Sym>)
    ensures Plannable(ss) <==>
      && DeflateHuffman.Codable(LitFreqs(ss), 286, 15) && DeflateHuffman.Codable(DistFreqs(ss), 30, 15)
      && |Spelling(SentLens(ss), 0)| < 316
      && DeflateHuffman.Codable(LenFreqs(Spelling(SentLens(ss), 0)), 19, 7)
  {
  }

  /** The trees of a dynamic block. ok is false when an assertion fails: exactly when the
      symbols have no trees. */
  method MakePlan(syms: array<Sym>, symstart: nat, len: nat, ghost ss: seq<Sym>)
    returns (ok: bool, p: Plan, h: HufTrees, codelen: seq<CodeLen>)
    requires Ring(syms[..], symstart, ss) && len <= |ss|
    requires forall i :: 0 <= i < |ss| ==> BlockSym(ss[i])
    ensures ok <==> Plannable(ss[..len])
    ensures ok ==>
      && PlanSizes(p) && Sendable(TreesOf(p)) && AllEncodable(CodesOf(TreesOf(p)), ss[..len])
      && AllEncodable(FullCodes(p), ss[..len]) && AllEncodable(FullCodes(p), p.spelling)
      && h.lens == FullCodes(p) && Built(h)
      && |codelen| == 19 && (forall i :: 0 <= i < 19 ==> codelen[i] == p.len3[MapAt(i)])
      && TreesOf(p) == TreesFor(ss[..len])
  {
    hide Ring, Counted, Serves, CodesFor, Occurrences, Spells, Sendable, AllEncodable, MapAt;
    hide Plannable, DeflateHuffman.Codable, LensFor, LitFreqs, DistFreqs, LenFreqs, SentLens, SentOf, Spelling, NoRuns, TreesFor, Mapped;
    PlannableIs(ss[..len]);
    var freqs1, freqs2 := new int[286], new int[30];
    CountBlock(syms, symstart, len, freqs1, freqs2, ss);
    ghost var fs1, fs2 := freqs1[..], freqs2[..];
    CountedIs(fs1, fs2, ss[..len]);
    CountsNatural(fs1, ss[..len], false);
    CountsNatural(fs2, ss[..len], true);
    p := Plan([], [], [], 0, 0, 0, []);
    h := HufTrees(Codes([], [], []), [], [], []);
    codelen := [];
    var len1, code1, len2, code2, len3, code3;
    ok, len1, code1 := BuildCode(freqs1, 286, 15);
    if !ok {
      return;
    }
    ok, len2, code2 := BuildCode(freqs2, 30, 15);
    if !ok {
      return;
    }
    ServesLength(len1, fs1);
    ServesLength(len2, fs2);
    var hlit := Trim(len1, 257);
    var hdist := Trim(len2, 1);
    SentAre(ss[..len], len1, len2, hlit, hdist);
    var spelling := SendLengths(len1[..hlit] + len2[..hdist]);
    if |spelling| >= 286 + 30 {
      ok := false;
      return;
    }
    SpellsListable(spelling, len1[..hlit] + len2[..hdist]);
    var freqs3 := CountSpelling(spelling);
    ghost var fs3 := freqs3[..];
    LenCountsAre(fs3, spelling);
    ok, len3, code3 := BuildCode(freqs3, 19, 7);
    if !ok {
      return;
    }
    ServesLength(len3, fs3);
    var hclen;
    codelen, hclen := FindHclen(len3);
    p := Plan(len1, len2, len3, hlit, hdist, hclen, spelling);
    h := HufTrees(Codes(len1, len2, len3), code1, code2, code3);
    BlockSyms(ss, len);
    PlanSendable(p, fs1, fs2, fs3, ss[..len]);
    TreesAre(ss[..len], p);
  }

  lemma BlockSyms(ss: seq<Sym>, len: nat)
    requires len <= |ss| && forall i :: 0 <= i < |ss| ==> BlockSym(ss[i])
    ensures forall i :: 0 <= i < |ss[..len]| ==> BlockSym(ss[..len][i])
  {
  }

  lemma SpellsListable(ss: seq<Sym>, lens: seq<CodeLen>)
    requires Spells(ss, lens)
    ensures AllListable(ss)
  {
  }

  lemma ServesLength(ls: seq<CodeLen>, fs: seq<int>)
    requires Serves(ls, fs)
    ensures |ls| == |fs|
  {
  }

  lemma CountsNatural(fs: seq<int>, ss: seq<Sym>, dist: bool)
    requires Counted(fs, ss, dist)
    ensures forall c :: 0 <= c < |fs| ==> fs[c] >= 0
  {
  }
}

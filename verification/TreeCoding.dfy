/** The header of a dynamic block: code lengths as bits, and the decompressor
    reading them back. */
module TreeCoding {
  import opened Bits
  import opened Canonical
  import opened Checksums
  import opened DeflateCodes
  import opened DecodeTable
  import opened Inflate
  import opened Symbols
  import opened SymbolCoding
  import opened CodeLengths

  // ---- Trailing unused symbols do not matter to the others' codes

  lemma {:induction false} CountPrefix(ls: seq<CodeLen>, n: nat, m: nat, len: nat)
    requires m <= n <= |ls|
    ensures CountTo(ls[..n], m, len) == CountTo(ls, m, len)
  {
    if m > 0 {
      CountPrefix(ls, n, m - 1, len);
    }
  }

  lemma {:induction false} CountSkips(ls: seq<CodeLen>, n: nat, m: nat, len: nat)
    requires n <= m <= |ls| && forall k :: n <= k < m ==> ls[k] != len
    ensures CountTo(ls, m, len) == CountTo(ls, n, len)
    decreases m
  {
    if n < m {
      CountSkips(ls, n, m - 1, len);
    }
  }

  lemma {:induction false} StartPrefix(ls: seq<CodeLen>, n: nat, len: nat)
    requires n <= |ls| && forall k :: n <= k < |ls| ==> ls[k] == 0 || ls[k] >= len
    ensures Start(ls[..n], len) == Start(ls, len)
  {
    if len > 1 {
      StartPrefix(ls, n, len - 1);
      CountPrefix(ls, n, n, len - 1);
      CountSkips(ls, n, |ls|, len - 1);
    }
  }

  /** Dropping symbols with no code, or codes no shorter, from the end. */
  lemma CodeOfPrefix(ls: seq<CodeLen>, n: nat, i: nat)
    requires i < n <= |ls| && forall k :: n <= k < |ls| ==> ls[k] == 0 || ls[k] >= ls[i]
    ensures CodeBits(ls[..n], i) == CodeBits(ls, i)
  {
    StartPrefix(ls, n, ls[i]);
    CountPrefix(ls, n, i, ls[i]);
  }

  lemma {:induction false} KraftPrefix(ls: seq<CodeLen>, n: nat, m: nat)
    requires m <= n <= |ls|
    ensures KraftTo(ls[..n], m) == KraftTo(ls, m)
  {
    if m > 0 {
      KraftPrefix(ls, n, m - 1);
    }
  }

  lemma {:induction false} KraftSkips(ls: seq<CodeLen>, n: nat, m: nat)
    requires n <= m <= |ls| && forall k :: n <= k < m ==> ls[k] == 0
    ensures KraftTo(ls, m) == KraftTo(ls, n)
    decreases m
  {
    if n < m {
      KraftSkips(ls, n, m - 1);
    }
  }

  lemma CompletePrefix(ls: seq<CodeLen>, n: nat)
    requires n <= |ls| && forall k :: n <= k < |ls| ==> ls[k] == 0
    ensures Complete(ls[..n]) <==> Complete(ls)
  {
    KraftPrefix(ls, n, n);
    KraftSkips(ls, n, |ls|);
    BaseIsKraft(ls, |ls|);
    BaseIsKraft(ls[..n], n);
  }

  // ---- Code-length symbols

  predicate InTrees(st: State) {
    st.phase.TreesLen? || st.phase.TreesLenRep?
  }

  function ListerOf(st: State): Lister {
    Lister(st.lengths, if st.phase.TreesLenRep? then Rep(st.lenrep, st.lenaddon, st.lenextrabits) else Nothing)
  }

  function TreeStep(st: State, s: Sym): (r: State)
    requires InTrees(st) && Listable(ListerOf(st), s)
    ensures InTrees(r) && ListerOf(r) == List(ListerOf(st), s)
    ensures r == st.(lengths := r.lengths, lenextrabits := r.lenextrabits, lenaddon := r.lenaddon, lenrep := r.lenrep,
                     phase := r.phase)
  {
    if st.phase.TreesLenRep? then
      st.(lengths := st.lengths + Repeat(st.lenrep, st.lenaddon + s.value), phase := TreesLen)
    else if s.code < 16 then st.(lengths := st.lengths + [s.code])
    else st.(lenextrabits := if s.code == 16 then 2 else if s.code == 17 then 3 else 7,
             lenaddon := if s.code == 18 then 11 else 3,
             lenrep := if s.code == 16 then st.lengths[|st.lengths| - 1] else 0,
             phase := TreesLenRep)
  }

  lemma LenSymDecodes(st: State, c: nat, rest: seq<bool>)
    requires Good(st) && st.phase.TreesLen? && |st.lengths| < st.hlit + st.hdist
    requires Listable(ListerOf(st), CodeLenSym(c)) && c < |st.lenlen| && st.lenlen[c] > 0
    ensures var s := TreeStep(st, CodeLenSym(c)); Good(s) && Run(st, CodeBits(st.lenlen, c) + rest) == Run(s, rest)
  {
    hide Complete, Checksum, Reduced, DecodeSym, CodeBits, Run, TreesDone;
    CodeWord(st.lenlen, c, rest);
    RunOne(st, CodeBits(st.lenlen, c) + rest);
  }

  lemma LenRepStep(st: State, v: nat, b: seq<bool>)
    requires Good(st) && st.phase.TreesLenRep? && |b| >= st.lenextrabits && Field(b, st.lenextrabits) == v
    requires |st.lengths| + st.lenaddon + v <= st.hlit + st.hdist && v < Pow2(st.lenextrabits)
    ensures Step(st, b) == Next(TreeStep(st, ExtraBits(v, st.lenextrabits)), st.lenextrabits)
  {
    hide Complete, Checksum, Reduced, Field, Pow2, Repeat;
  }

  lemma LenRepDecodes(st: State, v: nat, rest: seq<bool>)
    requires Good(st) && st.phase.TreesLenRep? && v < Pow2(st.lenextrabits)
    requires |st.lengths| + st.lenaddon + v <= st.hlit + st.hdist
    ensures var s := TreeStep(st, ExtraBits(v, st.lenextrabits));
      Good(s) && Run(st, BitsOf(v, st.lenextrabits) + rest) == Run(s, rest)
  {
    var n := st.lenextrabits;
    assert n > 0;
    hide Good, Step, Field, Run, BitsOf, Pow2, TreeStep;
    FieldKnown(v, n, rest);
    LenRepStep(st, v, BitsOf(v, n) + rest);
    RunOne(st, BitsOf(v, n) + rest);
  }

  /** How far a list has got: one more for a repetition begun. */
  function Reached(l: Lister): nat {
    |l.lens| + if l.pending.Rep? then 1 else 0
  }

  lemma ReachedGrows(l: Lister, s: Sym)
    requires Listable(l, s) && (l.pending.Rep? ==> l.pending.addon >= 3)
    ensures Reached(l) < Reached(List(l, s)) && (List(l, s).pending.Rep? ==> List(l, s).pending.addon >= 3)
  {
    hide Pow2;
  }

  lemma {:induction false} ListedAddon(ss: seq<Sym>)
    requires AllListable(ss)
    ensures Listed(ss).pending.Rep? ==> Listed(ss).pending.addon >= 3
  {
    hide Listable;
    if ss != [] {
      ListedAddon(ss[..|ss| - 1]);
      ReachedGrows(Listed(ss[..|ss| - 1]), ss[|ss| - 1]);
    }
  }

  function AfterTree(st: State, ss: seq<Sym>): (r: State)
    requires st.phase.TreesLen? && st.lengths == [] && AllListable(ss)
    ensures InTrees(r) && ListerOf(r) == Listed(ss)
    ensures r == st.(lengths := r.lengths, lenextrabits := r.lenextrabits, lenaddon := r.lenaddon, lenrep := r.lenrep,
                     phase := r.phase)
  {
    if ss == [] then st else TreeStep(AfterTree(st, ss[..|ss| - 1]), ss[|ss| - 1])
  }

  lemma TreeSymDecodes(st: State, t: Codes, s: Sym, rest: seq<bool>)
    requires Good(st) && InTrees(st) && Listable(ListerOf(st), s) && Encodable(t, s) && t.lens == st.lenlen
    requires Reached(ListerOf(st)) < Reached(List(ListerOf(st), s)) <= st.hlit + st.hdist
    ensures Good(TreeStep(st, s)) && Run(st, SymBits(t, s) + rest) == Run(TreeStep(st, s), rest)
  {
    hide Good, Run, CodeBits, BitsOf, Pow2;
    if st.phase.TreesLen? {
      LenSymDecodes(st, s.code, rest);
    } else {
      LenRepDecodes(st, s.value, rest);
    }
  }

  /** The code lengths are read back. */
  lemma {:induction false} TreeDecodes(st: State, t: Codes, ss: seq<Sym>, rest: seq<bool>)
    requires Good(st) && st.phase.TreesLen? && st.lengths == [] && t.lens == st.lenlen
    requires AllListable(ss) && AllEncodable(t, ss) && Reached(Listed(ss)) <= st.hlit + st.hdist
    ensures Good(AfterTree(st, ss)) && Run(st, SymsBits(t, ss) + rest) == Run(AfterTree(st, ss), rest)
    decreases |ss|
  {
    hide Good, Run, Listable, List, Encodable, SymBits, TreeStep, InTrees, ListerOf, Reached;
    if ss == [] {
      assert [] + rest == rest;
    } else {
      var n := |ss| - 1;
      var m, last := AfterTree(st, ss[..n]), SymBits(t, ss[n]);
      ListedAddon(ss[..n]);
      ReachedGrows(Listed(ss[..n]), ss[n]);
      TreeDecodes(st, t, ss[..n], last + rest);
      TreeSymDecodes(m, t, ss[n], rest);
      assert SymsBits(t, ss) + rest == SymsBits(t, ss[..n]) + (last + rest);
    }
  }

  // ---- HLIT, HDIST, HCLEN and the code-length code lengths

  function LenLenBits(cl: seq<CodeLen>, n: nat): (b: seq<bool>)
    requires |cl| == 19 && n <= 19
    ensures |b| == 3 * n
  {
    if n == 0 then [] else
      assert |LENLENMAP| == 19;
      LenLenMapRange(n - 1);
      LenLenBits(cl, n - 1) + BitsOf(cl[LENLENMAP[n - 1]], 3)
  }

  /** The decompressor's table of lengths after n of them have come in. */
  function Loaded(cl: seq<CodeLen>, n: nat): (l: seq<CodeLen>)
    requires |cl| == 19 && n <= 19
    ensures |l| == 19
  {
    if n == 0 then Repeat(0, 19) else
      assert |LENLENMAP| == 19;
      LenLenMapRange(n - 1);
      Loaded(cl, n - 1)[LENLENMAP[n - 1] := cl[LENLENMAP[n - 1]]]
  }

  /** Where in the transmission order a length stands. */
  const ORDER: seq<nat> := [3, 17, 15, 13, 11, 9, 7, 5, 4, 6, 8, 10, 12, 14, 16, 18, 0, 1, 2]

  lemma OrderInverts(j: nat)
    requires j < 19
    ensures |ORDER| == 19 && |LENLENMAP| == 19 && ORDER[j] < 19 && LENLENMAP[ORDER[j]] == j
  {
    if j < 10 {
      assert ORDER[j] < 19 && LENLENMAP[ORDER[j]] == j;
    }
  }

  lemma {:induction false} LoadedAt(cl: seq<CodeLen>, n: nat, j: nat)
    requires |cl| == 19 && n <= 19 && j < 19
    ensures |ORDER| == 19 && ORDER[j] < 19
    ensures Loaded(cl, n)[j] == if ORDER[j] < n then cl[j] else 0
  {
    OrderInverts(j);
    hide LENLENMAP;
    if n > 0 {
      LoadedAt(cl, n - 1, j);
      OrderInverts(MapAt(n - 1));
      MapInjective(n - 1, j);
    }
  }

  function MapAt(n: nat): (j: nat)
    requires n < 19
    ensures j < 19 && |LENLENMAP| == 19 && j == LENLENMAP[n]
  {
    LenLenMapRange(n);
    assert |LENLENMAP| == 19;
    LENLENMAP[n]
  }

  lemma MapInjective(n: nat, j: nat)
    requires n < 19 && j < 19
    ensures |ORDER| == 19 && (MapAt(n) == j <==> ORDER[j] == n)
  {
    if n < 10 {
      assert ORDER[MapAt(n)] == n;
    } else {
      assert ORDER[MapAt(n)] == n;
    }
    OrderInverts(j);
  }

  /** All lengths not sent are zero: the table is complete. */
  lemma LoadedAll(cl: seq<CodeLen>, n: nat)
    requires |cl| == 19 && n <= 19 && |LENLENMAP| == 19
    requires forall i :: n <= i < 19 ==> cl[MapAt(i)] == 0
    ensures Loaded(cl, n) == cl
  {
    hide LENLENMAP, ORDER, Loaded;
    forall j | 0 <= j < 19
      ensures Loaded(cl, n)[j] == cl[j]
    {
      LoadedAt(cl, n, j);
      OrderInverts(j);
      if ORDER[j] >= n {
        assert cl[MapAt(ORDER[j])] == 0;
      }
    }
  }
}

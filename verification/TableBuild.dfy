/** mkonetab, mktable and huflookup themselves, on integers and arrays. */
module TableBuild {
  import opened Bits
  import opened Canonical
  import opened DecodeTable

  /** Symbol i lands in slot j of the table behind a prefix of length n. */
  predicate Lands(ls: seq<CodeLen>, codes: seq<nat>, i: nat, n: nat, bits: nat, j: nat)
    requires i < |ls| && i < |codes| && n <= ls[i]
  {
    j % Pow2(ls[i] - n) == codes[i] / Pow2(n) % Pow2(bits)
  }

  ghost predicate CodesOf(ls: seq<CodeLen>, codes: seq<nat>) {
    |codes| == |ls| && forall i :: 0 <= i < |ls| ==> codes[i] == Val(CodeBits(ls, i))
  }

  lemma ValPrefix(a: seq<bool>, b: seq<bool>)
    requires |a| <= |b|
    ensures a <= b <==> Val(b) % Pow2(|a|) == Val(a)
  {
    hide Val, Pow2;
    ValSplit(b, |a|);
    if a <= b {
      assert b[..|a|] == a;
    }
    if Val(b[..|a|]) == Val(a) {
      ValInjective(b[..|a|], a);
    }
  }

  /** The integer test for "goes on behind the prefix". */
  lemma BehindIsMask(ls: seq<CodeLen>, codes: seq<nat>, p: seq<bool>, i: nat)
    requires CodesOf(ls, codes) && i < |ls|
    ensures Behind(ls, p, i) <==> ls[i] > |p| && codes[i] % Pow2(|p|) == Val(p)
  {
    hide CodeBits;
    if ls[i] > |p| {
      ValPrefix(p, CodeBits(ls, i));
    }
  }

  /** The integer test for "compatible with the window of slot j". */
  lemma CompatibleIsLands(ls: seq<CodeLen>, codes: seq<nat>, p: seq<bool>, bits: nat, i: nat, j: nat)
    requires CodesOf(ls, codes) && i < |ls| && Behind(ls, p, i) && j < Pow2(bits)
    ensures Compatible(ls, p, BitsOf(j, bits), i) <==> Lands(ls, codes, i, |p|, bits, j)
  {
    hide CodeBits, BitsOf, Val;
    var c := CodeBits(ls, i);
    var r := c[|p|..];
    var w := BitsOf(j, bits);
    ValSplit(c, |p|);
    ValBitsOf(j, bits);
    ValBound(r);
    if |r| <= bits {
      ValPrefix(r, w);
      PowMono(|r|, bits);
      SmallMod(Val(r), Pow2(bits));
      if |r| == bits && w <= r {
        assert r <= w;
      }
    } else {
      ValPrefix(w, r);
      PowMono(bits, |r|);
      SmallMod(j, Pow2(|r|));
    }
  }

  lemma SmallMod(a: nat, m: nat)
    requires a < m
    ensures a % m == a
  {
  }

  /** Slots less than a stride apart differ modulo the stride. */
  lemma StrideGap(j: nat, x: nat, m: nat)
    requires 0 < x < m
    ensures (j + x) % m != j % m && (j + m) % m == j % m
  {
    var q, r := j / m, j % m;
    assert j == r + m * q;
    assert j + m == r + m * (q + 1);
    DivMod(q + 1, r, m);
    if r + x < m {
      assert j + x == (r + x) + m * q;
      DivMod(q, r + x, m);
    } else {
      assert j + x == (r + x - m) + m * (q + 1);
      DivMod(q + 1, r + x - m, m);
    }
  }

  lemma StrideStep(j: nat, m: nat)
    requires m > 0
    ensures (j + m) % m == j % m
  {
    assert j == j % m + m * (j / m);
    assert j + m == j % m + m * (j / m + 1);
    DivMod(j / m + 1, j % m, m);
  }

  lemma QuotientFits(c: nat, n: nat, k: nat)
    requires c < Pow2(n + k)
    ensures c / Pow2(n) < Pow2(k)
  {
    PowSum(n, k);
    hide Pow2;
    var q := c / Pow2(n);
    assert q * Pow2(n) <= c by {
      assert c == Pow2(n) * q + c % Pow2(n);
    }
    MulCompare(Pow2(k), q, Pow2(n));
  }

  /** Slots filled: the first n symbols everywhere, and one more below slot j. */
  ghost predicate FilledUpTo(entries: seq<Entry>, ls: seq<CodeLen>, p: seq<bool>, bits: nat, n: nat, j: nat)
    requires n <= |ls|
  {
    && (forall k :: 0 <= k < |entries| && k < j && n < |ls| ==> entries[k] == Filled(ls, p, BitsOf(k, bits), n + 1))
    && (forall k :: j <= k < |entries| ==> entries[k] == Filled(ls, p, BitsOf(k, bits), n))
  }

  lemma FilledSkip(ls: seq<CodeLen>, p: seq<bool>, w: seq<bool>, n: nat)
    requires n < |ls| && !Compatible(ls, p, w, n)
    ensures Filled(ls, p, w, n + 1) == Filled(ls, p, w, n)
  {
  }

  /** No slot strictly between two stops of the stride is affected. */
  lemma SkipSlots(entries: seq<Entry>, ls: seq<CodeLen>, codes: seq<nat>, p: seq<bool>, bits: nat, n: nat,
                  j: nat, next: nat)
    requires CodesOf(ls, codes) && n < |ls| && Behind(ls, p, n) && |entries| == Pow2(bits) && j <= next
    requires FilledUpTo(entries, ls, p, bits, n, j)
    requires forall k :: j <= k < next && k < |entries| ==> !Lands(ls, codes, n, |p|, bits, k)
    ensures FilledUpTo(entries, ls, p, bits, n, next)
  {
    hide Filled, Compatible, Behind, BitsOf, Lands, CodesOf;
    forall k | 0 <= k < |entries| && k < next
      ensures entries[k] == Filled(ls, p, BitsOf(k, bits), n + 1)
    {
      if k >= j {
        CompatibleIsLands(ls, codes, p, bits, n, k);
        FilledSkip(ls, p, BitsOf(k, bits), n);
      }
    }
  }

  /** The inner loop of mkonetab: enter one symbol into every slot it owns. */
  method EnterSymbol(entries: array<Entry>, codes: seq<nat>, ls: seq<CodeLen>, i: nat, pfxbits: nat, bits: nat,
                     ghost p: seq<bool>)
    requires CodesOf(ls, codes) && i < |ls| && pfxbits == |p| && Behind(ls, p, i)
    requires entries.Length == Pow2(bits)
    requires FilledUpTo(entries[..], ls, p, bits, i, 0)
    modifies entries
    ensures FilledUpTo(entries[..], ls, p, bits, i, entries.Length)
  {
    assert |codes| == |ls| && ls[i] > |p|;
    hide Behind, CodesOf, FilledUpTo, Filled, BitsOf, CodeBits, Pow2;
    var nbits := ls[i] - pfxbits;
    var stride := Pow2(nbits);
    var code := codes[i] / Pow2(pfxbits) % Pow2(bits);
    FirstStop(entries[..], ls, codes, p, bits, i);
    var j := code;
    while j < entries.Length
      invariant j % stride == code
      invariant FilledUpTo(entries[..], ls, p, bits, i, j)
      decreases entries.Length - j
    {
      ghost var es := entries[..];
      entries[j] := Entry(if entries[j].nbits < nbits then nbits else entries[j].nbits, i, NoTable);
      EnterSlot(es, entries[..], ls, codes, p, bits, i, j);
      NextStop(entries[..], ls, codes, p, bits, i, j);
      StrideStep(j, stride);
      j := j + stride;
    }
    FilledBeyond(entries[..], ls, p, bits, i, j);
  }

  lemma FilledBeyond(es: seq<Entry>, ls: seq<CodeLen>, p: seq<bool>, bits: nat, n: nat, j: nat)
    requires n < |ls| && j >= |es| && FilledUpTo(es, ls, p, bits, n, j)
    ensures FilledUpTo(es, ls, p, bits, n, |es|)
  {
  }

  lemma FirstStop(es: seq<Entry>, ls: seq<CodeLen>, codes: seq<nat>, p: seq<bool>, bits: nat, i: nat)
    requires CodesOf(ls, codes) && i < |ls| && Behind(ls, p, i) && |es| == Pow2(bits)
    requires FilledUpTo(es, ls, p, bits, i, 0)
    ensures var code := codes[i] / Pow2(|p|) % Pow2(bits);
      code % Pow2(ls[i] - |p|) == code && FilledUpTo(es, ls, p, bits, i, code)
  {
    hide FilledUpTo, Filled, BitsOf, Pow2, Val, CodeBits;
    var rem := ls[i] - |p|;
    var code := FirstCode(ls, codes, p, bits, i);
    forall k | 0 <= k < code && k < |es|
      ensures !Lands(ls, codes, i, |p|, bits, k)
    {
      SmallMod(k, Pow2(rem));
    }
    SkipSlots(es, ls, codes, p, bits, i, 0, code);
  }

  lemma FirstCode(ls: seq<CodeLen>, codes: seq<nat>, p: seq<bool>, bits: nat, i: nat) returns (code: nat)
    requires CodesOf(ls, codes) && i < |ls| && |codes| == |ls| && ls[i] > |p|
    ensures code == codes[i] / Pow2(|p|) % Pow2(bits) && code < Pow2(ls[i] - |p|) && code % Pow2(ls[i] - |p|) == code
  {
    hide Pow2, Val, CodeBits;
    code := codes[i] / Pow2(|p|) % Pow2(bits);
    ValBound(CodeBits(ls, i));
    QuotientFits(codes[i], |p|, ls[i] - |p|);
    ModShrinks(codes[i] / Pow2(|p|), Pow2(bits));
    SmallMod(code, Pow2(ls[i] - |p|));
  }

  lemma ModShrinks(a: nat, m: nat)
    requires m > 0
    ensures a % m <= a
  {
    assert a == m * (a / m) + a % m;
  }

  lemma EnterSlot(es: seq<Entry>, es': seq<Entry>, ls: seq<CodeLen>, codes: seq<nat>, p: seq<bool>, bits: nat,
                  i: nat, j: nat)
    requires CodesOf(ls, codes) && i < |ls| && Behind(ls, p, i) && |es| == Pow2(bits) && j < |es|
    requires FilledUpTo(es, ls, p, bits, i, j) && Lands(ls, codes, i, |p|, bits, j)
    requires es' == es[j := Entry(if es[j].nbits < ls[i] - |p| then ls[i] - |p| else es[j].nbits, i, NoTable)]
    ensures FilledUpTo(es', ls, p, bits, i, j + 1)
  {
    hide BitsOf, Behind, CodesOf, Lands, CodeBits;
    CompatibleIsLands(ls, codes, p, bits, i, j);
    assert es[j] == Filled(ls, p, BitsOf(j, bits), i);
    assert es'[j] == Filled(ls, p, BitsOf(j, bits), i + 1);
    hide Filled, Compatible;
    forall k | 0 <= k < |es'| && k < j + 1
      ensures es'[k] == Filled(ls, p, BitsOf(k, bits), i + 1)
    {
      if k < j {
        assert es'[k] == es[k];
      }
    }
  }

  lemma NextStop(es: seq<Entry>, ls: seq<CodeLen>, codes: seq<nat>, p: seq<bool>, bits: nat, i: nat, j: nat)
    requires CodesOf(ls, codes) && i < |ls| && Behind(ls, p, i) && |es| == Pow2(bits) && j < |es|
    requires FilledUpTo(es, ls, p, bits, i, j + 1)
    requires j % Pow2(ls[i] - |p|) == codes[i] / Pow2(|p|) % Pow2(bits)
    ensures FilledUpTo(es, ls, p, bits, i, j + Pow2(ls[i] - |p|))
  {
    assert |codes| == |ls|;
    hide FilledUpTo, Filled, BitsOf, CodesOf, Compatible, Pow2, CodeBits;
    var m := Pow2(ls[i] - |p|);
    forall k | j + 1 <= k < j + m && k < |es|
      ensures !Lands(ls, codes, i, |p|, bits, k)
    {
      StrideGap(j, k - j, m);
    }
    SkipSlots(es, ls, codes, p, bits, i, j + 1, j + m);
  }

  /** The outer filling loop of mkonetab. */
  method FillEntries(entries: array<Entry>, codes: seq<nat>, ls: seq<CodeLen>, pfx: nat, pfxbits: nat, bits: nat,
                     ghost p: seq<bool>)
    requires CodesOf(ls, codes) && pfxbits == |p| && pfx == Val(p)
    requires entries.Length == Pow2(bits)
    modifies entries
    ensures forall j :: 0 <= j < entries.Length ==> entries[j] == Filled(ls, p, BitsOf(j, bits), |ls|)
  {
    assert |codes| == |ls|;
    hide Behind, CodesOf, BitsOf, CodeBits, Pow2, Val;
    for code := 0 to entries.Length
      invariant forall j :: 0 <= j < code ==> entries[j] == Entry(0, -1, NoTable)
    {
      entries[code] := Entry(0, -1, NoTable);
    }
    assert forall j :: 0 <= j < entries.Length ==> entries[j] == Filled(ls, p, BitsOf(j, bits), 0);
    hide Filled;
    for i := 0 to |ls|
      invariant FilledUpTo(entries[..], ls, p, bits, i, 0)
    {
      BehindIsMask(ls, codes, p, i);
      if ls[i] <= pfxbits || codes[i] % Pow2(pfxbits) != pfx {
        NotBehind(entries[..], ls, p, bits, i);
        continue;
      }
      EnterSymbol(entries, codes, ls, i, pfxbits, bits, p);
      AllEntered(entries[..], ls, p, bits, i);
    }
  }

  lemma NotBehind(es: seq<Entry>, ls: seq<CodeLen>, p: seq<bool>, bits: nat, i: nat)
    requires i < |ls| && !Behind(ls, p, i) && FilledUpTo(es, ls, p, bits, i, 0)
    ensures FilledUpTo(es, ls, p, bits, i + 1, 0)
  {
    forall k | 0 <= k < |es|
      ensures es[k] == Filled(ls, p, BitsOf(k, bits), i + 1)
    {
      FilledSkip(ls, p, BitsOf(k, bits), i);
    }
  }

  lemma AllEntered(es: seq<Entry>, ls: seq<CodeLen>, p: seq<bool>, bits: nat, i: nat)
    requires i < |ls| && FilledUpTo(es, ls, p, bits, i, |es|)
    ensures FilledUpTo(es, ls, p, bits, i + 1, 0)
  {
  }

  /** mkonetab: the decode table for everything behind a prefix of the stream. */
  method MkOneTab(codes: seq<nat>, ls: seq<CodeLen>, pfx: nat, pfxbits: nat, bits: nat, ghost p: seq<bool>)
    returns (tab: Table)
    requires Complete(ls) && CodesOf(ls, codes)
    requires pfxbits == |p| <= 15 && pfx == Val(p) && Internal(ls, p) && bits > 0
    ensures tab.Table? && tab.bits == bits && Decodes(tab, ls, p)
    decreases 15 - pfxbits
  {
    hide Complete, CodesOf, Internal, Decodes, Filled, BitsOf, Val, Pow2;
    var size := Pow2(bits);
    var entries := new Entry[size](_ => Entry(0, -1, NoTable));
    FillEntries(entries, codes, ls, pfx, pfxbits, bits, p);
    for code := 0 to size
      invariant forall j :: 0 <= j < code ==> EntryRight(ls, p, BitsOf(j, bits), entries[j])
      invariant forall j :: code <= j < size ==> entries[j] == Filled(ls, p, BitsOf(j, bits), |ls|)
    {
      if entries[code].nbits <= bits {
        continue;
      }
      // Generate a subtable.
      ghost var w := BitsOf(code, bits);
      LongEntry(ls, p, w);
      ghost var m := TheLongOne(ls, p, w);
      SubtablePrefix(p, code, bits);
      var nbits := entries[code].nbits - bits;
      if nbits > 7 {
        nbits := 7;
      }
      var sub := MkOneTab(codes, ls, pfx + code * Pow2(pfxbits), pfxbits + bits, nbits, p + w);
      entries[code] := Entry(bits, -1, sub);
    }
    tab := Table(bits, entries[..]);
    TableDecodes(tab, ls, p);
  }

  lemma SubtablePrefix(p: seq<bool>, code: nat, bits: nat)
    requires code < Pow2(bits)
    ensures Val(p + BitsOf(code, bits)) == Val(p) + code * Pow2(|p|)
  {
    hide Val, Pow2, BitsOf;
    ValAppend(p, BitsOf(code, bits));
    ValBitsOf(code, bits);
  }

  datatype TableResult = GoodTable(table: Table) | LargeHuftable | SmallHuftable

  /** mktable: a decode table for a complete set of lengths, or the reason why
      there is none. */
  method MkTable(lengths: array<CodeLen>, nlengths: nat) returns (r: TableResult)
    requires nlengths <= lengths.Length
    ensures var ls := lengths[..nlengths];
      && (r.GoodTable? <==> Complete(ls))
      && (r.GoodTable? ==> Decodes(r.table, ls, []))
      && (r.LargeHuftable? <==> KraftTo(ls, |ls|) > Pow2(15))
      && (r.SmallHuftable? <==> KraftTo(ls, |ls|) < Pow2(15))
  {
    hide Complete, Decodes, CodeBits, Pow2, Val;
    ghost var ls := lengths[..nlengths];
    var codes := new int[nlengths];
    var maxlen := HufCodes(lengths, codes, nlengths);
    VerdictIsKraft(ls);
    BaseIsKraft(ls, |ls|);
    if maxlen < 0 {
      r := if maxlen == -1 then LargeHuftable else SmallHuftable;
      VerdictReason(ls);
      return;
    }
    var nats := NatCodes(codes);
    var tab := MkOneTab(nats, lengths[..nlengths], 0, 0, if maxlen < 9 then maxlen else 9, EmptyPrefix(ls));
    r := GoodTable(tab);
    VerdictReason(ls);
  }

  method NatCodes(codes: array<int>) returns (s: seq<nat>)
    requires forall i :: 0 <= i < codes.Length ==> codes[i] >= 0
    ensures |s| == codes.Length && forall i :: 0 <= i < |s| ==> s[i] == codes[i]
  {
    s := seq(codes.Length, i requires 0 <= i < codes.Length && codes[i] >= 0 reads codes => codes[i]);
  }

  ghost function EmptyPrefix(ls: seq<CodeLen>): (p: seq<bool>)
    ensures p == [] && Internal(ls, p) && Val(p) == 0
  {
    []
  }

  lemma VerdictReason(ls: seq<CodeLen>)
    ensures Canonical.Verdict(ls) == -1 <==> KraftTo(ls, |ls|) > Pow2(15)
    ensures Canonical.Verdict(ls) == -2 <==> KraftTo(ls, |ls|) < Pow2(15)
    ensures Canonical.Verdict(ls) >= 0 <==> KraftTo(ls, |ls|) == Pow2(15)
  {
  }

  /** huflookup: consume one symbol from the bit buffer. code is -1, and the
      buffer unchanged, when no complete code is buffered. */
  method HufLookup(bits: nat, nbits: nat, t: Table, ghost s: seq<bool>)
    returns (code: int, bitsLeft: nat, nbitsLeft: nat)
    requires WellFormed(t) && nbits == |s| && bits == Val(s)
    ensures var r := LookupIn(t, s);
      && (r.NotEnough? ==> code == -1 && bitsLeft == bits && nbitsLeft == nbits)
      && (r.Found? ==>
            code == r.code && r.nbits <= |s| && bitsLeft == Val(s[r.nbits..]) && nbitsLeft == |s| - r.nbits)
  {
    hide Val, Pow2, WellFormed, LookupIn, Slot;
    var tab := t;
    assert s[0..] == s;
    bitsLeft, nbitsLeft := bits, nbits;
    ghost var used := 0;
    while true
      invariant WellFormed(tab)
      invariant 0 <= used <= |s| && bitsLeft == Val(s[used..]) && nbitsLeft == |s| - used
      invariant LookupIn(t, s) == Advance(LookupIn(tab, s[used..]), used)
      decreases tab
    {
      LookupStep(tab, s[used..]);
      var ent := tab.entries[bitsLeft % Pow2(tab.bits)];
      if ent.nbits > nbitsLeft {
        return -1, bits, nbits;
      }
      ValSplit(s[used..], ent.nbits);
      assert s[used..][ent.nbits..] == s[used + ent.nbits..];
      bitsLeft := bitsLeft / Pow2(ent.nbits);
      nbitsLeft := nbitsLeft - ent.nbits;
      used := used + ent.nbits;
      if ent.code == -1 {
        tab := ent.next;
      } else {
        return ent.code, bitsLeft, nbitsLeft;
      }
      assert tab.Table?;
    }
  }

  function Advance(r: Lookup, n: nat): Lookup {
    match r
    case NotEnough => NotEnough
    case Found(c, k) => Found(c, k + n)
  }

  /** One step of huflookup. */
  lemma LookupStep(tab: Table, s: seq<bool>)
    requires WellFormed(tab)
    ensures tab.Table? && Val(s) % Pow2(tab.bits) < |tab.entries|
    ensures var e := tab.entries[Val(s) % Pow2(tab.bits)];
      && (e.nbits > |s| ==> LookupIn(tab, s) == NotEnough)
      && (e.nbits <= |s| && e.code != -1 ==> LookupIn(tab, s) == Found(e.code, e.nbits))
      && (e.nbits <= |s| && e.code == -1 ==>
            && WellFormed(e.next) && e.next.Table?
            && LookupIn(tab, s) == Advance(LookupIn(e.next, s[e.nbits..]), e.nbits))
  {
    hide Val, Pow2, Slot;
    SlotIsMask(tab.bits, s);
    var e := tab.entries[Slot(tab.bits, s)];
    assert e in tab.entries;
  }

  lemma SlotIsMask(bits: nat, s: seq<bool>)
    ensures Val(s) % Pow2(bits) == Slot(bits, s)
  {
    hide Val, Pow2;
    if |s| >= bits {
      ValSplit(s, bits);
    } else {
      ValAppend(s, Zeros(bits - |s|));
      ValZeros(bits - |s|);
      ValBound(s);
      PowMono(|s|, bits);
      SmallMod(Val(s), Pow2(bits));
    }
  }
}

/** mkonetab, mktable and huflookup: decoding through nested lookup tables is
    canonical prefix decoding. */
module DecodeTable {
  import opened Bits
  import opened Canonical

  /** One table entry: bits to consume and a symbol, or (code == -1) a subtable.
      A table of size 2^bits is indexed by the next bits of the stream. */
  datatype Entry = Entry(nbits: nat, code: int, next: Table)
  datatype Table = NoTable | Table(bits: nat, entries: seq<Entry>)

  /** Structurally usable: every entry either holds a symbol or a real subtable. */
  ghost predicate WellFormed(t: Table) {
    && t.Table? && t.bits > 0 && |t.entries| == Pow2(t.bits)
    && forall e :: e in t.entries ==> e.code >= -1 && (e.code == -1 ==> e.nbits == t.bits && WellFormed(e.next))
  }

  datatype Lookup = NotEnough | Found(code: nat, nbits: nat)

  /** What decoding one symbol from the bits s through table t yields. */
  ghost function LookupIn(t: Table, s: seq<bool>): Lookup
    requires WellFormed(t)
    decreases t
  {
    var e := t.entries[Slot(t.bits, s)];
    if e.nbits > |s| then NotEnough
    else if e.code == -1 then
      match LookupIn(e.next, s[t.bits..])
      case NotEnough => NotEnough
      case Found(c, n) => Found(c, n + t.bits)
    else Found(e.code, e.nbits)
  }

  /** The table index of the stream s: missing bits count as zero. */
  function Slot(bits: nat, s: seq<bool>): (i: nat)
    ensures i < Pow2(bits)
  {
    ValBound(Window(bits, s));
    Val(Window(bits, s))
  }

  function Window(bits: nat, s: seq<bool>): (w: seq<bool>)
    ensures |w| == bits
  {
    if |s| >= bits then s[..bits] else s + Zeros(bits - |s|)
  }

  /** No code is a prefix of p: decoding has to go on behind p. */
  ghost predicate Internal(ls: seq<CodeLen>, p: seq<bool>) {
    forall i :: !IsCode(ls, i, p)
  }

  /** The verdict r on the stream p + s is the canonical code's. */
  ghost predicate Correct(r: Lookup, ls: seq<CodeLen>, p: seq<bool>, s: seq<bool>) {
    match r
    case NotEnough => forall i :: !IsCode(ls, i, p + s)
    case Found(i, n) => IsCode(ls, i, p + s) && n + |p| == ls[i]
  }

  /** t decodes everything behind the prefix p. */
  ghost predicate Decodes(t: Table, ls: seq<CodeLen>, p: seq<bool>) {
    WellFormed(t) && forall s {:trigger LookupIn(t, s)} :: Correct(LookupIn(t, s), ls, p, s)
  }

  // ---- What the filling loop of mkonetab computes

  /** Symbol i's code goes on behind the prefix p. */
  predicate Behind(ls: seq<CodeLen>, p: seq<bool>, i: nat)
    requires i < |ls|
  {
    ls[i] > |p| && p <= CodeBits(ls, i)
  }

  /** The rest of symbol i's code and the bits w agree as far as both go. */
  predicate Compatible(ls: seq<CodeLen>, p: seq<bool>, w: seq<bool>, i: nat)
    requires i < |ls|
  {
    && Behind(ls, p, i)
    && (CodeBits(ls, i)[|p|..] <= w || w <= CodeBits(ls, i)[|p|..])
  }

  /** The entry for window w after the first n symbols. */
  function Filled(ls: seq<CodeLen>, p: seq<bool>, w: seq<bool>, n: nat): (e: Entry)
    requires n <= |ls|
    ensures e.next.NoTable? && -1 <= e.code < n
  {
    if n == 0 then Entry(0, -1, NoTable) else
      var e := Filled(ls, p, w, n - 1);
      if Compatible(ls, p, w, n - 1) then
        Entry(if e.nbits < ls[n - 1] - |p| then ls[n - 1] - |p| else e.nbits, n - 1, NoTable)
      else e
  }

  lemma {:induction false} FilledFacts(ls: seq<CodeLen>, p: seq<bool>, w: seq<bool>, n: nat)
    requires n <= |ls|
    ensures var e := Filled(ls, p, w, n);
      && (e.code >= 0 ==> Compatible(ls, p, w, e.code))
      && (forall i :: 0 <= i < n && Compatible(ls, p, w, i) ==> e.code >= 0 && ls[i] - |p| <= e.nbits)
      && (e.code >= 0 ==> exists i :: 0 <= i < n && Compatible(ls, p, w, i) && e.nbits == ls[i] - |p|)
      && (e.code == -1 ==> e.nbits == 0)
  {
    if n > 0 {
      FilledFacts(ls, p, w, n - 1);
      var e := Filled(ls, p, w, n - 1);
      if e.code >= 0 {
        var i :| 0 <= i < n - 1 && Compatible(ls, p, w, i) && e.nbits == ls[i] - |p|;
      }
    }
  }

  /** Every window behind an internal prefix is compatible with some symbol. */
  lemma SomeCompatible(ls: seq<CodeLen>, p: seq<bool>, w: seq<bool>) returns (i: nat)
    requires Complete(ls) && Internal(ls, p) && |p| <= 15
    ensures i < |ls| && Compatible(ls, p, w, i)
  {
    var s := if |p + w| >= 15 then (p + w)[..15] else Pad15(p + w);
    i := EveryStringDecodes(ls, s);
    var c := CodeBits(ls, i);
    assert |c| <= |p| ==> c <= p;
    assert c <= p ==> IsCode(ls, i, p);
    assert p <= c;
    assert c[|p|..] <= w || w <= c[|p|..];
  }

  /** A code that ends inside the window shuts every other code out of it. */
  lemma ShortIsAlone(ls: seq<CodeLen>, p: seq<bool>, w: seq<bool>, i: nat, j: nat)
    requires Complete(ls) && i < |ls| && j < |ls|
    requires Compatible(ls, p, w, i) && Compatible(ls, p, w, j)
    requires ls[i] - |p| <= |w|
    ensures i == j
  {
    var ci, cj := CodeBits(ls, i), CodeBits(ls, j);
    assert ci == p + ci[|p|..] && cj == p + cj[|p|..];
    if ls[j] - |p| <= |w| {
      assert ci <= p + w && cj <= p + w;
      PrefixFree(ls, i, j, p + w);
    } else {
      assert ci <= cj;
      PrefixFree(ls, i, j, cj);
    }
  }

  // ---- Why the filled table decodes

  ghost predicate EntryRight(ls: seq<CodeLen>, p: seq<bool>, w: seq<bool>, e: Entry) {
    var f := Filled(ls, p, w, |ls|);
    if f.nbits <= |w| then e == f
    else e.code == -1 && e.nbits == |w| && Decodes(e.next, ls, p + w)
  }

  /** A code found behind an internal prefix reaches past it. */
  lemma ReachesPast(ls: seq<CodeLen>, p: seq<bool>, s: seq<bool>, i: int)
    requires Internal(ls, p) && IsCode(ls, i, p + s)
    ensures Behind(ls, p, i) && CodeBits(ls, i)[|p|..] <= s
    ensures CodeBits(ls, i) == p + CodeBits(ls, i)[|p|..]
  {
    var c := CodeBits(ls, i);
    hide CodeBits;
    assert |c| <= |p| ==> c <= p;
    assert c <= p ==> IsCode(ls, i, p);
  }

  /** A filled entry no longer than the window belongs to one symbol. */
  lemma TheShortOne(ls: seq<CodeLen>, p: seq<bool>, w: seq<bool>) returns (m: nat)
    requires Complete(ls) && Internal(ls, p) && |p| <= 15
    requires Filled(ls, p, w, |ls|).nbits <= |w|
    ensures m < |ls| && Compatible(ls, p, w, m)
    ensures Filled(ls, p, w, |ls|) == Entry(ls[m] - |p|, m, NoTable)
  {
    hide Compatible, Complete, Internal;
    var f := Filled(ls, p, w, |ls|);
    FilledFacts(ls, p, w, |ls|);
    hide Filled;
    var k := SomeCompatible(ls, p, w);
    m :| 0 <= m < |ls| && Compatible(ls, p, w, m) && f.nbits == ls[m] - |p|;
    ShortIsAlone(ls, p, w, m, f.code);
  }

  /** A stream shorter than the window's short code holds no code. */
  lemma NoEarlyCode(ls: seq<CodeLen>, p: seq<bool>, w: seq<bool>, s: seq<bool>, m: nat, i: int)
    requires Complete(ls) && Internal(ls, p) && w == Window(|w|, s)
    requires m < |ls| && Compatible(ls, p, w, m) && |s| < ls[m] - |p| <= |w|
    ensures !IsCode(ls, i, p + s)
  {
    hide Complete, CodeBits;
    if IsCode(ls, i, p + s) {
      ReachesPast(ls, p, s, i);
      ShortIsAlone(ls, p, w, m, i);
    }
  }

  lemma ShortEntryWaits(ls: seq<CodeLen>, p: seq<bool>, w: seq<bool>, s: seq<bool>, m: nat)
    requires Complete(ls) && Internal(ls, p) && w == Window(|w|, s)
    requires m < |ls| && Compatible(ls, p, w, m) && |s| < ls[m] - |p| <= |w|
    ensures Correct(NotEnough, ls, p, s)
  {
    hide Complete, Internal, CodeBits, Window, IsCode, Compatible;
    forall i
      ensures !IsCode(ls, i, p + s)
    {
      NoEarlyCode(ls, p, w, s, m, i);
    }
  }

  lemma ShortEntryFound(ls: seq<CodeLen>, p: seq<bool>, w: seq<bool>, s: seq<bool>, m: nat)
    requires w == Window(|w|, s)
    requires m < |ls| && Compatible(ls, p, w, m) && ls[m] - |p| <= |s| && ls[m] - |p| <= |w|
    ensures Correct(Found(m, ls[m] - |p|), ls, p, s)
  {
    StartsStream(CodeBits(ls, m), p, w, s);
  }

  /** A filled entry no longer than the window decodes its symbol. */
  lemma ShortEntry(ls: seq<CodeLen>, p: seq<bool>, w: seq<bool>, s: seq<bool>)
    requires Complete(ls) && Internal(ls, p) && |p| <= 15 && w == Window(|w|, s)
    requires Filled(ls, p, w, |ls|).nbits <= |w|
    ensures Correct(Verdict(Filled(ls, p, w, |ls|), s), ls, p, s)
  {
    hide Filled, Complete, Internal, CodeBits, Window, IsCode, Correct, Compatible;
    var m := TheShortOne(ls, p, w);
    if ls[m] - |p| > |s| {
      ShortEntryWaits(ls, p, w, s, m);
    } else {
      ShortEntryFound(ls, p, w, s, m);
    }
  }

  function Verdict(f: Entry, s: seq<bool>): Lookup {
    if f.nbits > |s| || f.code < 0 then NotEnough else Found(f.code, f.nbits)
  }

  lemma StartsStream(c: seq<bool>, p: seq<bool>, w: seq<bool>, s: seq<bool>)
    requires p <= c && |p| < |c| && |c| - |p| <= |w| && |c| - |p| <= |s| && w == Window(|w|, s)
    requires c[|p|..] <= w || w <= c[|p|..]
    ensures c <= p + s
  {
    var r := c[|p|..];
    assert c == p + r;
    assert r == w[..|r|] == s[..|r|];
  }

  lemma NoCodeInside(ls: seq<CodeLen>, p: seq<bool>, w: seq<bool>, m: nat, i: int)
    requires Complete(ls) && Internal(ls, p)
    requires m < |ls| && Compatible(ls, p, w, m) && ls[m] - |p| > |w|
    ensures !IsCode(ls, i, p + w)
  {
    hide Complete, CodeBits;
    if IsCode(ls, i, p + w) {
      ReachesPast(ls, p, w, i);
      ShortIsAlone(ls, p, w, i, m);
    }
  }

  lemma TheLongOne(ls: seq<CodeLen>, p: seq<bool>, w: seq<bool>) returns (m: nat)
    requires Filled(ls, p, w, |ls|).nbits > |w|
    ensures m < |ls| && Compatible(ls, p, w, m) && ls[m] - |p| > |w|
  {
    var f := Filled(ls, p, w, |ls|);
    FilledFacts(ls, p, w, |ls|);
    hide Filled, CodeBits, Compatible;
    m :| 0 <= m < |ls| && Compatible(ls, p, w, m) && f.nbits == ls[m] - |p|;
  }

  /** When the filled entry outgrows the window, no code ends inside it. */
  lemma LongEntry(ls: seq<CodeLen>, p: seq<bool>, w: seq<bool>)
    requires Complete(ls) && Internal(ls, p)
    requires Filled(ls, p, w, |ls|).nbits > |w|
    ensures Internal(ls, p + w)
  {
    var m := TheLongOne(ls, p, w);
    hide Filled, Complete, CodeBits, IsCode, Compatible;
    forall i
      ensures !IsCode(ls, i, p + w)
    {
      NoCodeInside(ls, p, w, m, i);
    }
  }

  lemma LongerPrefix(ls: seq<CodeLen>, p: seq<bool>, w: seq<bool>, s: seq<bool>, r: Lookup)
    requires |s| >= |w| && w == s[..|w|]
    requires Correct(r, ls, p + w, s[|w|..])
    ensures Correct(match r case NotEnough => NotEnough case Found(c, n) => Found(c, n + |w|), ls, p, s)
  {
    assert (p + w) + s[|w|..] == p + s;
  }

  lemma TableDecodes(t: Table, ls: seq<CodeLen>, p: seq<bool>)
    requires Complete(ls) && Internal(ls, p) && |p| <= 15
    requires t.Table? && t.bits > 0 && |t.entries| == Pow2(t.bits)
    requires forall j :: 0 <= j < |t.entries| ==> EntryRight(ls, p, BitsOf(j, t.bits), t.entries[j])
    ensures Decodes(t, ls, p)
  {
    TableWellFormed(t, ls, p);
    forall s: seq<bool>
      ensures Correct(LookupIn(t, s), ls, p, s)
    {
      SlotDecodes(t, ls, p, s);
    }
  }

  lemma TableWellFormed(t: Table, ls: seq<CodeLen>, p: seq<bool>)
    requires Complete(ls) && Internal(ls, p) && |p| <= 15
    requires t.Table? && t.bits > 0 && |t.entries| == Pow2(t.bits)
    requires forall j :: 0 <= j < |t.entries| ==> EntryRight(ls, p, BitsOf(j, t.bits), t.entries[j])
    ensures WellFormed(t)
  {
    hide Filled, Internal, Complete, LookupIn;
    forall j | 0 <= j < |t.entries|
      ensures var e := t.entries[j]; e.code >= -1 && (e.code == -1 ==> e.nbits == t.bits && WellFormed(e.next))
    {
      var w := BitsOf(j, t.bits);
      assert EntryRight(ls, p, w, t.entries[j]);
      if Filled(ls, p, w, |ls|).nbits <= |w| {
        var m := TheShortOne(ls, p, w);
      }
    }
  }

  lemma SlotDecodes(t: Table, ls: seq<CodeLen>, p: seq<bool>, s: seq<bool>)
    requires Complete(ls) && Internal(ls, p) && |p| <= 15
    requires WellFormed(t)
    requires forall j :: 0 <= j < |t.entries| ==> EntryRight(ls, p, BitsOf(j, t.bits), t.entries[j])
    ensures Correct(LookupIn(t, s), ls, p, s)
  {
    hide Filled, Internal, Complete, Correct;
    var w := Window(t.bits, s);
    var j := Slot(t.bits, s);
    BitsOfVal(w);
    assert EntryRight(ls, p, w, t.entries[j]);
    if Filled(ls, p, w, |ls|).nbits <= |w| {
      var m := TheShortOne(ls, p, w);
      ShortEntry(ls, p, w, s);
    } else {
      LongEntry(ls, p, w);
      var e := t.entries[j];
      if t.bits > |s| {
        NothingYet(ls, p, w, s);
      } else {
        LongerPrefix(ls, p, w, s, LookupIn(e.next, s[t.bits..]));
      }
    }
  }

  lemma NothingYet(ls: seq<CodeLen>, p: seq<bool>, w: seq<bool>, s: seq<bool>)
    requires Internal(ls, p + w) && s <= w
    ensures Correct(NotEnough, ls, p, s)
  {
    assert p + s <= p + w;
    forall i
      ensures !IsCode(ls, i, p + s)
    {
      assert IsCode(ls, i, p + s) ==> IsCode(ls, i, p + w);
    }
  }
}

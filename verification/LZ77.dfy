/** lz77_advance and lz77_compress: a sliding window threaded with doubly linked
    hash chains, and lazy matching that survives across calls. */
module LZ77 {
  import opened Bits
  import opened Tokens

  const HASHMAX: nat := 2039
  const HASHCHARS: nat := 3
  const MAXMATCH: nat := 32
  const INVALID: int := -1

  datatype WinEntry = WinEntry(next: int, prev: int, hashval: int)
  datatype Match = Match(distance: nat, len: nat)

  /** lz77_hash. */
  function Hash(a: byte, b: byte, c: byte): (h: nat)
    ensures h < HASHMAX
  {
    (257 * a + 263 * b + 269 * c) % HASHMAX
  }

  function Slot(k: int): (s: nat)
    ensures s < WINSIZE
  {
    k % WINSIZE
  }

  function SlotOf(k: int): int {
    if k < 0 then INVALID else Slot(k)
  }

  lemma SlotsDiffer(a: int, b: int)
    requires a != b && a - b < WINSIZE && b - a < WINSIZE
    ensures Slot(a) != Slot(b)
  {
  }

  // ---- What the chains must be, in terms of the hashes of all bytes so far

  /** The last position in [lo, k) with hash h, or -1. */
  function Before(hs: seq<nat>, h: nat, k: nat, lo: nat): (j: int)
    requires k <= |hs|
    ensures j == -1 || (lo <= j < k && hs[j] == h && forall i :: j < i < k ==> hs[i] != h)
    ensures j == -1 ==> forall i :: lo <= i < k ==> hs[i] != h
  {
    if k <= lo then -1 else if hs[k - 1] == h then k - 1 else Before(hs, h, k - 1, lo)
  }

  /** The first position from k on with hash h, or -1. */
  function After(hs: seq<nat>, h: nat, k: nat): (j: int)
    requires k <= |hs|
    ensures j == -1 || (k <= j < |hs| && hs[j] == h && forall i :: k <= i < j ==> hs[i] != h)
    ensures j == -1 ==> forall i :: k <= i < |hs| ==> hs[i] != h
    decreases |hs| - k
  {
    if k == |hs| then -1 else if hs[k] == h then k else After(hs, h, k + 1)
  }

  /** The window entry of position k: linked to the nearest positions with its hash. */
  function EntryAt(hs: seq<nat>, k: nat, lo: nat): WinEntry
    requires k < |hs|
  {
    WinEntry(SlotOf(Before(hs, hs[k], k, lo)), SlotOf(After(hs, hs[k], k + 1)), hs[k])
  }

  /** The slots hold the positions from lo on, and each hash's chain lists exactly
      the positions with that hash, newest first, linked both ways. */
  ghost predicate Chained(win: seq<WinEntry>, first: seq<int>, hs: seq<nat>, lo: nat) {
    && |win| == WINSIZE && |first| == HASHMAX && lo <= |hs| <= lo + WINSIZE
    && (forall k :: lo <= k < |hs| ==> hs[k] < HASHMAX && win[Slot(k)] == EntryAt(hs, k, lo))
    && (forall h :: 0 <= h < HASHMAX ==> first[h] == SlotOf(Before(hs, h, |hs|, lo)))
    && (forall s :: |hs| <= s < WINSIZE ==> win[s] == WinEntry(INVALID, INVALID, INVALID))
  }

  lemma EvictSlot(win: seq<WinEntry>, win': seq<WinEntry>, hs: seq<nat>, lo: nat, k: nat)
    requires |win| == |win'| == WINSIZE && lo < k < |hs| <= lo + WINSIZE
    requires win[Slot(k)] == EntryAt(hs, k, lo)
    requires var next := After(hs, hs[lo], lo + 1);
      win' == if next == -1 then win else win[Slot(next) := win[Slot(next)].(next := INVALID)]
    ensures win'[Slot(k)] == EntryAt(hs, k, lo + 1)
  {
    var next := After(hs, hs[lo], lo + 1);
    if next != -1 && next != k {
      SlotsDiffer(next, k);
    }
  }

  /** The newest position of each hash, once position lo is out of reach. */
  lemma EvictFirst(hs: seq<nat>, lo: nat, h: nat)
    requires lo < |hs|
    ensures Before(hs, h, |hs|, lo + 1) ==
      if h == hs[lo] && After(hs, h, lo + 1) == -1 then -1 else Before(hs, h, |hs|, lo)
  {
    var b, b', a := Before(hs, h, |hs|, lo), Before(hs, h, |hs|, lo + 1), After(hs, h, lo + 1);
    if b > lo {
      assert b' == b;
    }
  }

  lemma EvictFirsts(first: seq<int>, hs: seq<nat>, lo: nat)
    requires |first| == HASHMAX && lo < |hs| && hs[lo] < HASHMAX
    requires forall h :: 0 <= h < HASHMAX ==> first[h] == SlotOf(Before(hs, h, |hs|, lo))
    ensures var first' := if After(hs, hs[lo], lo + 1) == -1 then first[hs[lo] := INVALID] else first;
      forall h :: 0 <= h < HASHMAX ==> first'[h] == SlotOf(Before(hs, h, |hs|, lo + 1))
  {
    var first' := if After(hs, hs[lo], lo + 1) == -1 then first[hs[lo] := INVALID] else first;
    forall h | 0 <= h < HASHMAX
      ensures first'[h] == SlotOf(Before(hs, h, |hs|, lo + 1))
    {
      EvictFirst(hs, lo, h);
    }
  }

  lemma EvictSlots(win: seq<WinEntry>, first: seq<int>, hs: seq<nat>, lo: nat)
    requires Chained(win, first, hs, lo) && lo < |hs|
    ensures var next := After(hs, hs[lo], lo + 1);
      var win' := if next == -1 then win else win[Slot(next) := win[Slot(next)].(next := INVALID)];
      && (forall k :: lo < k < |hs| ==> win'[Slot(k)] == EntryAt(hs, k, lo + 1))
      && (forall s :: |hs| <= s < WINSIZE ==> win'[s] == WinEntry(INVALID, INVALID, INVALID))
  {
    hide EntryAt;
    var next := After(hs, hs[lo], lo + 1);
    var win' := if next == -1 then win else win[Slot(next) := win[Slot(next)].(next := INVALID)];
    forall k | lo < k < |hs|
      ensures win'[Slot(k)] == EntryAt(hs, k, lo + 1)
    {
      EvictSlot(win, win', hs, lo, k);
    }
    hide Before, After;
    assert |hs| < WINSIZE ==> next < |hs| && SlotOf(next) < |hs|;
  }

  /** The slot about to be reused is the tail of its chain; unlinking it is enough. */
  lemma Evict(win: seq<WinEntry>, first: seq<int>, hs: seq<nat>, lo: nat)
    requires Chained(win, first, hs, lo) && lo < |hs|
    ensures var e := win[Slot(lo)];
      && e.next == INVALID && 0 <= e.hashval < HASHMAX
      && (e.prev != INVALID ==> 0 <= e.prev < WINSIZE && Chained(win[e.prev := win[e.prev].(next := INVALID)], first, hs, lo + 1))
      && (e.prev == INVALID ==> Chained(win, first[e.hashval := INVALID], hs, lo + 1))
  {
    hide EntryAt, After, Slot, Before;
    assert win[Slot(lo)] == EntryAt(hs, lo, lo);
    OldestEntry(hs, lo);
    EvictFirsts(first, hs, lo);
    EvictSlots(win, first, hs, lo);
  }

  /** The oldest position is the tail of its chain. */
  lemma OldestEntry(hs: seq<nat>, lo: nat)
    requires lo < |hs|
    ensures EntryAt(hs, lo, lo) == WinEntry(INVALID, SlotOf(After(hs, hs[lo], lo + 1)), hs[lo])
  {
  }

  lemma {:induction false} BeforeKeeps(hs: seq<nat>, h: nat, x: nat, k: nat, lo: nat)
    requires k <= |hs|
    ensures Before(hs + [h], x, k, lo) == Before(hs, x, k, lo)
  {
    if k > lo {
      BeforeKeeps(hs, h, x, k - 1, lo);
    }
  }

  lemma PushSlot(hs: seq<nat>, h: nat, lo: nat, k: nat)
    requires lo <= k < |hs|
    ensures EntryAt(hs + [h], k, lo) ==
      if k == Before(hs, h, |hs|, lo) then EntryAt(hs, k, lo).(prev := Slot(|hs|)) else EntryAt(hs, k, lo)
  {
    BeforeKeeps(hs, h, hs[k], k, lo);
    var hs' := hs + [h];
    var a, a' := After(hs, hs[k], k + 1), After(hs', hs[k], k + 1);
    if a >= 0 {
      assert hs'[a] == hs[k] && a' == a;
    } else if hs[k] == h {
      assert hs'[|hs|] == h && a' == |hs|;
    }
  }

  /** A new entry at the head of its chain. */
  lemma Push(win: seq<WinEntry>, first: seq<int>, hs: seq<nat>, lo: nat, h: nat)
    requires Chained(win, first, hs, lo) && |hs| < lo + WINSIZE && h < HASHMAX
    ensures var s, off := Slot(|hs|), first[h];
      var pushed := win[s := WinEntry(off, INVALID, h)];
      && off < WINSIZE
      && (off == INVALID ==> Chained(pushed, first[h := s], hs + [h], lo))
      && (off != INVALID ==> 0 <= off && Chained(pushed[off := pushed[off].(prev := s)], first[h := s], hs + [h], lo))
  {
    hide EntryAt;
    var n, s, off := |hs|, Slot(|hs|), first[h];
    var hs' := hs + [h];
    var newest := Before(hs, h, n, lo);
    var pushed := win[s := WinEntry(off, INVALID, h)];
    var win' := if off == INVALID then pushed else pushed[off := pushed[off].(prev := s)];
    forall k | lo <= k < n + 1
      ensures hs'[k] < HASHMAX && win'[Slot(k)] == EntryAt(hs', k, lo)
    {
      PushedSlot(win, hs, lo, h, off, k);
    }
    forall x | 0 <= x < HASHMAX
      ensures first[h := s][x] == SlotOf(Before(hs', x, |hs'|, lo))
    {
      BeforeKeeps(hs, h, x, n, lo);
    }
  }

  lemma PushedSlot(win: seq<WinEntry>, hs: seq<nat>, lo: nat, h: nat, off: int, k: nat)
    requires |win| == WINSIZE && lo <= k <= |hs| < lo + WINSIZE && off == SlotOf(Before(hs, h, |hs|, lo))
    requires k < |hs| ==> win[Slot(k)] == EntryAt(hs, k, lo)
    ensures var pushed := win[Slot(|hs|) := WinEntry(off, INVALID, h)];
      var win' := if off == INVALID then pushed else pushed[off := pushed[off].(prev := Slot(|hs|))];
      win'[Slot(k)] == EntryAt(hs + [h], k, lo)
  {
    var n, newest := |hs|, Before(hs, h, |hs|, lo);
    if k < n {
      SlotsDiffer(k, n);
      PushSlot(hs, h, lo, k);
      if newest >= 0 && k != newest {
        SlotsDiffer(k, newest);
      }
    } else {
      BeforeKeeps(hs, h, h, n, lo);
      if newest >= 0 {
        SlotsDiffer(newest, n);
      }
    }
  }

  // ---- What that means for a walk along a chain

  /** The slots met from off on by following next links, at most fuel of them. */
  function Walk(win: seq<WinEntry>, off: int, fuel: nat): seq<int>
    decreases fuel
  {
    if fuel == 0 || !(0 <= off < |win|) then [] else [off] + Walk(win, win[off].next, fuel - 1)
  }

  /** The slots of the positions in [lo, k) with hash h, newest first. */
  function ChainOf(hs: seq<nat>, h: nat, k: nat, lo: nat): (slots: seq<int>)
    requires k <= |hs|
  {
    if k <= lo then []
    else if hs[k - 1] == h then [Slot(k - 1)] + ChainOf(hs, h, k - 1, lo)
    else ChainOf(hs, h, k - 1, lo)
  }

  lemma {:induction false} ChainFromBefore(hs: seq<nat>, h: nat, k: nat, lo: nat)
    requires k <= |hs|
    ensures var j := Before(hs, h, k, lo);
      ChainOf(hs, h, k, lo) == if j < 0 then [] else [Slot(j)] + ChainOf(hs, h, j, lo)
  {
    if k > lo && hs[k - 1] != h {
      ChainFromBefore(hs, h, k - 1, lo);
    }
  }

  lemma {:induction false} WalkIsChain(win: seq<WinEntry>, first: seq<int>, hs: seq<nat>, lo: nat, h: nat, k: nat, fuel: nat)
    requires Chained(win, first, hs, lo) && lo <= k <= |hs| && k - lo <= fuel
    ensures Walk(win, SlotOf(Before(hs, h, k, lo)), fuel) == ChainOf(hs, h, k, lo)
    decreases fuel
  {
    hide Slot, Chained;
    var j := Before(hs, h, k, lo);
    ChainFromBefore(hs, h, k, lo);
    if j >= 0 {
      LinksAt(win, first, hs, lo, j);
      WalkIsChain(win, first, hs, lo, h, j, fuel - 1);
    }
  }

  /** Every chain is finite and lists exactly the window slots with its hash, newest
      first; prev undoes next, and the head has no prev. */
  lemma ChainsAreExact(win: seq<WinEntry>, first: seq<int>, hs: seq<nat>, lo: nat, h: nat)
    requires Chained(win, first, hs, lo) && h < HASHMAX
    ensures Walk(win, first[h], WINSIZE) == ChainOf(hs, h, |hs|, lo)
    ensures first[h] != INVALID ==> 0 <= first[h] < WINSIZE && win[first[h]].prev == INVALID
  {
    WalkIsChain(win, first, hs, lo, h, |hs|, WINSIZE);
    var j := Before(hs, h, |hs|, lo);
    hide Slot;
    assert j >= 0 ==> win[Slot(j)] == EntryAt(hs, j, lo);
  }

  lemma LinksInverse(win: seq<WinEntry>, first: seq<int>, hs: seq<nat>, lo: nat, k: nat)
    requires Chained(win, first, hs, lo) && lo <= k < |hs|
    ensures var e := win[Slot(k)];
      && (e.next != INVALID ==> 0 <= e.next < WINSIZE && win[e.next].prev == Slot(k))
      && (e.prev != INVALID ==> 0 <= e.prev < WINSIZE && win[e.prev].next == Slot(k))
  {
    hide Slot, Chained, Before, After;
    LinksAt(win, first, hs, lo, k);
    var b, a := Before(hs, hs[k], k, lo), After(hs, hs[k], k + 1);
    if b >= 0 {
      LinksAt(win, first, hs, lo, b);
      assert After(hs, hs[b], b + 1) == k;
    }
    if a >= 0 {
      LinksAt(win, first, hs, lo, a);
      assert Before(hs, hs[a], a, lo) == k;
    }
  }

  lemma LinksAt(win: seq<WinEntry>, first: seq<int>, hs: seq<nat>, lo: nat, k: nat)
    requires Chained(win, first, hs, lo) && lo <= k < |hs|
    ensures |win| == WINSIZE && win[Slot(k)].next == SlotOf(Before(hs, hs[k], k, lo))
    ensures win[Slot(k)].prev == SlotOf(After(hs, hs[k], k + 1))
  {
    hide Slot;
    assert win[Slot(k)] == EntryAt(hs, k, lo);
  }

  // ---- Searching

  /** The oldest position still in the window when n bytes have gone into it. */
  function Oldest(n: nat): (lo: nat)
    ensures lo <= n <= lo + WINSIZE
  {
    if n <= WINSIZE then 0 else n - WINSIZE
  }

  /** The matches the chain walk collects from position k on: candidates that
      agree in three bytes, newest first, no more than room of them. */
  function Candidates(hs: seq<nat>, input: seq<byte>, k: int, room: nat): (ms: seq<Match>)
    requires k < |hs| && |hs| + HASHCHARS <= |input|
    decreases k
  {
    if k < 0 || room == 0 then [] else
      var older := Before(hs, hs[k], k, Oldest(|hs|));
      if Agrees(input, |hs|, |hs| - k, HASHCHARS)
      then [Match(|hs| - k, HASHCHARS)] + Candidates(hs, input, older, room - 1)
      else Candidates(hs, input, older, room)
  }

  /** Candidates agree in three bytes and get more distant. */
  ghost predicate Sound(input: seq<byte>, p: nat, ms: seq<Match>) {
    && (forall i :: 0 <= i < |ms| ==> ms[i].distance <= WINSIZE && Agrees(input, p, ms[i].distance, HASHCHARS))
    && (forall i, j :: 0 <= i < j < |ms| ==> ms[i].distance < ms[j].distance)
  }

  lemma {:induction false} CandidatesSound(hs: seq<nat>, input: seq<byte>, k: int, room: nat)
    requires k < |hs| && |hs| + HASHCHARS <= |input| && (k >= 0 ==> k >= Oldest(|hs|))
    ensures var ms := Candidates(hs, input, k, room);
      Sound(input, |hs|, ms) && |ms| <= room && forall m :: m in ms ==> m.distance >= |hs| - k
    decreases k
  {
    hide Agrees;
    if k >= 0 && room > 0 {
      var older := Before(hs, hs[k], k, Oldest(|hs|));
      CandidatesSound(hs, input, older, if Agrees(input, |hs|, |hs| - k, HASHCHARS) then room - 1 else room);
    }
  }

  /** The hash of the three bytes at k. */
  function HashAt(input: seq<byte>, k: nat): (h: nat)
    requires k + HASHCHARS <= |input|
    ensures h < HASHMAX
  {
    Hash(input[k], input[k + 1], input[k + 2])
  }

  ghost predicate HashedAt(hs: seq<nat>, input: seq<byte>, k: int) {
    0 <= k < |hs| ==> k + HASHCHARS <= |input| && hs[k] == HashAt(input, k)
  }

  /** Every byte was filed under the hash of itself and its two successors. */
  ghost predicate Hashed(hs: seq<nat>, input: seq<byte>) {
    forall k :: HashedAt(hs, input, k)
  }

  lemma HashedMore(hs: seq<nat>, input: seq<byte>, h: nat)
    requires Hashed(hs, input) && |hs| + HASHCHARS <= |input| && h == HashAt(input, |hs|)
    ensures Hashed(hs + [h], input)
  {
    hide HashAt;
    forall k: int
      ensures HashedAt(hs + [h], input, k)
    {
      assert HashedAt(hs, input, k);
    }
  }

  lemma SameHash(input: seq<byte>, p: nat, d: nat)
    requires Agrees(input, p, d, HASHCHARS)
    ensures HashAt(input, p - d) == HashAt(input, p)
  {
    hide Hash;
    assert input[p] == input[p - d] && input[p + 1] == input[p + 1 - d] && input[p + 2] == input[p + 2 - d];
  }

  /** No position from lo to hi has the hash h. */
  ghost predicate NoneHashes(hs: seq<nat>, lo: nat, hi: int, h: nat) {
    forall i :: lo <= i <= hi && i < |hs| ==> hs[i] != h
  }

  /** No earlier occurrence of the next three bytes in the window is overlooked,
      unless there are already as many candidates as there is room for. */
  lemma {:induction false} NoneOverlooked(hs: seq<nat>, input: seq<byte>, k: int, room: nat, d: nat)
    requires k < |hs| && |hs| + HASHCHARS <= |input| && Hashed(hs, input)
    requires k >= -1 && (k >= 0 ==> hs[k] == HashAt(input, |hs|))
    requires |hs| - k <= d <= WINSIZE && Agrees(input, |hs|, d, HASHCHARS)
    requires k == -1 ==> NoneHashes(hs, Oldest(|hs|), |hs| - d, HashAt(input, |hs|))
    ensures Match(d, HASHCHARS) in Candidates(hs, input, k, room) || |Candidates(hs, input, k, room)| == room
    decreases k
  {
    hide HashAt;
    var p := |hs|;
    SameHash(input, p, d);
    assert HashedAt(hs, input, p - d);
    assert hs[p - d] == HashAt(input, p);
    if k >= 0 && room > 0 && k != p - d {
      var older := Before(hs, hs[k], k, Oldest(p));
      NoneOverlooked(hs, input, older, if Agrees(input, p, p - k, HASHCHARS) then room - 1 else room, d);
    }
  }

  /** m is the longest of the candidates, and the nearest of the longest. */
  ghost predicate Best(input: seq<byte>, p: nat, ms: seq<Match>, m: Match) {
    && Match(m.distance, HASHCHARS) in ms && m.len >= HASHCHARS && Agrees(input, p, m.distance, m.len)
    && forall c :: c in ms ==>
         && (Agrees(input, p, c.distance, m.len) ==> m.distance <= c.distance)
         && !Agrees(input, p, c.distance, m.len + 1)
  }

  /** The candidates that agree in byte n as well. */
  function Longer(input: seq<byte>, p: nat, ms: seq<Match>, n: nat): (r: seq<Match>)
    requires p + n < |input| && forall i :: 0 <= i < |ms| ==> 1 <= ms[i].distance <= p
    ensures |r| <= |ms|
  {
    if ms == [] then [] else
      var m := ms[|ms| - 1];
      Longer(input, p, ms[..|ms| - 1], n) + if input[p + n] == input[p + n - m.distance] then [m] else []
  }

  /** ms holds just the candidates that agree in n bytes, nearest first. */
  ghost predicate Survivors(input: seq<byte>, p: nat, cs: seq<Match>, ms: seq<Match>, n: nat) {
    && (forall i :: 0 <= i < |ms| ==> ms[i] in cs && Agrees(input, p, ms[i].distance, n))
    && (forall c :: c in cs && Agrees(input, p, c.distance, n) ==> c in ms)
    && (forall i, j :: 0 <= i < j < |ms| ==> ms[i].distance < ms[j].distance)
  }

  /** Matches within reach, nearest first. */
  ghost predicate InOrder(ms: seq<Match>, p: nat) {
    && (forall i :: 0 <= i < |ms| ==> 1 <= ms[i].distance <= p)
    && (forall i, j :: 0 <= i < j < |ms| ==> ms[i].distance < ms[j].distance)
  }

  /** r holds those of ms that agree in byte n. */
  ghost predicate Filtered(input: seq<byte>, p: nat, ms: seq<Match>, n: nat, r: seq<Match>)
    requires p + n < |input| && InOrder(ms, p) && InOrder(r, p)
  {
    && (forall i :: 0 <= i < |r| ==> r[i] in ms && input[p + n] == input[p + n - r[i].distance])
    && (forall i :: 0 <= i < |ms| && input[p + n] == input[p + n - ms[i].distance] ==> ms[i] in r)
  }

  lemma Nearer(input: seq<byte>, p: nat, a: seq<Match>, m: Match, n: nat, r: seq<Match>)
    requires p + n < |input| && InOrder(a + [m], p) && InOrder(a, p) && InOrder(r, p) && Filtered(input, p, a, n, r)
    ensures forall i :: 0 <= i < |r| ==> r[i].distance < m.distance
  {
    forall i | 0 <= i < |r|
      ensures r[i].distance < m.distance
    {
      var j :| 0 <= j < |a| && a[j] == r[i];
      assert (a + [m])[j] == a[j] && (a + [m])[|a|] == m;
    }
  }

  lemma InOrderPrefix(a: seq<Match>, m: Match, p: nat)
    requires InOrder(a + [m], p)
    ensures InOrder(a, p) && 1 <= m.distance <= p
  {
    assert forall i :: 0 <= i < |a| ==> (a + [m])[i] == a[i];
    assert (a + [m])[|a|] == m;
  }

  lemma LongerOne(input: seq<byte>, p: nat, a: seq<Match>, m: Match, n: nat, r: seq<Match>)
    requires p + n < |input| && InOrder(a + [m], p) && InOrder(a, p) && InOrder(r, p) && Filtered(input, p, a, n, r)
    requires 1 <= m.distance <= p
    ensures var q := r + if input[p + n] == input[p + n - m.distance] then [m] else [];
      InOrder(q, p) && Filtered(input, p, a + [m], n, q)
  {
    Nearer(input, p, a, m, n, r);
  }

  lemma LongerLast(input: seq<byte>, p: nat, ms: seq<Match>, n: nat)
    requires ms != [] && p + n < |input| && forall i :: 0 <= i < |ms| ==> 1 <= ms[i].distance <= p
    ensures var a, m := ms[..|ms| - 1], ms[|ms| - 1];
      Longer(input, p, ms, n) == Longer(input, p, a, n) + if input[p + n] == input[p + n - m.distance] then [m] else []
  {
  }

  lemma {:induction false} LongerFilters(input: seq<byte>, p: nat, ms: seq<Match>, n: nat)
    requires p + n < |input| && InOrder(ms, p)
    ensures InOrder(Longer(input, p, ms, n), p) && Filtered(input, p, ms, n, Longer(input, p, ms, n))
  {
    if ms == [] {
    } else {
      var a, m := ms[..|ms| - 1], ms[|ms| - 1];
      assert ms == a + [m];
      LongerLast(input, p, ms, n);
      hide *;
      InOrderPrefix(a, m, p);
      LongerFilters(input, p, a, n);
      LongerOne(input, p, a, m, n, Longer(input, p, a, n));
    }
  }

  lemma AgreesStep(input: seq<byte>, p: nat, d: int, n: nat)
    requires p + n < |input|
    ensures 1 <= d <= p ==> (Agrees(input, p, d, n + 1) <==> Agrees(input, p, d, n) && input[p + n] == input[p + n - d])
  {
  }

  lemma SurvivorsStep(input: seq<byte>, p: nat, cs: seq<Match>, ms: seq<Match>, n: nat)
    requires Survivors(input, p, cs, ms, n) && p + n < |input| && Sound(input, p, cs)
    requires forall i :: 0 <= i < |ms| ==> 1 <= ms[i].distance <= p
    ensures Survivors(input, p, cs, Longer(input, p, ms, n), n + 1)
  {
    hide Longer, Agrees;
    LongerFilters(input, p, ms, n);
    var r := Longer(input, p, ms, n);
    forall i | 0 <= i < |r|
      ensures r[i] in cs && Agrees(input, p, r[i].distance, n + 1)
    {
      AgreesStep(input, p, r[i].distance, n);
    }
    forall c | c in cs && Agrees(input, p, c.distance, n + 1)
      ensures c in r
    {
      AgreesReach(input, p, c.distance, n + 1);
      AgreesStep(input, p, c.distance, n);
      var i :| 0 <= i < |ms| && ms[i] == c;
    }
  }

  /** When no candidate agrees further, the first of the survivors is the best. */
  lemma FirstIsBest(input: seq<byte>, p: nat, cs: seq<Match>, ms: seq<Match>, n: nat)
    requires Survivors(input, p, cs, ms, n) && ms != [] && n >= HASHCHARS
    requires forall c :: c in cs ==> c.len == HASHCHARS
    requires p + n == |input| || (p + n < |input| && Survivors(input, p, cs, [], n + 1))
    ensures Best(input, p, cs, ms[0].(len := n))
  {
  }

  /** The circular buffer holds the last bytes before position n of full. */
  ghost predicate Holds(data: seq<byte>, full: seq<byte>, n: nat) {
    |data| == WINSIZE && n <= |full| && forall k :: Oldest(n) <= k < n ==> data[Slot(k)] == full[k]
  }

  lemma HoldsStep(data: seq<byte>, full: seq<byte>, n: nat)
    requires Holds(data, full, n) && n < |full|
    ensures Slot(n) < |data| && Holds(data[Slot(n) := full[n]], full, n + 1)
  {
    forall k | Oldest(n + 1) <= k < n
      ensures Slot(k) != Slot(n)
    {
      SlotsDiffer(k, n);
    }
  }

  /** From position n on, full is what block holds from pos on. */
  ghost predicate Ahead(full: seq<byte>, n: nat, block: seq<byte>, pos: nat) {
    && n <= |full| && pos <= |block| && |full| - n == |block| - pos
    && forall k :: pos <= k < |block| ==> block[k] == full[n - pos + k]
  }

  /** The links of the window and of the hash table. */
  datatype Links = Chains(win: seq<WinEntry>, first: seq<int>)

  predicate Linkable(e: WinEntry) {
    -1 <= e.prev < WINSIZE && -1 <= e.hashval < HASHMAX
  }

  function Unlinked(win: seq<WinEntry>, first: seq<int>, pos: nat): Links
    requires |win| == WINSIZE && |first| == HASHMAX && pos < WINSIZE && Linkable(win[pos])
  {
    var e := win[pos];
    if e.prev != INVALID then Chains(win[e.prev := win[e.prev].(next := INVALID)], first)
    else if e.hashval != INVALID then Chains(win, first[e.hashval := INVALID])
    else Chains(win, first)
  }

  function Linked(win: seq<WinEntry>, first: seq<int>, pos: nat, hash: nat): Links
    requires |win| == WINSIZE && |first| == HASHMAX && pos < WINSIZE && hash < HASHMAX && -1 <= first[hash] < WINSIZE
  {
    var off := first[hash];
    var pushed := win[pos := WinEntry(off, INVALID, hash)];
    Chains(if off == INVALID then pushed else pushed[off := pushed[off].(prev := pos)], first[hash := pos])
  }

  /** Unlinking the slot about to be reused keeps all other chains and positions. */
  lemma UnlinkChained(win: seq<WinEntry>, first: seq<int>, hs: seq<nat>)
    requires Chained(win, first, hs, Oldest(|hs|))
    ensures |win| == WINSIZE && |first| == HASHMAX && Linkable(win[Slot(|hs|)])
    ensures var l := Unlinked(win, first, Slot(|hs|)); Chained(l.win, l.first, hs, Oldest(|hs| + 1))
  {
    hide Chained, Slot, Unlinked, EntryAt;
    if |hs| >= WINSIZE {
      UnlinkFull(win, first, hs);
    } else {
      UnlinkNone(win, first, hs);
    }
  }

  lemma UnlinkNone(win: seq<WinEntry>, first: seq<int>, hs: seq<nat>)
    requires Chained(win, first, hs, 0) && |hs| < WINSIZE
    ensures |win| == WINSIZE && |first| == HASHMAX && Linkable(win[Slot(|hs|)])
    ensures Unlinked(win, first, Slot(|hs|)) == Chains(win, first)
  {
    assert Slot(|hs|) == |hs|;
  }

  lemma UnlinkFull(win: seq<WinEntry>, first: seq<int>, hs: seq<nat>)
    requires Chained(win, first, hs, Oldest(|hs|)) && |hs| >= WINSIZE
    ensures |win| == WINSIZE && |first| == HASHMAX && Linkable(win[Slot(|hs|)])
    ensures var l := Unlinked(win, first, Slot(|hs|)); Chained(l.win, l.first, hs, Oldest(|hs|) + 1)
  {
    hide Chained, Slot, EntryAt;
    SlotWraps(|hs| - WINSIZE);
    Evict(win, first, hs, Oldest(|hs|));
    EvictedLinkable(win, first, hs, Oldest(|hs|));
  }

  lemma SlotWraps(k: nat)
    ensures Slot(k + WINSIZE) == Slot(k)
  {
  }

  lemma EvictedLinkable(win: seq<WinEntry>, first: seq<int>, hs: seq<nat>, lo: nat)
    requires Chained(win, first, hs, lo) && lo < |hs|
    ensures |win| == WINSIZE && |first| == HASHMAX && Linkable(win[Slot(lo)])
  {
    hide Slot;
    assert win[Slot(lo)] == EntryAt(hs, lo, lo);
  }

  lemma OldestNext(hs: seq<nat>, h: nat)
    ensures |hs + [h]| == |hs| + 1 && |hs| < Oldest(|hs| + 1) + WINSIZE
  {
  }

  lemma ChainedFirst(win: seq<WinEntry>, first: seq<int>, hs: seq<nat>, lo: nat, h: nat)
    requires Chained(win, first, hs, lo) && h < HASHMAX
    ensures |win| == WINSIZE && |first| == HASHMAX && -1 <= first[h] < WINSIZE
  {
    hide Slot;
  }

  lemma LinkChained(win: seq<WinEntry>, first: seq<int>, hs: seq<nat>, hash: nat)
    requires Chained(win, first, hs, Oldest(|hs| + 1)) && hash < HASHMAX
    ensures |win| == WINSIZE && |first| == HASHMAX && -1 <= first[hash] < WINSIZE
    ensures var l := Linked(win, first, Slot(|hs|), hash); Chained(l.win, l.first, hs + [hash], Oldest(|hs + [hash]|))
  {
    hide Slot, EntryAt, Before;
    Push(win, first, hs, Oldest(|hs| + 1), hash);
    OldestNext(hs, hash);
    ChainedFirst(win, first, hs, Oldest(|hs| + 1), hash);
    hide Chained;
  }

  class LZ77Context {
    const win: array<WinEntry>
    const data: array<byte>
    var winpos: nat
    const hashtab: array<int>
    const pending: array<byte>
    var npending: nat

    // The hashes of all bytes in the window or gone from it, and all data so far.
    ghost var hs: seq<nat>
    ghost var input: seq<byte>

    /** The first |hs| bytes of full have been through the window. */
    ghost predicate InWindow(full: seq<byte>)
      reads this`winpos, this`hs, win, data, hashtab
    {
      && winpos == Slot(|hs|) && Chained(win[..], hashtab[..], hs, Oldest(|hs|))
      && Hashed(hs, full) && Holds(data[..], full, |hs|)
    }

    ghost predicate Apart() {
      && pending.Length == HASHCHARS && data != pending
      && win as object != data && win as object != hashtab && win as object != pending
      && hashtab as object != data && hashtab as object != pending
    }

    /** All input is either in the window or, the last byte or two, pending. */
    ghost predicate Valid()
      reads this, win, data, hashtab, pending
    {
      && Apart() && npending < HASHCHARS && |hs| + npending == |input|
      && pending[..npending] == input[|hs|..] && InWindow(input)
    }

    /** lz77_init. */
    constructor ()
      ensures Valid() && input == []
      ensures fresh(win) && fresh(data) && fresh(hashtab) && fresh(pending)
    {
      win := new WinEntry[WINSIZE](_ => WinEntry(INVALID, INVALID, INVALID));
      data := new byte[WINSIZE];
      winpos := 0;
      hashtab := new int[HASHMAX](_ => INVALID);
      pending := new byte[HASHCHARS];
      npending := 0;
      hs := [];
      input := [];
    }

    /** Unlink the entry at winpos from the tail of its chain. */
    method Unlink()
      requires win.Length == WINSIZE && hashtab.Length == HASHMAX && winpos < WINSIZE && win as object != hashtab
      requires Linkable(win[winpos])
      modifies win, hashtab
      ensures Chains(win[..], hashtab[..]) == Unlinked(old(win[..]), old(hashtab[..]), winpos)
    {
      var e := win[winpos];
      if e.prev != INVALID {
        win[e.prev] := win[e.prev].(next := INVALID);
      } else if e.hashval != INVALID {
        hashtab[e.hashval] := INVALID;
      }
    }

    /** Put a new entry for winpos at the head of its chain. */
    method Link(hash: nat)
      requires win.Length == WINSIZE && hashtab.Length == HASHMAX && winpos < WINSIZE && win as object != hashtab
      requires hash < HASHMAX && -1 <= hashtab[hash] < WINSIZE
      modifies win, hashtab
      ensures Chains(win[..], hashtab[..]) == Linked(old(win[..]), old(hashtab[..]), winpos, hash)
    {
      var off := hashtab[hash];
      win[winpos] := WinEntry(off, INVALID, hash);
      hashtab[hash] := winpos;
      if off != INVALID {
        win[off] := win[off].(prev := winpos);
      }
    }

    /** lz77_advance. */
    method Advance(c: byte, hash: nat, ghost full: seq<byte>)
      requires InWindow(full) && Apart() && |hs| + HASHCHARS <= |full|
      requires c == full[|hs|] && hash == HashAt(full, |hs|)
      modifies win, data, hashtab, this`winpos, this`hs
      ensures InWindow(full) && hs == old(hs) + [hash]
    {
      hide Hash, Chained, Slot, Holds, Unlinked, Linked, HashAt, Hashed;
      UnlinkChained(win[..], hashtab[..], hs);
      Unlink();
      LinkChained(win[..], hashtab[..], hs, hash);
      Link(hash);
      HoldsStep(data[..], full, |hs|);
      NextSlot(|hs|);
      HashedMore(hs, full, hash);
      data[winpos] := c;
      winpos := (winpos + 1) % WINSIZE;
      hs := hs + [hash];
    }

    /** CHARAT: negative k reaches back into the window. */
    function CharAt(block: seq<byte>, pos: nat, k: int, ghost full: seq<byte>): (c: byte)
      requires winpos == Slot(|hs|) && Holds(data[..], full, |hs|) && Ahead(full, |hs|, block, pos)
      requires -(|hs| as int) <= k < |block| - pos && -(WINSIZE as int) <= k
      reads this`winpos, this`hs, data
      ensures c == full[|hs| + k]
    {
      if k < 0 then
        HeldAt(data[..], full, |hs|, k);
        data[(winpos + k) % WINSIZE]
      else block[pos + k]
    }

    /** The comparison loop: do the next three bytes occur distance places back? */
    method SameBytes(block: seq<byte>, pos: nat, distance: nat, ghost full: seq<byte>) returns (same: bool)
      requires winpos == Slot(|hs|) && Holds(data[..], full, |hs|) && Ahead(full, |hs|, block, pos)
      requires pos + HASHCHARS <= |block| && 1 <= distance <= WINSIZE && distance <= |hs|
      ensures same <==> Agrees(full, |hs|, distance, HASHCHARS)
    {
      hide Slot, Holds, Ahead;
      BlockLength(full, |hs|, block, pos);
      var i := 0;
      while i < HASHCHARS && CharAt(block, pos, i, full) == CharAt(block, pos, i - distance, full)
        invariant 0 <= i <= HASHCHARS
        invariant Agrees(full, |hs|, distance, i)
      {
        i := i + 1;
      }
      same := i == HASHCHARS;
    }

    /** Walk the hash chain and collect up to MAXMATCH matches of three bytes. */
    method FindMatches(block: seq<byte>, pos: nat, hash: nat, matches: array<Match>, ghost full: seq<byte>)
      returns (nmatch: nat)
      requires InWindow(full) && Ahead(full, |hs|, block, pos) && pos + HASHCHARS <= |block|
      requires |hs| + HASHCHARS <= |full| && hash == HashAt(full, |hs|) && matches.Length == MAXMATCH
      modifies matches
      ensures nmatch <= MAXMATCH && matches[..nmatch] == Found(hs, full)
    {
      hide Slot, Holds, Ahead, Chained, Hashed, Agrees, Before, Candidates, HashAt, Found, DistanceTo;
      nmatch := 0;
      ghost var cur := Before(hs, hash, |hs|, Oldest(|hs|));
      BeginWalk(win[..], hashtab[..], hs, full, hash);
      var off := hashtab[hash];
      assert matches[..0] == [];
      while off != INVALID
        invariant off == SlotOf(cur) && -1 <= cur < |hs| && nmatch <= MAXMATCH
        invariant off != INVALID ==> nmatch < MAXMATCH && Oldest(|hs|) <= cur
        invariant matches[..nmatch] + Candidates(hs, full, cur, MAXMATCH - nmatch) == Found(hs, full)
        decreases cur
      {
        WalkStep(win[..], hashtab[..], hs, full, cur, MAXMATCH - nmatch);
        DistanceOf(|hs|, cur);
        var distance := DistanceTo(off, winpos);
        var same := SameBytes(block, pos, distance, full);
        ghost var older := Before(hs, hs[cur], cur, Oldest(|hs|));
        if same {
          ghost var found := matches[..nmatch];
          matches[nmatch] := Match(distance, HASHCHARS);
          nmatch := nmatch + 1;
          assert matches[..nmatch] == found + [Match(distance, HASHCHARS)];
          OneMoreFound(found, Match(distance, HASHCHARS), Candidates(hs, full, older, MAXMATCH - nmatch));
          if nmatch >= MAXMATCH {
            NoRoom(hs, full, older);
            return;
          }
        }
        off := win[off].next;
        cur := older;
      }
      WalkOver(hs, full, MAXMATCH - nmatch);
    }

    /** One round of following the matches down: drop those that differ in byte n. */
    method DropShorter(block: seq<byte>, pos: nat, matches: array<Match>, nmatch: nat, n: nat, ghost full: seq<byte>)
      returns (j: nat)
      requires winpos == Slot(|hs|) && Holds(data[..], full, |hs|) && Ahead(full, |hs|, block, pos)
      requires pos + n < |block| && |hs| + n < |full| && nmatch <= matches.Length && data != matches as object
      requires forall i :: 0 <= i < nmatch ==> 1 <= matches[i].distance <= WINSIZE && matches[i].distance <= |hs|
      modifies matches
      ensures j <= nmatch && matches[..j] == Longer(full, |hs|, old(matches[..nmatch]), n)
      ensures j == 0 ==> matches[..] == old(matches[..])
    {
      hide Slot, Holds, Ahead;
      j := 0;
      ghost var ms := matches[..nmatch];
      for i := 0 to nmatch
        invariant j <= i && matches[..j] == Longer(full, |hs|, ms[..i], n)
        invariant forall k :: i <= k < nmatch ==> matches[k] == ms[k]
        invariant j == 0 ==> matches[..] == old(matches[..])
      {
        assert ms[..i + 1][..i] == ms[..i] && ms[..i + 1][i] == ms[i];
        assert matches[i] == ms[i];
        if CharAt(block, pos, n, full) == CharAt(block, pos, n - matches[i].distance, full) {
          ghost var kept := matches[..j];
          matches[j] := matches[i];
          j := j + 1;
          assert matches[..j] == kept + [ms[i]];
        }
      }
      assert ms[..nmatch] == ms;
    }

    /** Follow the matches down to the longest, favouring shorter distances. */
    method Longest(block: seq<byte>, pos: nat, matches: array<Match>, found: nat, ghost full: seq<byte>)
      returns (m: Match)
      requires winpos == Slot(|hs|) && Holds(data[..], full, |hs|) && Ahead(full, |hs|, block, pos)
      requires 0 < found <= matches.Length && data != matches as object && Sound(full, |hs|, matches[..found])
      requires forall i :: 0 <= i < found ==> matches[i].len == HASHCHARS
      modifies matches
      ensures Best(full, |hs|, old(matches[..found]), m) && m.distance <= WINSIZE
    {
      hide Slot, Holds, Ahead, Best, Survivors, Longer, Agrees;
      ghost var cs := matches[..found];
      BlockLength(full, |hs|, block, pos);
      BeginFollow(full, |hs|, cs);
      var matchlen, nmatch := HASHCHARS, found;
      while pos + matchlen < |block|
        invariant 0 < nmatch <= found && HASHCHARS <= matchlen && pos + matchlen <= |block|
        invariant Survivors(full, |hs|, cs, matches[..nmatch], matchlen)
        decreases |block| - pos - matchlen
      {
        InReach(full, |hs|, cs, matches[..nmatch], matchlen);
        SurvivorsStep(full, |hs|, cs, matches[..nmatch], matchlen);
        ghost var ms := matches[..nmatch];
        var j := DropShorter(block, pos, matches, nmatch, matchlen, full);
        if j == 0 {
          assert matches[..nmatch] == ms && matches[..j] == [];
          break;
        }
        matchlen := matchlen + 1;
        nmatch := j;
      }
      InReach(full, |hs|, cs, matches[..nmatch], matchlen);
      FirstIsBest(full, |hs|, cs, matches[..nmatch], matchlen);
      m := matches[0].(len := matchlen);
    }

    /** Where the window and the pending bytes stand when left bytes of full are to come. */
    ghost predicate At(full: seq<byte>, left: nat)
      reads this`winpos, this`hs, this`npending, win, data, hashtab, pending
    {
      && Apart() && InWindow(full) && |hs| + npending + left == |full|
      && Queued(pending[..], npending, full, |hs|) && (npending == 0 || npending + left < HASHCHARS)
    }

    /** The next match to consider, if there is one (len > 0) and one may look. */
    method Search(block: seq<byte>, pos: nat, compress: bool, ghost full: seq<byte>) returns (m: Match)
      requires pos <= |block| && At(full, |block| - pos) && Ahead(full, |full| - (|block| - pos), block, pos)
      ensures m.len == 0 <==> !compress || pos + HASHCHARS > |block| || !Repeats(full, |full| - (|block| - pos))
      ensures m == Choice(full, |full| - (|block| - pos), compress)
      ensures m.len > 0 ==>
        var p := |full| - (|block| - pos);
        && p == |hs| && p + HASHCHARS <= |full| && Best(full, p, Found(hs, full), m)
        && HASHCHARS <= m.len && m.distance <= WINSIZE && Agrees(full, p, m.distance, m.len)
    {
      hide Slot, Holds, Chained, Hashed, Agrees, Found, Hash, Candidates, Repeats, Best, Queued, Sound, Choice;
      NoChoice(full, |full| - (|block| - pos), compress);
      m := Match(0, 0);
      if compress && |block| - pos >= HASHCHARS {
        var hash := Hash(block[pos], block[pos + 1], block[pos + 2]);
        var matches := new Match[MAXMATCH];
        var nmatch := FindMatches(block, pos, hash, matches, full);
        FoundOrNot(hs, full);
        if nmatch > 0 {
          assert matches[..nmatch] == Found(hs, full);
          m := Longest(block, pos, matches, nmatch, full);
          BestFacts(full, |hs|, Found(hs, full), m);
          ChoiceIs(hs, full, m);
        }
      }
    }

    method ShiftPending(i: nat)
      requires i <= npending <= pending.Length
      modifies pending
      ensures forall k :: 0 <= k < npending - i ==> pending[k] == old(pending[i + k])
    {
      for j := i to npending
        invariant forall k :: 0 <= k < j - i ==> pending[k] == old(pending[i + k])
        invariant forall k :: j <= k < npending ==> pending[k] == old(pending[k])
      {
        pending[j - i] := pending[j];
      }
    }

    /** Put the bytes left over from the last call into the window, as far as there
        are now enough bytes to hash. */
    method FlushPending(block: seq<byte>)
      requires Valid()
      modifies win, data, hashtab, pending, this`winpos, this`hs, this`npending
      ensures At(input + block, |block|)
    {
      hide Slot, Holds, Chained, Hashed, Hash;
      ghost var full := input + block;
      Lengthen(data[..], hs, input, full);
      assert Queued(pending[..], npending, full, |hs|) by { QueuedInput(pending[..], npending, input, full, |hs|); }
      hide Queued;
      var i := 0;
      while i < npending
        invariant i <= npending < HASHCHARS && npending == old(npending)
        invariant InWindow(full) && |hs| + npending - i == |input| && pending[..] == old(pending[..])
        decreases npending - i
      {
        if |block| + npending - i < HASHCHARS {
          ShiftPending(i);
          QueuedShift(pending[..], old(pending[..]), npending, i, full, |input| - npending);
          break;
        }
        var foo := seq(HASHCHARS, j requires 0 <= j < HASHCHARS && i + j < npending + |block| && npending < HASHCHARS == pending.Length
          reads pending, this => if i + j < npending then pending[i + j] else block[i + j - npending]);
        Advance(foo[0], Hash(foo[0], foo[1], foo[2]), full);
        i := i + 1;
      }
      npending := npending - i;
    }

    /** The advance loop: move n bytes from the block into the window, or to the
        pending bytes once too few are left to hash. */
    method Consume(block: seq<byte>, pos: nat, n: nat, ghost full: seq<byte>)
      requires pos + n <= |block| && At(full, |block| - pos) && Ahead(full, |full| - (|block| - pos), block, pos)
      modifies win, data, hashtab, pending, this`winpos, this`hs, this`npending
      ensures At(full, |block| - (pos + n))
    {
      hide Slot, Holds, Chained, Hashed, Hash, Queued;
      var p := pos;
      while p < pos + n
        invariant pos <= p <= pos + n && At(full, |block| - p)
      {
        assert block[p] == full[|full| - |block| + p];
        if |block| - p >= HASHCHARS {
          assert block[p + 1] == full[|full| - |block| + p + 1] && block[p + 2] == full[|full| - |block| + p + 2];
          Advance(block[p], Hash(block[p], block[p + 1], block[p + 2]), full);
          QueuedNone(pending[..], full, |hs|);
        } else {
          QueuedOne(pending[..], npending, full, |hs|, block[p]);
          pending[npending] := block[p];
          npending := npending + 1;
        }
        p := p + 1;
      }
    }

    /** lz77_compress: the calls of literal() and match() it makes, in order. They stand for
        the block, and are those of lazy matching. */
    method Compress(block: seq<byte>, compress: bool) returns (calls: seq<Token>)
      requires Valid()
      modifies this, win, data, hashtab, pending
      ensures Valid() && input == old(input) + block
      ensures Legal(old(input), calls) && Expand(old(input), calls) == input
      ensures calls == Lazy(old(input) + block, |old(input)|, compress, NONE)
      ensures !compress ==> forall t :: t in calls ==> t.Literal?
    {
      hide Slot, Holds, Chained, Hashed, Queued, Legal, Expand;
      ghost var full := input + block;
      FlushPending(block);
      calls := Parse(block, compress, input, full);
      input := full;
      QueuedAll(pending[..], npending, full, |hs|);
    }

    /** The main loop of lz77_compress. */
    method Parse(block: seq<byte>, compress: bool, ghost input0: seq<byte>, ghost full: seq<byte>) returns (calls: seq<Token>)
      requires full == input0 + block && At(full, |block|)
      modifies win, data, hashtab, pending, this`winpos, this`hs, this`npending
      ensures At(full, 0)
      ensures Legal(input0, calls) && Expand(input0, calls) == full && calls == Lazy(full, |input0|, compress, NONE)
      ensures !compress ==> forall t :: t in calls ==> t.Literal?
    {
      hide At, Ahead, Parsed, Legal, Expand, Agrees, Repeats, Best, Found, Lazy, Choice;
      calls := [];
      var defermatch, deferchr: byte := Match(0, 0), 0;
      ParseNothing(input0, full);
      var pos := 0;
      while pos < |block|
        invariant pos <= |block| && At(full, |block| - pos)
        invariant Parsed(input0, full, |input0| + pos, calls, defermatch, deferchr) && Held(defermatch)
        invariant defermatch.len > 0 ==> pos >= 1
        invariant calls + Lazy(full, |input0| + pos, compress, Pending(defermatch)) == Lazy(full, |input0|, compress, NONE)
        invariant !compress ==> defermatch.len == 0 && forall t :: t in calls ==> t.Literal?
        decreases |block| - pos
      {
        AheadIs(input0, block, pos);
        var m := Search(block, pos, compress, full);
        ParseStep(input0, full, |input0| + pos, calls, defermatch, deferchr, m);
        LazyStep(input0, full, |input0| + pos, compress, calls, defermatch, deferchr);
        var advance;
        if m.len > 0 {
          if defermatch.len > 0 {
            if m.len > defermatch.len + 1 {
              calls := calls + [Literal(deferchr)];
              defermatch := m;
              deferchr := block[pos];
              advance := 1;
            } else {
              calls := calls + [Copy(defermatch.distance, defermatch.len)];
              advance := defermatch.len - 1;
              defermatch := defermatch.(len := 0);
            }
          } else {
            defermatch := m;
            deferchr := block[pos];
            advance := 1;
          }
        } else if defermatch.len > 0 {
          calls := calls + [Copy(defermatch.distance, defermatch.len)];
          advance := defermatch.len - 1;
          defermatch := defermatch.(len := 0);
        } else {
          calls := calls + [Literal(block[pos])];
          advance := 1;
        }
        Consume(block, pos, advance, full);
        pos := pos + advance;
      }
      ParsedAll(input0, full, calls, defermatch, deferchr);
      LazyEnds(full, compress, calls, defermatch);
    }
  }

  // ---- Lazy matching, as a function of the data

  const NONE: Match := Match(0, 0)

  /** The hashes under which the first p bytes are filed. */
  function Hashes(full: seq<byte>, p: nat): (hs: seq<nat>)
    requires p + 2 <= |full|
    ensures |hs| == p
  {
    seq(p, k requires 0 <= k < p => HashAt(full, k))
  }

  lemma HashesAre(hs: seq<nat>, full: seq<byte>)
    requires Hashed(hs, full) && |hs| + HASHCHARS <= |full|
    ensures hs == Hashes(full, |hs|)
  {
    hide HashAt;
    forall k | 0 <= k < |hs| ensures hs[k] == Hashes(full, |hs|)[k] {
      assert HashedAt(hs, full, k);
    }
  }

  lemma HashesHashed(full: seq<byte>, p: nat)
    requires p + HASHCHARS <= |full|
    ensures Hashed(Hashes(full, p), full)
  {
    hide HashAt;
    forall k: int ensures HashedAt(Hashes(full, p), full, k) {
    }
  }

  /** How far the bytes at p + n and on agree with those d places back. */
  function Reach(input: seq<byte>, p: nat, d: nat, n: nat): (r: nat)
    requires Agrees(input, p, d, n)
    ensures r >= n && Agrees(input, p, d, r) && !Agrees(input, p, d, r + 1)
    decreases |input| - n
  {
    if p + n < |input| && input[p + n] == input[p + n - d] then Reach(input, p, d, n + 1) else n
  }

  lemma AgreesLess(input: seq<byte>, p: nat, d: nat, n: nat, k: nat)
    requires Agrees(input, p, d, n) && k <= n
    ensures Agrees(input, p, d, k)
  {
  }

  /** Among matches there is a best one, */
  lemma {:induction false} BestExists(input: seq<byte>, p: nat, ms: seq<Match>) returns (m: Match)
    requires ms != [] && Sound(input, p, ms) && forall c :: c in ms ==> c.len == HASHCHARS
    ensures Best(input, p, ms, m)
    decreases |ms|
  {
    hide Agrees;
    var last := ms[|ms| - 1];
    var r := Reach(input, p, last.distance, HASHCHARS);
    if |ms| == 1 {
      m := Match(last.distance, r);
    } else {
      var rest := ms[..|ms| - 1];
      m := BestExists(input, p, rest);
      var b := m;
      if r > m.len {
        m := Match(last.distance, r);
      }
      forall c | c in ms
        ensures Agrees(input, p, c.distance, m.len) ==> m.distance <= c.distance
        ensures !Agrees(input, p, c.distance, m.len + 1)
      {
        BestKept(input, p, rest, b, last, r, c, m);
      }
    }
  }

  lemma BestKept(input: seq<byte>, p: nat, rest: seq<Match>, b: Match, last: Match, r: nat, c: Match, m: Match)
    requires Best(input, p, rest, b) && (c in rest || c == last) && r >= HASHCHARS
    requires Agrees(input, p, last.distance, r) && !Agrees(input, p, last.distance, r + 1)
    requires m == (if r > b.len then Match(last.distance, r) else b) && b.distance < last.distance
    ensures Agrees(input, p, c.distance, m.len) ==> m.distance <= c.distance
    ensures !Agrees(input, p, c.distance, m.len + 1)
  {
    hide Agrees;
    if c in rest {
      if Agrees(input, p, c.distance, m.len + 1) {
        AgreesLess(input, p, c.distance, m.len + 1, b.len + 1);
      } else if r > b.len && Agrees(input, p, c.distance, m.len) {
        AgreesLess(input, p, c.distance, m.len, b.len + 1);
      }
    } else if Agrees(input, p, c.distance, m.len + 1) {
      AgreesLess(input, p, c.distance, m.len + 1, r + 1);
    }
  }

  /** and only one. */
  lemma BestUnique(input: seq<byte>, p: nat, ms: seq<Match>, a: Match, b: Match)
    requires Best(input, p, ms, a) && Best(input, p, ms, b)
    ensures a == b
  {
    hide Agrees;
    var ca, cb := Match(a.distance, HASHCHARS), Match(b.distance, HASHCHARS);
    assert ca in ms && cb in ms;
    if a.len < b.len {
      AgreesLess(input, p, b.distance, b.len, a.len + 1);
    } else if b.len < a.len {
      AgreesLess(input, p, a.distance, a.len, b.len + 1);
    }
  }

  /** The match the search comes up with at p: none if there are too few bytes left or none
      recurs, else the best of the 32 nearest. */
  ghost function Choice(full: seq<byte>, p: nat, compress: bool): (m: Match)
    ensures m.len == 0 <==> !compress || p + HASHCHARS > |full| || !Repeats(full, p)
    ensures m.len == 0 ==> m == NONE
    ensures m.len > 0 ==> m.len >= HASHCHARS && Best(full, p, Found(Hashes(full, p), full), m)
  {
    if !compress || p + HASHCHARS > |full| || !Repeats(full, p) then NONE else
      HashesHashed(full, p);
      FoundOrNot(Hashes(full, p), full);
      var best := BestOf(full, p);
      best
  }

  ghost function BestOf(full: seq<byte>, p: nat): (m: Match)
    requires p + HASHCHARS <= |full| && Repeats(full, p)
    ensures m.len >= HASHCHARS && Best(full, p, Found(Hashes(full, p), full), m)
  {
    HasBest(full, p);
    var m :| Best(full, p, Found(Hashes(full, p), full), m);
    m
  }

  lemma HasBest(full: seq<byte>, p: nat)
    requires p + HASHCHARS <= |full| && Repeats(full, p)
    ensures exists m :: Best(full, p, Found(Hashes(full, p), full), m)
  {
    hide Repeats, Best, Found, Sound;
    HashesHashed(full, p);
    FoundOrNot(Hashes(full, p), full);
    var m := BestExists(full, p, Found(Hashes(full, p), full));
  }

  lemma ChoiceIs(hs: seq<nat>, full: seq<byte>, m: Match)
    requires Hashed(hs, full) && |hs| + HASHCHARS <= |full| && Best(full, |hs|, Found(hs, full), m) && Repeats(full, |hs|)
    ensures m == Choice(full, |hs|, true)
  {
    hide Best, Found, Repeats;
    HashesAre(hs, full);
    BestUnique(full, |hs|, Found(hs, full), m, Choice(full, |hs|, true));
  }

  lemma NoChoice(full: seq<byte>, p: nat, compress: bool)
    ensures !compress || p + HASHCHARS > |full| || !Repeats(full, p) ==> Choice(full, p, compress) == NONE == Match(0, 0)
  {
  }

  predicate Held(d: Match) {
    d.len == 0 || d.len >= HASHCHARS
  }

  function Pending(d: Match): Match {
    if d.len > 0 then d else NONE
  }

  /** The calls from position p on, when d is the match found at p - 1 and put off, if any:
      it is dropped for one at p that is longer by at least two bytes, and taken otherwise. */
  ghost function Lazy(full: seq<byte>, p: nat, compress: bool, d: Match): seq<Token>
    requires Held(d) && (d.len > 0 ==> 1 <= p <= |full|)
    decreases |full| - p
  {
    if p >= |full| then [] else
      var m := Choice(full, p, compress);
      if d.len > 0 then
        if m.len > d.len + 1 then [Literal(full[p - 1])] + Lazy(full, p + 1, compress, m)
        else [Copy(d.distance, d.len)] + Lazy(full, p + (d.len - 1), compress, NONE)
      else if m.len > 0 then Lazy(full, p + 1, compress, m)
      else [Literal(full[p])] + Lazy(full, p + 1, compress, NONE)
  }

  lemma LazyStep(input0: seq<byte>, full: seq<byte>, p: nat, compress: bool, calls: seq<Token>, d: Match, deferchr: byte)
    requires Parsed(input0, full, p, calls, d, deferchr) && p < |full| && Held(d)
    ensures var m := Choice(full, p, compress);
      && Held(m) && Pending(m) == m && Pending(d.(len := 0)) == NONE && (d.len > 0 ==> p >= 1 && deferchr == full[p - 1])
      && calls + Lazy(full, p, compress, Pending(d)) ==
         if d.len > 0 then
           if m.len > d.len + 1 then (calls + [Literal(deferchr)]) + Lazy(full, p + 1, compress, m)
           else (calls + [Copy(d.distance, d.len)]) + Lazy(full, p + (d.len - 1), compress, NONE)
         else if m.len > 0 then calls + Lazy(full, p + 1, compress, m)
         else (calls + [Literal(full[p])]) + Lazy(full, p + 1, compress, NONE)
  {
    hide Choice, Legal, Expand, Agrees, Best, Found, Repeats;
  }

  lemma LazyEnds(full: seq<byte>, compress: bool, calls: seq<Token>, d: Match)
    requires Held(d) && (d.len > 0 ==> |full| >= 1)
    ensures calls + Lazy(full, |full|, compress, Pending(d)) == calls
  {
  }

  /** The calls made stand for full up to position p, or up to p - 1 when a match
      found there is deferred. */
  ghost predicate Parsed(input0: seq<byte>, full: seq<byte>, p: nat, calls: seq<Token>, defermatch: Match, deferchr: byte) {
    && |input0| <= p <= |full|
    && (defermatch.len == 0 ==> Legal(input0, calls) && Expand(input0, calls) == full[..p])
    && (defermatch.len > 0 ==>
          && p >= 1 && Legal(input0, calls) && Expand(input0, calls) == full[..p - 1] && deferchr == full[p - 1]
          && defermatch.len >= HASHCHARS && defermatch.distance <= WINSIZE
          && Agrees(full, p - 1, defermatch.distance, defermatch.len))
  }

  lemma AheadIs(input0: seq<byte>, block: seq<byte>, pos: nat)
    requires pos <= |block|
    ensures Ahead(input0 + block, |input0| + pos, block, pos)
  {
  }

  lemma ParseNothing(input0: seq<byte>, full: seq<byte>)
    requires input0 <= full
    ensures Parsed(input0, full, |input0|, [], Match(0, 0), 0)
  {
  }

  lemma ParseLiteral(input0: seq<byte>, full: seq<byte>, q: nat, calls: seq<Token>)
    requires q < |full| && Legal(input0, calls) && Expand(input0, calls) == full[..q]
    ensures Legal(input0, calls + [Literal(full[q])]) && Expand(input0, calls + [Literal(full[q])]) == full[..q + 1]
  {
    ExpandOne(input0, calls, Literal(full[q]));
  }

  lemma ParseCopy(input0: seq<byte>, full: seq<byte>, q: nat, calls: seq<Token>, d: nat, n: nat)
    requires Legal(input0, calls) && q <= |full| && Expand(input0, calls) == full[..q]
    requires n >= HASHCHARS && d <= WINSIZE && Agrees(full, q, d, n)
    ensures Legal(input0, calls + [Copy(d, n)]) && Expand(input0, calls + [Copy(d, n)]) == full[..q + n]
  {
    CopyOfMatch(full, q, d, n);
    ExpandOne(input0, calls, Copy(d, n));
  }

  lemma AgreesEnd(full: seq<byte>, p: nat, d: nat, n: nat)
    requires Agrees(full, p, d, n)
    ensures p + n <= |full|
  {
  }

  /** What each way of going on leads to. */
  lemma ParseStep(input0: seq<byte>, full: seq<byte>, p: nat, calls: seq<Token>, d: Match, deferchr: byte, m: Match)
    requires Parsed(input0, full, p, calls, d, deferchr) && p < |full|
    requires m.len > 0 ==> m.len >= HASHCHARS && m.distance <= WINSIZE && Agrees(full, p, m.distance, m.len)
    ensures d.len == 0 ==> Parsed(input0, full, p + 1, calls + [Literal(full[p])], d, deferchr)
    ensures d.len == 0 && m.len > 0 ==> Parsed(input0, full, p + 1, calls, m, full[p])
    ensures d.len > 0 && m.len > 0 ==> Parsed(input0, full, p + 1, calls + [Literal(deferchr)], m, full[p])
    ensures d.len > 0 ==>
      && HASHCHARS <= d.len <= |full| - p + 1
      && Parsed(input0, full, p + (d.len - 1), calls + [Copy(d.distance, d.len)], d.(len := 0), deferchr)
  {
    hide Legal, Expand, Agrees;
    if d.len == 0 {
      ParseLiteral(input0, full, p, calls);
    } else {
      ParseLiteral(input0, full, p - 1, calls);
      AgreesEnd(full, p - 1, d.distance, d.len);
      ParseCopy(input0, full, p - 1, calls, d.distance, d.len);
    }
  }

  /** No match is left over at the end of the data. */
  lemma ParsedAll(input0: seq<byte>, full: seq<byte>, calls: seq<Token>, d: Match, deferchr: byte)
    requires Parsed(input0, full, |full|, calls, d, deferchr)
    ensures d.len == 0 && Legal(input0, calls) && Expand(input0, calls) == full
  {
    hide Legal, Expand;
    assert full[..|full|] == full;
  }

  lemma QueuedNone(pending: seq<byte>, full: seq<byte>, p: nat)
    requires p <= |full|
    ensures Queued(pending, 0, full, p)
  {
  }

  lemma QueuedOne(pending: seq<byte>, n: nat, full: seq<byte>, p: nat, c: byte)
    requires Queued(pending, n, full, p) && |pending| == HASHCHARS && p + n < |full| && n + 1 < HASHCHARS && c == full[p + n]
    ensures Queued(pending[n := c], n + 1, full, p)
  {
  }

  lemma QueuedAll(pending: seq<byte>, n: nat, full: seq<byte>, p: nat)
    requires Queued(pending, n, full, p) && p + n == |full|
    ensures pending[..n] == full[p..] && n < HASHCHARS
  {
  }

  /** The first n pending bytes are those of full from position p on. */
  ghost predicate Queued(pending: seq<byte>, n: nat, full: seq<byte>, p: nat) {
    n <= |pending| && n < HASHCHARS && p + n <= |full| && forall k :: 0 <= k < n ==> pending[k] == full[p + k]
  }

  lemma QueuedInput(pending: seq<byte>, n: nat, input: seq<byte>, full: seq<byte>, p: nat)
    requires n < HASHCHARS == |pending| && p + n == |input| && pending[..n] == input[p..] && input <= full
    ensures Queued(pending, n, full, p)
  {
    assert forall k :: 0 <= k < n ==> pending[k] == pending[..n][k] == input[p..][k];
  }

  lemma QueuedShift(pending: seq<byte>, was: seq<byte>, n: nat, i: nat, full: seq<byte>, p: nat)
    requires Queued(was, n, full, p) && i <= n <= |pending|
    requires forall k :: 0 <= k < n - i ==> pending[k] == was[i + k]
    ensures Queued(pending, n - i, full, p + i)
  {
  }

  /** The next three bytes have occurred before, within the window. */
  ghost predicate Repeats(full: seq<byte>, p: nat) {
    exists d :: 1 <= d <= WINSIZE && Agrees(full, p, d, HASHCHARS)
  }

  /** The search comes back empty-handed exactly when there is nothing to find. */
  lemma FoundOrNot(hs: seq<nat>, full: seq<byte>)
    requires Hashed(hs, full) && |hs| + HASHCHARS <= |full|
    ensures Sound(full, |hs|, Found(hs, full)) && (Found(hs, full) != [] <==> Repeats(full, |hs|))
    ensures forall m :: m in Found(hs, full) ==> m.len == HASHCHARS
  {
    hide Agrees, HashAt, Candidates;
    var p := |hs|;
    var cur := Before(hs, HashAt(full, p), p, Oldest(p));
    CandidatesSound(hs, full, cur, MAXMATCH);
    CandidatesLen(hs, full, cur, MAXMATCH);
    if d :| 1 <= d <= WINSIZE && Agrees(full, p, d, HASHCHARS) {
      AgreesReach(full, p, d, HASHCHARS);
      HashRepeats(hs, full, d);
      NoneOverlooked(hs, full, cur, MAXMATCH, d);
    }
    if Found(hs, full) != [] {
      assert Agrees(full, p, Found(hs, full)[0].distance, HASHCHARS);
      AgreesReach(full, p, Found(hs, full)[0].distance, HASHCHARS);
    }
  }

  lemma AgreesReach(full: seq<byte>, p: nat, d: nat, n: nat)
    requires Agrees(full, p, d, n)
    ensures 1 <= d <= p
  {
  }

  lemma HashRepeats(hs: seq<nat>, full: seq<byte>, d: nat)
    requires Hashed(hs, full) && Agrees(full, |hs|, d, HASHCHARS)
    ensures hs[|hs| - d] == HashAt(full, |hs|)
  {
    hide HashAt;
    assert HashedAt(hs, full, |hs| - d);
    SameHash(full, |hs|, d);
  }

  lemma {:induction false} CandidatesLen(hs: seq<nat>, input: seq<byte>, k: int, room: nat)
    requires k < |hs| && |hs| + HASHCHARS <= |input|
    ensures forall m :: m in Candidates(hs, input, k, room) ==> m.len == HASHCHARS
    decreases k
  {
    hide Agrees;
    if k >= 0 && room > 0 {
      CandidatesLen(hs, input, Before(hs, hs[k], k, Oldest(|hs|)),
                    if Agrees(input, |hs|, |hs| - k, HASHCHARS) then room - 1 else room);
    }
  }

  lemma BestFacts(input: seq<byte>, p: nat, ms: seq<Match>, m: Match)
    requires Best(input, p, ms, m)
    ensures m.len >= HASHCHARS && Agrees(input, p, m.distance, m.len)
  {
  }

  lemma Lengthen(data: seq<byte>, hs: seq<nat>, input: seq<byte>, full: seq<byte>)
    requires Hashed(hs, input) && Holds(data, input, |hs|) && input <= full
    ensures Hashed(hs, full) && Holds(data, full, |hs|)
  {
    hide HashAt;
    forall k: int
      ensures HashedAt(hs, full, k)
    {
      assert HashedAt(hs, input, k);
      if 0 <= k < |hs| {
        HashAtSame(input, full, k);
      }
    }
  }

  lemma HashAtSame(input: seq<byte>, full: seq<byte>, k: nat)
    requires input <= full && k + HASHCHARS <= |input|
    ensures HashAt(full, k) == HashAt(input, k)
  {
    hide Hash;
    assert full[k] == input[k] && full[k + 1] == input[k + 1] && full[k + 2] == input[k + 2];
  }

  lemma BlockLength(full: seq<byte>, n: nat, block: seq<byte>, pos: nat)
    requires Ahead(full, n, block, pos)
    ensures n <= |full| && pos <= |block| && |full| - n == |block| - pos
  {
  }

  /** All the matches the chain walk collects for the next three bytes. */
  function Found(hs: seq<nat>, input: seq<byte>): seq<Match>
    requires |hs| + HASHCHARS <= |input|
  {
    Candidates(hs, input, Before(hs, HashAt(input, |hs|), |hs|, Oldest(|hs|)), MAXMATCH)
  }

  lemma BeginWalk(win: seq<WinEntry>, first: seq<int>, hs: seq<nat>, full: seq<byte>, hash: nat)
    requires Chained(win, first, hs, Oldest(|hs|)) && |hs| + HASHCHARS <= |full| && hash == HashAt(full, |hs|)
    ensures var cur := Before(hs, hash, |hs|, Oldest(|hs|));
      && -1 <= cur < |hs| && (cur >= 0 ==> Oldest(|hs|) <= cur)
      && |first| == HASHMAX && first[hash] == SlotOf(cur) && (first[hash] == INVALID <==> cur == -1)
      && Candidates(hs, full, cur, MAXMATCH) == Found(hs, full)
  {
    hide Hash;
  }

  lemma WalkStep(win: seq<WinEntry>, first: seq<int>, hs: seq<nat>, full: seq<byte>, cur: int, room: nat)
    requires Chained(win, first, hs, Oldest(|hs|)) && |hs| + HASHCHARS <= |full|
    requires Oldest(|hs|) <= cur < |hs| && room > 0
    ensures var older := Before(hs, hs[cur], cur, Oldest(|hs|));
      && -1 <= older < cur && (older >= 0 ==> Oldest(|hs|) <= older)
      && |win| == WINSIZE && win[Slot(cur)].next == SlotOf(older) && |hs| - cur <= WINSIZE
      && Candidates(hs, full, cur, room) ==
           if Agrees(full, |hs|, |hs| - cur, HASHCHARS)
           then [Match(|hs| - cur, HASHCHARS)] + Candidates(hs, full, older, room - 1)
           else Candidates(hs, full, older, room)
  {
    hide Agrees, Slot, After;
    assert win[Slot(cur)] == EntryAt(hs, cur, Oldest(|hs|));
  }

  /** 1 for the slot just behind winpos, WINSIZE for the slot at winpos. */
  function DistanceTo(off: nat, winpos: nat): int {
    WINSIZE - (off + WINSIZE - winpos) % WINSIZE
  }

  lemma DistanceOf(n: nat, cur: nat)
    requires cur < n <= cur + WINSIZE
    ensures DistanceTo(Slot(cur), Slot(n)) == n - cur
  {
  }

  lemma OneMoreFound(found: seq<Match>, m: Match, rest: seq<Match>)
    ensures found + ([m] + rest) == found + [m] + rest
  {
  }

  lemma NoRoom(hs: seq<nat>, full: seq<byte>, k: int)
    requires k < |hs| && |hs| + HASHCHARS <= |full|
    ensures Candidates(hs, full, k, 0) == []
  {
  }

  lemma WalkOver(hs: seq<nat>, full: seq<byte>, room: nat)
    requires |hs| + HASHCHARS <= |full|
    ensures Candidates(hs, full, -1, room) == []
  {
  }

  lemma BeginFollow(input: seq<byte>, p: nat, cs: seq<Match>)
    requires Sound(input, p, cs)
    ensures Survivors(input, p, cs, cs, HASHCHARS)
    ensures cs != [] ==> p + HASHCHARS <= |input|
  {
    assert cs != [] ==> Agrees(input, p, cs[0].distance, HASHCHARS);
  }

  lemma InReach(input: seq<byte>, p: nat, cs: seq<Match>, ms: seq<Match>, n: nat)
    requires Survivors(input, p, cs, ms, n) && Sound(input, p, cs)
    ensures forall i :: 0 <= i < |ms| ==> 1 <= ms[i].distance <= p && ms[i].distance <= WINSIZE
  {
  }

  lemma NextSlot(n: nat)
    ensures Slot(n + 1) == (Slot(n) + 1) % WINSIZE
  {
  }

  lemma HeldAt(data: seq<byte>, full: seq<byte>, n: nat, k: int)
    requires Holds(data, full, n) && -(WINSIZE as int) <= k < 0 <= n + k
    ensures |data| == WINSIZE && data[(Slot(n) + k) % WINSIZE] == full[n + k]
  {
    assert (Slot(n) + k) % WINSIZE == Slot(n + k) && n + k >= Oldest(n);
  }
}

/** What the matches considered and the calls made by lz77_compress are, stated over the
    data alone: which distances agree, and for how many bytes. */
module LazyMatching {
  import opened Bits
  import opened Tokens
  import opened LZ77

  /** The distances within the window at which the next three bytes have occurred. */
  ghost function Distances(full: seq<byte>, p: nat): set<nat> {
    set d: nat | 1 <= d <= 32768 && Agrees(full, p, d, 3)
  }

  ghost function Nearer(full: seq<byte>, p: nat, d: nat): set<nat> {
    set e | e in Distances(full, p) && e < d
  }

  /** The 32 smallest of them, or all if there are no more. */
  ghost predicate Near(full: seq<byte>, p: nat, d: nat) {
    d in Distances(full, p) && |Nearer(full, p, d)| < 32
  }

  /** m agrees for as long as any near distance does, and is the nearest that does. */
  ghost predicate LongestNear(full: seq<byte>, p: nat, m: Match) {
    && Near(full, p, m.distance) && m.len >= 3 && Agrees(full, p, m.distance, m.len)
    && forall d :: Near(full, p, d) ==>
         !Agrees(full, p, d, m.len + 1) && (Agrees(full, p, d, m.len) ==> m.distance <= d)
  }

  ghost function Reached(ms: seq<Match>): set<nat> {
    set i | 0 <= i < |ms| :: ms[i].distance
  }

  lemma {:induction false} ReachedSize(ms: seq<Match>)
    requires forall i, j :: 0 <= i < j < |ms| ==> ms[i].distance < ms[j].distance
    ensures |Reached(ms)| == |ms|
  {
    if ms != [] {
      var a, m := ms[..|ms| - 1], ms[|ms| - 1];
      ReachedSize(a);
      forall d | d in Reached(ms) ensures d in Reached(a) + {m.distance} {
        var i :| 0 <= i < |ms| && ms[i].distance == d;
        assert i < |a| ==> a[i] == ms[i];
      }
      forall d | d in Reached(a) ensures d in Reached(ms) && d != m.distance {
        var i :| 0 <= i < |a| && a[i].distance == d;
        assert a[i] == ms[i];
      }
      assert Reached(ms) == Reached(a) + {m.distance};
    }
  }

  lemma SubsetSize(a: set<nat>, b: set<nat>)
    requires a <= b
    ensures |a| <= |b| && (a != b ==> |a| < |b|)
  {
    assert b == a + (b - a);
  }

  /** What the walk along the chain passes over lies behind a full house of nearer ones. */
  lemma {:induction false} OverlookedIsFar(hs: seq<nat>, input: seq<byte>, k: int, room: nat, d: nat)
    requires k < |hs| && |hs| + 3 <= |input| && Hashed(hs, input)
    requires k >= -1 && (k >= 0 ==> k >= Oldest(|hs|) && hs[k] == HashAt(input, |hs|))
    requires |hs| - k <= d <= 32768 && Agrees(input, |hs|, d, 3)
    requires k == -1 ==> NoneHashes(hs, Oldest(|hs|), |hs| - d, HashAt(input, |hs|))
    requires Match(d, 3) !in Candidates(hs, input, k, room)
    ensures forall m :: m in Candidates(hs, input, k, room) ==> m.distance < d
    decreases k
  {
    hide HashAt;
    var p := |hs|;
    SameHash(input, p, d);
    assert HashedAt(hs, input, p - d);
    assert hs[p - d] == HashAt(input, p);
    if k >= 0 && room > 0 {
      var older := Before(hs, hs[k], k, Oldest(p));
      if k != p - d {
        OverlookedIsFar(hs, input, older, if Agrees(input, p, p - k, 3) then room - 1 else room, d);
      }
    }
  }

  /** All that is found for the next three bytes is near, and all that is near is found. */
  lemma FoundIsNear(hs: seq<nat>, full: seq<byte>, d: nat)
    requires Hashed(hs, full) && |hs| + 3 <= |full|
    ensures Match(d, 3) in Found(hs, full) <==> Near(full, |hs|, d)
  {
    var ms, p := Found(hs, full), |hs|;
    FoundFacts(hs, full);
    ReachedSize(ms);
    if Match(d, 3) in ms {
      forall e | e in Nearer(full, p, d) ensures e in Reached(ms) - {d} {
        OverlookedFound(hs, full, e);
        if Match(e, 3) in ms {
          var i :| 0 <= i < |ms| && ms[i] == Match(e, 3);
        }
      }
      assert d in Reached(ms);
      SubsetSize(Nearer(full, p, d), Reached(ms) - {d});
    } else if d in Distances(full, p) {
      OverlookedFound(hs, full, d);
      forall e | e in Reached(ms) ensures e in Nearer(full, p, d) {
        var i :| 0 <= i < |ms| && ms[i].distance == e;
        assert ms[i] in ms;
      }
      SubsetSize(Reached(ms), Nearer(full, p, d));
    }
  }

  lemma FoundFacts(hs: seq<nat>, full: seq<byte>)
    requires Hashed(hs, full) && |hs| + 3 <= |full|
    ensures var ms := Found(hs, full);
      && |ms| <= 32 && (forall m :: m in ms ==> m.len == 3 && m.distance in Distances(full, |hs|))
      && (forall i, j :: 0 <= i < j < |ms| ==> ms[i].distance < ms[j].distance)
  {
    hide Candidates, Agrees, HashAt;
    FoundOrNot(hs, full);
    CandidatesSound(hs, full, Before(hs, HashAt(full, |hs|), |hs|, Oldest(|hs|)), MAXMATCH);
    forall m | m in Found(hs, full) ensures m.distance in Distances(full, |hs|) {
      var i :| 0 <= i < |Found(hs, full)| && Found(hs, full)[i] == m;
      AgreesReach(full, |hs|, m.distance, 3);
    }
  }

  lemma OverlookedFound(hs: seq<nat>, full: seq<byte>, d: nat)
    requires Hashed(hs, full) && |hs| + 3 <= |full| && d in Distances(full, |hs|)
    ensures Match(d, 3) in Found(hs, full)
         || (|Found(hs, full)| == 32 && forall m :: m in Found(hs, full) ==> m.distance < d)
  {
    hide Candidates, Agrees, HashAt;
    var cur := Before(hs, HashAt(full, |hs|), |hs|, Oldest(|hs|));
    AgreesReach(full, |hs|, d, 3);
    HashRepeats(hs, full, d);
    NoneOverlooked(hs, full, cur, MAXMATCH, d);
    if Match(d, 3) !in Found(hs, full) {
      OverlookedIsFar(hs, full, cur, MAXMATCH, d);
    }
  }

  /** The match considered at p: none if no distance within the window agrees in three bytes, else the longest
      among the 32 nearest that do, at the smallest such distance. */
  lemma ChoiceIsLongestNear(full: seq<byte>, p: nat)
    ensures var m := Choice(full, p, true);
      (m.len == 0 <==> Distances(full, p) == {}) && (m.len > 0 ==> LongestNear(full, p, m))
  {
    hide Distances, Near;
    var m := Choice(full, p, true);
    NoDistances(full, p);
    if m.len > 0 {
      HashesHashed(full, p);
      BestIsLongest(Hashes(full, p), full, m);
    }
  }

  lemma NoDistances(full: seq<byte>, p: nat)
    ensures Distances(full, p) == {} <==> p + 3 > |full| || !Repeats(full, p)
  {
    hide Agrees;
    if p + 3 <= |full| && Repeats(full, p) {
      var d :| 1 <= d <= WINSIZE && Agrees(full, p, d, HASHCHARS);
      assert d in Distances(full, p);
    } else if d :| d in Distances(full, p) {
      AgreesEnd(full, p, d, 3);
      assert false;
    }
  }

  lemma BestIsLongest(hs: seq<nat>, full: seq<byte>, m: Match)
    requires Hashed(hs, full) && |hs| + 3 <= |full| && Best(full, |hs|, Found(hs, full), m)
    ensures LongestNear(full, |hs|, m)
  {
    hide Found, Near, Agrees;
    FoundIsNear(hs, full, m.distance);
    forall d | Near(full, |hs|, d)
      ensures !Agrees(full, |hs|, d, m.len + 1) && (Agrees(full, |hs|, d, m.len) ==> m.distance <= d)
    {
      FoundIsNear(hs, full, d);
      assert Match(d, 3) in Found(hs, full);
    }
  }

  /** There is only one such match, so the choice is it. */
  lemma LongestNearIsChoice(full: seq<byte>, p: nat, m: Match)
    requires LongestNear(full, p, m)
    ensures Choice(full, p, true) == m
  {
    hide Distances, Agrees;
    var c := Choice(full, p, true);
    ChoiceIsLongestNear(full, p);
    if m.len < c.len {
      AgreesLess(full, p, c.distance, c.len, m.len + 1);
    } else if c.len < m.len {
      AgreesLess(full, p, m.distance, m.len, c.len + 1);
    }
  }

  /** With no more than 32 distances that agree, none is left out. */
  lemma AllNear(full: seq<byte>, p: nat, d: nat)
    requires |Distances(full, p)| <= 32 && d in Distances(full, p)
    ensures Near(full, p, d)
  {
    SubsetSize(Nearer(full, p, d), Distances(full, p) - {d});
  }

  /** The rule of lazy matching, call by call: at p the match considered there is taken, unless there is none or
      the one considered at the next place is longer by two bytes or more; then one byte goes as it is. */
  ghost predicate ByTheRule(full: seq<byte>, p: nat, calls: seq<Token>)
    decreases |calls|
  {
    if calls == [] then p == |full| else
      p < |full| &&
      var m := Choice(full, p, true);
      if m.len == 0 || Choice(full, p + 1, true).len >= m.len + 2
      then calls[0] == Literal(full[p]) && ByTheRule(full, p + 1, calls[1..])
      else calls[0] == Copy(m.distance, m.len) && ByTheRule(full, p + m.len, calls[1..])
  }

  lemma RuleLiteral(full: seq<byte>, p: nat, calls: seq<Token>)
    requires p < |full| && ByTheRule(full, p + 1, calls)
    requires Choice(full, p, true).len == 0 || Choice(full, p + 1, true).len >= Choice(full, p, true).len + 2
    ensures ByTheRule(full, p, [Literal(full[p])] + calls)
  {
    hide Choice;
    assert ([Literal(full[p])] + calls)[1..] == calls;
  }

  lemma RuleCopy(full: seq<byte>, p: nat, calls: seq<Token>)
    requires var m := Choice(full, p, true);
      p < |full| && m.len > 0 && Choice(full, p + 1, true).len < m.len + 2 && ByTheRule(full, p + m.len, calls)
    ensures var m := Choice(full, p, true); ByTheRule(full, p, [Copy(m.distance, m.len)] + calls)
  {
    hide Choice;
    var m := Choice(full, p, true);
    assert ([Copy(m.distance, m.len)] + calls)[1..] == calls;
  }

  lemma RuleEnd(full: seq<byte>)
    ensures ByTheRule(full, |full|, Lazy(full, |full|, true, NONE))
  {
    hide Choice;
  }

  lemma LazyNow(full: seq<byte>, p: nat)
    requires p < |full|
    ensures var m := Choice(full, p, true);
      Held(m) && Lazy(full, p, true, NONE) ==
        if m.len > 0 then Lazy(full, p + 1, true, m) else [Literal(full[p])] + Lazy(full, p + 1, true, NONE)
  {
    hide Agrees, Best, Found, Repeats;
  }

  lemma LazyNext(full: seq<byte>, p: nat, m: Match)
    requires p + 1 < |full| && Held(m) && m.len > 0
    ensures var n := Choice(full, p + 1, true);
      Held(n) && Lazy(full, p + 1, true, m) ==
        if n.len >= m.len + 2 then [Literal(full[p])] + Lazy(full, p + 2, true, n)
        else [Copy(m.distance, m.len)] + Lazy(full, p + m.len, true, NONE)
  {
    hide Agrees, Best, Found, Repeats;
  }

  lemma NothingHeld()
    ensures Held(NONE) && NONE.len == 0
  {
  }

  lemma ChoiceFits(full: seq<byte>, p: nat)
    ensures var m := Choice(full, p, true); m.len > 0 ==> m.len >= 3 && p + m.len <= |full|
  {
    hide Choice, Agrees, Near;
    ChoiceIsLongestNear(full, p);
    var m := Choice(full, p, true);
    if m.len > 0 {
      AgreesEnd(full, p, m.distance, m.len);
    }
  }

  /** The calls made from p on are those of the rule, though the program decides one place later. */
  lemma {:induction false} LazyIsByTheRule(full: seq<byte>, p: nat)
    requires p <= |full|
    ensures ByTheRule(full, p, Lazy(full, p, true, NONE))
    decreases |full| - p, 1
  {
    hide *;
    NothingHeld();
    if p == |full| {
      RuleEnd(full);
    } else {
      LazyNow(full, p);
      if Choice(full, p, true).len == 0 {
        LazyIsByTheRule(full, p + 1);
        RuleLiteral(full, p, Lazy(full, p + 1, true, NONE));
      } else {
        LazyFrom(full, p);
      }
    }
  }

  /** Likewise when the match at p is put off. */
  lemma {:induction false} LazyFrom(full: seq<byte>, p: nat)
    requires p < |full| && Choice(full, p, true).len > 0 && Held(Choice(full, p, true))
    ensures ByTheRule(full, p, Lazy(full, p + 1, true, Choice(full, p, true)))
    decreases |full| - p, 0
  {
    hide *;
    NothingHeld();
    var m, n := Choice(full, p, true), Choice(full, p + 1, true);
    ChoiceFits(full, p);
    LazyNext(full, p, m);
    if n.len >= m.len + 2 {
      LazyFrom(full, p + 1);
      RuleLiteral(full, p, Lazy(full, p + 2, true, n));
    } else {
      LazyIsByTheRule(full, p + m.len);
      RuleCopy(full, p, Lazy(full, p + m.len, true, NONE));
    }
  }
}

/** What LZP's table learns, and what that makes of an input that repeats itself. */
module LzpLearning {
  import opened Bits
  import opened Repeats
  import opened Tokens
  import opened Lzp

  // ---- The last place entered

  /** One move of the encoder: a match if there is one, else a byte. */
  ghost function Moved(st: State, input: seq<byte>, minLen: nat): State
    requires Sound(st) && |st.data| < |input| && minLen >= 1
  {
    var len := Match(st, input, minLen);
    if len > 0 then Hit(st, len) else Put(st, input[|st.data|])
  }

  ghost predicate Moves(s: State, t: State, input: seq<byte>, minLen: nat) {
    Sound(s) && |s.data| < |input| && minLen >= 1 && t == Moved(s, input, minLen)
  }

  /** The states that the encoder goes through, from the first on. */
  ghost predicate Path(input: seq<byte>, minLen: nat, sts: seq<State>) {
    && |input| >= 12 && |sts| >= 1 && sts[0] == Initial(input[..12])
    && forall i :: 0 < i < |sts| ==> Moves(sts[i - 1], sts[i], input, minLen)
  }

  /** No match has come from further back than 0x40000 bytes. */
  ghost predicate NearOnly(input: seq<byte>, minLen: nat, sts: seq<State>) {
    forall i :: 0 <= i < |sts| - 1 ==> FromNear(sts[i], input, minLen)
  }

  ghost predicate FromNear(s: State, input: seq<byte>, minLen: nat) {
    Sound(s) && |s.data| <= |input| && Match(s, input, minLen) > 0 ==> |s.data| - Candidate(s) <= 0x40000
  }

  /** Of the places a move goes over, the first and every third after it are entered. */
  ghost predicate EnteredBy(s: State, t: State, q: nat) {
    |s.data| <= q < |t.data| && (q - |s.data|) % 3 == 0
  }

  ghost predicate Entered(sts: seq<State>, q: nat) {
    exists i :: 0 < i < |sts| && EnteredBy(sts[i - 1], sts[i], q)
  }

  /** p is the last place entered under h, or 5 if there is none. */
  ghost predicate LastEntered(input: seq<byte>, sts: seq<State>, h: nat, p: nat) {
    && (p == 5 || (Entered(sts, p) && HashesTo(input, p, h)))
    && forall q: nat :: Entered(sts, q) && HashesTo(input, q, h) ==> q <= p
  }

  ghost predicate HashesTo(input: seq<byte>, q: nat, h: nat) {
    5 <= q <= |input| && Hash(input, q) == h
  }

  /** What the table says of a place among the new ones, or else what it said before. */
  ghost predicate Learnt(input: seq<byte>, a: nat, b: nat, h: nat, was: nat, now: nat) {
    && (now == was || (a <= now < b && (now - a) % 3 == 0 && HashesTo(input, now, h)))
    && forall q: nat :: a <= q < b && (q - a) % 3 == 0 && HashesTo(input, q, h) ==> q <= now
  }

  lemma {:induction false} TouchLearns(table: seq<nat>, input: seq<byte>, at: nat, end: nat, h: nat)
    requires |table| == H_SIZE && h < H_SIZE && 5 <= at && end <= |input| && table[h] <= at
    ensures Learnt(input, at, end, h, table[h], Touch(table, input[..end], at, 3, end)[h])
    decreases end - at
  {
    hide Hash;
    if at < end {
      HashPrefix(input[..end], input, at);
      assert input[..end][..at] == input[..at];
      var t := table[Hash(input, at) := at];
      TouchLearns(t, input, at + 3, end, h);
      LearnOne(input, at, end, h, table[h], t[h], Touch(t, input[..end], at + 3, 3, end)[h]);
    }
  }

  lemma LearnOne(input: seq<byte>, a: nat, b: nat, h: nat, was: nat, then_: nat, now: nat)
    requires 5 <= a < b <= |input| && was <= a && then_ == (if Hash(input, a) == h then a else was)
    requires Learnt(input, a + 3, b, h, then_, now)
    ensures Learnt(input, a, b, h, was, now)
  {
    hide Hash;
    forall q: nat | a <= q < b && (q - a) % 3 == 0 && HashesTo(input, q, h) ensures q <= now {
      if q > a {
        assert q >= a + 3 && (q - (a + 3)) % 3 == 0;
      } else {
        assert then_ == a;
      }
    }
    if now != then_ {
      assert (now - a) % 3 == 0;
    }
  }

  /** The state before or after a move, as far as the input is concerned. */
  ghost predicate Level(st: State, input: seq<byte>) {
    Sound(st) && |st.data| <= |input| && st.data == input[..|st.data|] && st.n == 1 && st.n1 == 1
  }

  lemma TickAtOnce(st: State)
    requires Sound(st) && st.n == 1 && st.n1 == 1
    ensures Tick(st).table == st.table[Slot(st) := |st.data|] && Tick(st).n == 1
  {
    hide Hash;
  }

  lemma LevelPut(st: State, input: seq<byte>, h: nat)
    requires Level(st, input) && |st.data| < |input| && h < H_SIZE
    ensures var t := Put(st, input[|st.data|]);
      Level(t, input) && |t.data| == |st.data| + 1 && Learnt(input, |st.data|, |t.data|, h, st.table[h], t.table[h])
  {
    hide Hash, Put, Tick, Slot;
    var ip := |st.data|;
    SoundParts(st);
    PutSound(st, input[ip]);
    PutIs(st, input[ip]);
    TickAtOnce(st);
    HashPrefix(st.data, input, ip);
    assert input[..ip] + [input[ip]] == input[..ip + 1];
    assert st.table[h] < ip;
  }

  lemma LevelHit(st: State, input: seq<byte>, minLen: nat, h: nat)
    requires Level(st, input) && minLen >= 1 && Match(st, input, minLen) > 0 && h < H_SIZE
    requires |st.data| - Candidate(st) <= 0x40000
    ensures var t := Hit(st, Match(st, input, minLen));
      && Level(t, input) && |t.data| == |st.data| + Match(st, input, minLen)
      && Learnt(input, |st.data|, |t.data|, h, st.table[h], t.table[h])
  {
    hide Hash, Hit, Tick, Slot, Sound, Touch, Match, Candidate, Learnt;
    var ip, len := |st.data|, Match(st, input, minLen);
    SoundParts(st);
    MatchIs(st, input, ip, minLen);
    HitOfMatch(st, input, ip, len);
    TickAtOnce(st);
    NotSlower(ip - Candidate(st));
    SlotIs(st, input);
    HitLearns(st.table, input, ip, len, h, Tick(st).table);
  }

  lemma NotSlower(distance: nat)
    requires distance <= 0x40000
    ensures Slower(1, distance) == 1
  {
  }

  lemma SlotIs(st: State, input: seq<byte>)
    requires Level(st, input)
    ensures |st.data| >= 12 && |st.table| == H_SIZE && Slot(st) == Hash(input, |st.data|)
    ensures forall h :: 0 <= h < H_SIZE ==> st.table[h] < |st.data|
  {
    hide Hash;
    HashPrefix(st.data, input, |st.data|);
  }

  lemma HitLearns(table: seq<nat>, input: seq<byte>, ip: nat, len: nat, h: nat, ticked: seq<nat>)
    requires |table| == H_SIZE && 12 <= ip && ip + len <= |input| && len > 0 && h < H_SIZE && table[h] < ip
    requires ticked == table[Hash(input, ip) := ip]
    ensures Learnt(input, ip, ip + len, h, table[h], Touch(ticked[Hash(input, ip) := ip], input[..ip + len], ip + 3, 3, ip + len)[h])
  {
    hide Hash, Touch, Learnt;
    var t := ticked[Hash(input, ip) := ip];
    assert t == ticked;
    TouchLearns(t, input, ip + 3, ip + len, h);
    LearnOne(input, ip, ip + len, h, table[h], t[h], Touch(t, input[..ip + len], ip + 3, 3, ip + len)[h]);
  }

  /** While no match has come from further than 0x40000 bytes back, every slot holds the last place entered
      under it: the first place of every move and every third of a match. */
  lemma {:induction false} TableLearns(input: seq<byte>, minLen: nat, sts: seq<State>, h: nat)
    requires Path(input, minLen, sts) && NearOnly(input, minLen, sts) && h < H_SIZE
    ensures var st := sts[|sts| - 1]; Level(st, input) && LastEntered(input, sts, h, st.table[h])
    decreases |sts|
  {
    hide Sound, Initial, Moved, Learnt, HashesTo, Level, FromNear, LastEntered;
    if |sts| == 1 {
      InitialLevel(input, h);
      NoneEntered(input, sts, h);
    } else {
      var was := sts[..|sts| - 1];
      PathBefore(input, minLen, sts);
      TableLearns(input, minLen, was, h);
      var s, t := was[|was| - 1], sts[|sts| - 1];
      assert sts[|sts| - 2] == s;
      SlotIs(s, input);
      MoveLearns(s, t, input, minLen, h);
      SlotIs(t, input);
      LastAfter(input, sts, h, s.table[h], t.table[h]);
    }
  }

  lemma InitialLevel(input: seq<byte>, h: nat)
    requires |input| >= 12 && h < H_SIZE
    ensures var st := Initial(input[..12]); Level(st, input) && st.table[h] == 5
  {
  }

  lemma NoneEntered(input: seq<byte>, sts: seq<State>, h: nat)
    requires |sts| == 1
    ensures LastEntered(input, sts, h, 5)
  {
  }

  lemma PathBefore(input: seq<byte>, minLen: nat, sts: seq<State>)
    requires Path(input, minLen, sts) && NearOnly(input, minLen, sts) && |sts| > 1
    ensures Path(input, minLen, sts[..|sts| - 1]) && NearOnly(input, minLen, sts[..|sts| - 1])
  {
    hide Sound, Match, Moves, Initial;
    var was := sts[..|sts| - 1];
    assert forall i :: 0 <= i < |was| ==> was[i] == sts[i];
  }

  lemma MoveLearns(s: State, t: State, input: seq<byte>, minLen: nat, h: nat)
    requires Level(s, input) && Moves(s, t, input, minLen) && h < H_SIZE
    requires FromNear(s, input, minLen)
    ensures Level(t, input) && |s.data| < |t.data| && Learnt(input, |s.data|, |t.data|, h, s.table[h], t.table[h])
  {
    hide Sound, Match, Put, Hit, Learnt, Level, Candidate;
    if Match(s, input, minLen) > 0 {
      LevelHit(s, input, minLen, h);
    } else {
      LevelPut(s, input, h);
    }
  }

  /** The last place entered, after one more move. */
  lemma LastAfter(input: seq<byte>, sts: seq<State>, h: nat, was: nat, now: nat)
    requires |sts| > 1 && var s, t := sts[|sts| - 2], sts[|sts| - 1];
      |s.data| < |t.data| && was < |s.data| && Learnt(input, |s.data|, |t.data|, h, was, now)
    requires LastEntered(input, sts[..|sts| - 1], h, was)
    ensures LastEntered(input, sts, h, now)
  {
    hide HashesTo;
    var before, s, t := sts[..|sts| - 1], sts[|sts| - 2], sts[|sts| - 1];
    forall q: nat | Entered(before, q) ensures Entered(sts, q) {
      var i :| 0 < i < |before| && EnteredBy(before[i - 1], before[i], q);
      assert EnteredBy(sts[i - 1], sts[i], q);
    }
    if now != was {
      assert EnteredBy(s, t, now);
    }
    forall q: nat | Entered(sts, q) && HashesTo(input, q, h) ensures q <= now {
      var i :| 0 < i < |sts| && EnteredBy(sts[i - 1], sts[i], q);
      if i < |before| {
        assert EnteredBy(before[i - 1], before[i], q);
      }
    }
  }

  /** These are states of the encoder: what they have written is the beginning of the two streams. */
  lemma {:induction false} PathIsEncoding(input: seq<byte>, minLen: nat, sts: seq<State>) returns (s: Streams)
    requires Path(input, minLen, sts) && NearOnly(input, minLen, sts) && minLen >= 1
    ensures OnTheWay(s, sts[|sts| - 1], input, minLen)
    decreases |sts|
  {
    hide Sound, Initial, OnTheWay;
    if |sts| == 1 {
      s := Streams([], []);
      OnTheWayStarts(input, minLen);
    } else {
      PathBefore(input, minLen, sts);
      s := PathIsEncoding(input, minLen, sts[..|sts| - 1]);
      s := OneMoveOn(s, sts[|sts| - 2], sts[|sts| - 1], input, minLen);
    }
  }

  lemma OneMoveOn(s: Streams, st: State, t: State, input: seq<byte>, minLen: nat) returns (s': Streams)
    requires OnTheWay(s, st, input, minLen) && Moves(st, t, input, minLen)
    ensures OnTheWay(s', t, input, minLen)
  {
    hide Sound, OnTheWay, Put, Hit, Match, LengthBytes, Escape;
    var len := Match(st, input, minLen);
    if len > 0 {
      OnTheWayHit(s, st, input, minLen);
      s' := Streams(s.front + [FLAG], LengthBytes(len - minLen) + s.back);
    } else {
      OnTheWayPut(s, st, input, minLen);
      s' := Streams(s.front + [input[|st.data|]], Escape(st, input[|st.data|]) + s.back);
    }
  }

  // ---- Twelve bytes and then equal ones

  /** From the thirteenth byte on, all are z. */
  ghost predicate Equal(input: seq<byte>, z: byte) {
    |input| >= 12 + 512 && forall i :: 12 <= i < |input| ==> input[i] == z
  }

  lemma {:induction false} LengthSize(r: nat)
    ensures |LengthBytes(r)| == r / 254 + 1
    decreases r
  {
    if r >= 254 {
      LengthSize(r - 254);
    }
  }

  lemma CommonAll(input: seq<byte>, z: byte, q: nat, p: nat)
    requires Equal(input, z) && p < q <= |input| && q >= 12 && forall i :: p <= i < |input| ==> input[i] == z
    ensures Common(input, q, p) == |input| - q
  {
    CommonIs(input, q, p, |input| - q);
  }

  lemma AgreesAt(input: seq<byte>, q: nat, d: nat, len: nat, k: nat)
    requires Agrees(input, q, d, len)
    ensures k < len ==> q + k < |input| && input[q + k] == input[q + k - d]
  {
  }

  lemma CommonHead(input: seq<byte>, z: byte, q: nat)
    requires Equal(input, z) && 12 <= q <= |input|
    ensures Common(input, q, 5) == |input| - q || Common(input, q, 5) <= 6
    ensures input[5] != z ==> Common(input, q, 5) == 0
  {
    var len := Common(input, q, 5);
    if j :| 5 <= j < 12 && input[j] != z {
      AgreesAt(input, q, q - 5, len, j - 5);
    } else {
      CommonAll(input, z, q, 5);
    }
    assert len > 0 ==> input[q] == input[q - (q - 5)];
  }

  lemma SameHashes(input: seq<byte>, z: byte, p: nat, q: nat)
    requires Equal(input, z) && 17 <= p <= |input| && 17 <= q <= |input|
    ensures Hash(input, p) == Hash(input, q)
  {
    assert Le32(input, p - 4) == Le32(input, q - 4) && Le32(input, p - 5) == Le32(input, q - 5);
  }

  lemma OtherHash(input: seq<byte>, z: byte)
    requires Equal(input, z) && input[11] != z
    ensures Hash(input, 16) != Hash(input, 17)
  {
    var c := Le32(input, 12);
    assert Le32(input, 12) == Le32(input, 13);
    var d, x := c + 5 * (c / 0x2_0000 + c % 0x2_0000 * 0x8000), 3 * Le32(input, 11);
    assert Le32(input, 11) - input[11] as nat == Le32(input, 12) - z as nat;
    Remainders(d + x, 3 * (z as int - input[11] as int));
  }

  lemma Remainders(a: nat, d: int)
    requires d != 0 && -0x2_0000 < d < 0x2_0000 && a + d >= 0
    ensures a % 0x2_0000 != (a + d) % 0x2_0000
  {
  }

  /** Every slot holds a place entered under it, if not the first one. */
  ghost predicate Filed(st: State, input: seq<byte>) {
    && Level(st, input) && |st.table| == H_SIZE && |st.data| >= 12
    && forall h :: 0 <= h < H_SIZE ==> st.table[h] == 5 || FiledAt(st, input, st.table[h], h)
  }

  ghost predicate FiledAt(st: State, input: seq<byte>, p: nat, h: nat) {
    12 <= p < |st.data| && HashesTo(input, p, h)
  }

  /** One move: the bytes it sends, and where it leads. */
  ghost predicate Sends(st: State, t: State, input: seq<byte>, minLen: nat, front: seq<byte>, back: seq<byte>) {
    && Sound(st) && Sound(t) && |st.data| <= |input| && |t.data| <= |input| && minLen >= 1
    && var more := Rest(t, input, minLen);
       Rest(st, input, minLen) == Streams(front + more.front, more.back + back)
  }

  lemma MoveSends(st: State, input: seq<byte>, minLen: nat)
    requires Level(st, input) && |st.data| < |input| && minLen >= 1 && FromNear(st, input, minLen)
    ensures var t, len, c := Moved(st, input, minLen), Match(st, input, minLen), input[|st.data|];
      && Level(t, input) && |t.data| == |st.data| + (if len > 0 then len else 1)
      && (len > 0 ==> Sends(st, t, input, minLen, [FLAG], LengthBytes(len - minLen)))
      && (len == 0 ==> Sends(st, t, input, minLen, [c], Escape(st, c)))
  {
    hide Put, Hit, Match, LengthBytes, Escape, Learnt;
    if Match(st, input, minLen) > 0 {
      LevelHit(st, input, minLen, 0);
    } else {
      LevelPut(st, input, 0);
    }
  }

  lemma MoveFiles(st: State, input: seq<byte>, minLen: nat)
    requires Filed(st, input) && |st.data| < |input| && minLen >= 1 && FromNear(st, input, minLen)
    ensures var t := Moved(st, input, minLen);
      Filed(t, input) && |t.data| > |st.data| && |st.data| <= t.table[Hash(input, |st.data|)] < |t.data|
  {
    hide Moved, Match, Hash, Sound, Level, HashesTo, FromNear, Learnt;
    LevelSound(st, input);
    TableSize();
    var t := Moved(st, input, minLen);
    MoveLearns(st, t, input, minLen, 0);
    LevelSound(t, input);
    SlotIs(t, input);
    forall h | 0 <= h < H_SIZE
      ensures t.table[h] == 5 || FiledAt(t, input, t.table[h], h)
      ensures h == Hash(input, |st.data|) ==> |st.data| <= t.table[h]
    {
      MoveLearns(st, t, input, minLen, h);
      LearntFiles(st, t, input, h);
    }
  }

  lemma TableSize()
    ensures H_SIZE > 0
  {
  }

  lemma LevelSound(st: State, input: seq<byte>)
    requires Level(st, input)
    ensures Sound(st) && |st.data| <= |input|
  {
  }

  lemma LearntFiles(st: State, t: State, input: seq<byte>, h: nat)
    requires Filed(st, input) && |st.data| < |t.data| <= |input| && |t.table| == H_SIZE && h < H_SIZE
    requires Learnt(input, |st.data|, |t.data|, h, st.table[h], t.table[h])
    ensures t.table[h] == 5 || FiledAt(t, input, t.table[h], h)
    ensures h == Hash(input, |st.data|) ==> |st.data| <= t.table[h]
  {
    hide Hash, Level;
    assert st.table[h] == 5 || FiledAt(st, input, st.table[h], h);
    assert HashesTo(input, |st.data|, Hash(input, |st.data|));
  }

  lemma SentCosts(st: State, t: State, input: seq<byte>, minLen: nat, front: seq<byte>, back: seq<byte>)
    requires Sends(st, t, input, minLen, front, back)
    ensures Sound(st) && Sound(t) && |st.data| <= |input| && |t.data| <= |input| && minLen >= 1
    ensures Cost(st, input, minLen) == Cost(t, input, minLen) + |front| + |back|
  {
    hide Rest, Sound;
  }

  /** A move near the start either ends it all or costs two bytes at most and goes no further than six bytes. */
  lemma EarlyMove(st: State, input: seq<byte>, z: byte, minLen: nat)
    requires Equal(input, z) && Filed(st, input) && |st.data| <= 22 && 1 <= minLen <= 32
    ensures Sound(st) && FromNear(st, input, minLen)
    ensures var t := Moved(st, input, minLen); Filed(t, input) && Sound(t)
    ensures var t := Moved(st, input, minLen);
      || (|t.data| == |input| && Cost(st, input, minLen) <= 1 + (|input| - 12) / 254 + 1)
      || (|st.data| < |t.data| <= |st.data| + 6 && Cost(st, input, minLen) <= Cost(t, input, minLen) + 2)
  {
    hide Hash, Common, Moved, Rest, Sends, Filed, LengthBytes, Predicted, Candidate, Slot, Sound, Level, Cost, Match, Escape;
    FiledSize(st, input);
    FiledLevel(st, input);
    var ip, c, len, t := |st.data|, Candidate(st), Match(st, input, minLen), Moved(st, input, minLen);
    MatchIs(st, input, ip, minLen);
    CandidateCommon(st, input, z);
    MoveSends(st, input, minLen);
    MoveFiles(st, input, minLen);
    FiledSize(t, input);
    if len == 0 {
      SentCosts(st, t, input, minLen, [input[ip]], Escape(st, input[ip]));
      EscapeSize(st, input[ip]);
    } else {
      SentCosts(st, t, input, minLen, [FLAG], LengthBytes(len - minLen));
      LengthSize(len - minLen);
      if len == |input| - ip {
        EndCosts(t, input, minLen);
        Quotients(len - minLen, |input| - 12);
      }
    }
  }

  lemma EscapeSize(st: State, c: byte)
    requires Sound(st)
    ensures |Escape(st, c)| <= 1
  {
  }

  lemma FiledLevel(st: State, input: seq<byte>)
    requires Filed(st, input)
    ensures Level(st, input) && st.data == input[..|st.data|]
  {
  }

  lemma Quotients(a: nat, b: nat)
    requires a <= b
    ensures a / 254 <= b / 254
  {
  }

  /** What the rest of the input takes in both streams. */
  ghost function Cost(st: State, input: seq<byte>, minLen: nat): nat
    requires Sound(st) && |st.data| <= |input| && minLen >= 1
  {
    |Rest(st, input, minLen).front| + |Rest(st, input, minLen).back|
  }

  lemma EndCosts(t: State, input: seq<byte>, minLen: nat)
    requires Level(t, input) && |t.data| == |input| && minLen >= 1
    ensures Sound(t) && Cost(t, input, minLen) == 0 && Rest(t, input, minLen) == Streams([], [])
  {
  }

  lemma LateLength(st: State, input: seq<byte>, z: byte, minLen: nat)
    requires Equal(input, z) && Filed(st, input) && 17 <= |st.data| <= 28 && 1 <= minLen <= 32
    requires 17 <= st.table[Hash(input, |st.data|)]
    ensures Sound(st) && Match(st, input, minLen) == |input| - |st.data| && FromNear(st, input, minLen)
  {
    hide Hash, Sound, Common, Predicted, Match;
    FiledSize(st, input);
    var ip, c := |st.data|, st.table[Hash(input, |st.data|)];
    MatchIs(st, input, ip, minLen);
    CommonAll(input, z, ip, c);
    assert input[c - 4..c] == input[ip - 4..ip];
  }

  lemma LastSent(st: State, t: State, input: seq<byte>, minLen: nat, front: seq<byte>, back: seq<byte>)
    requires Sends(st, t, input, minLen, front, back) && Level(t, input) && |t.data| == |input|
    ensures Sound(st) && Rest(st, input, minLen) == Streams(front, back)
  {
    EndCosts(t, input, minLen);
    hide Rest, Sound;
    assert front + [] == front && [] + back == back;
  }

  /** Once a place among the equal bytes has been entered under the slot of five of them, the rest is one match. */
  lemma LateMatch(st: State, input: seq<byte>, z: byte, minLen: nat)
    requires Equal(input, z) && Filed(st, input) && 17 <= |st.data| <= 28 && 1 <= minLen <= 32
    requires 17 <= st.table[Hash(input, |st.data|)]
    ensures Rest(st, input, minLen) == Streams([FLAG], LengthBytes(|input| - |st.data| - minLen))
  {
    hide Hash, Sound, Rest, Sends, Filed, LengthBytes, Moved, Match, Level, FromNear;
    FiledSize(st, input);
    FiledLevel(st, input);
    LateLength(st, input, z, minLen);
    MoveSends(st, input, minLen);
    LastSent(st, Moved(st, input, minLen), input, minLen, [FLAG], LengthBytes(|input| - |st.data| - minLen));
  }

  lemma CandidateCommon(st: State, input: seq<byte>, z: byte)
    requires Equal(input, z) && Filed(st, input)
    ensures 5 <= Candidate(st) < |st.data| <= |input|
    ensures var n := Common(input, |st.data|, Candidate(st)); n == |input| - |st.data| || n <= 6
  {
    hide Hash, Common, HashesTo;
    var c := Candidate(st);
    if c == 5 {
      CommonHead(input, z, |st.data|);
    } else {
      assert FiledAt(st, input, c, Slot(st));
      CommonAll(input, z, |st.data|, c);
    }
  }

  lemma MiddleCost(st: State, input: seq<byte>, z: byte, minLen: nat)
    requires Equal(input, z) && Filed(st, input) && 17 <= |st.data| <= 22 && 1 <= minLen <= 32
    ensures Sound(st) && Cost(st, input, minLen) <= 2 + 1 + (|input| - 12) / 254 + 1
  {
    hide Hash, Moved, Rest, Filed, FromNear, Sound;
    EarlyMove(st, input, z, minLen);
    FiledSize(st, input);
    MoveFiles(st, input, minLen);
    var t := Moved(st, input, minLen);
    FiledSize(t, input);
    if |t.data| <= |st.data| + 6 && |t.data| < |input| {
      SameHashes(input, z, |st.data|, |t.data|);
      LateMatch(t, input, z, minLen);
      LengthSize(|input| - |t.data| - minLen);
      Quotients(|input| - |t.data| - minLen, |input| - 12);
    }
  }

  lemma FiledSize(st: State, input: seq<byte>)
    requires Filed(st, input)
    ensures Sound(st) && |st.table| == H_SIZE && 12 <= |st.data| <= |input|
  {
  }

  lemma {:induction false} EarlyCost(st: State, input: seq<byte>, z: byte, minLen: nat)
    requires Equal(input, z) && Filed(st, input) && |st.data| <= 22 && 1 <= minLen <= 32
    ensures Sound(st)
    ensures Cost(st, input, minLen) <= (if |st.data| < 17 then 2 * (17 - |st.data|) else 0) + 4 + (|input| - 12) / 254
    decreases 22 - |st.data|
  {
    hide Hash, Moved, Rest, Filed, FromNear, Sound;
    FiledSize(st, input);
    if |st.data| >= 17 {
      MiddleCost(st, input, z, minLen);
    } else {
      EarlyMove(st, input, z, minLen);
      FiledSize(Moved(st, input, minLen), input);
      if |Moved(st, input, minLen).data| <= 22 {
        EarlyCost(Moved(st, input, minLen), input, z, minLen);
      }
    }
  }

  lemma InitialFiled(input: seq<byte>)
    requires |input| >= 12
    ensures Filed(Initial(input[..12]), input) && |Initial(input[..12]).data| == 12
  {
    InitialLevel(input, 0);
  }

  /** Twelve bytes, whatever they are, and 512 or more equal ones are packed into 26 bytes and one for every 254. */
  lemma EqualBytesPacked(input: seq<byte>, z: byte, minLen: nat)
    requires Equal(input, z) && 1 <= minLen <= 32
    ensures 12 <= Gain(Packed(input, minLen), |input|) <= 26 + (|input| - 12) / 254
  {
    hide Rest, Filed, Sound, Initial;
    InitialFiled(input);
    EarlyCost(Initial(input[..12]), input, z, minLen);
    InitialSound(input[..12]);
  }

  /** At the places 13 to 17, nothing is predicted: the four bytes before are not those before any place entered. */
  lemma Unpredicted(st: State, input: seq<byte>, z: byte)
    requires Equal(input, z) && z !in input[..12] && Filed(st, input) && 13 <= |st.data| <= 17
    ensures Sound(st) && !Predicted(st)
  {
    hide Hash;
    var ip, c := |st.data|, Candidate(st);
    PredictedIs(st, input, ip);
    assert input[..12][4] == input[4] && input[..12][11] == input[11];
    var was, now := input[c - 4..c], input[ip - 4..ip];
    if c == 5 {
      assert was[3] == input[4] && now[3] == input[ip - 1];
    } else {
      assert FiledAt(st, input, c, Slot(st));
      if c == 16 {
        OtherHash(input, z);
      } else {
        assert was[15 - c] == input[11] && now[15 - c] == input[ip + 11 - c];
      }
    }
  }

  lemma PlainMove(st: State, input: seq<byte>, minLen: nat)
    requires Filed(st, input) && |st.data| < |input| && minLen >= 1
    requires Sound(st) && Match(st, input, minLen) == 0
    ensures var t := Moved(st, input, minLen);
      && Filed(t, input) && |t.data| == |st.data| + 1 && |st.data| <= t.table[Hash(input, |st.data|)]
      && Sends(st, t, input, minLen, [input[|st.data|]], Escape(st, input[|st.data|]))
  {
    hide Hash, Match, Rest, Moved, Escape;
    MoveFiles(st, input, minLen);
    MoveSends(st, input, minLen);
  }

  /** From place 13 on: up to five bytes as they are, and one match for the rest. */
  lemma {:induction false} OneByOne(st: State, input: seq<byte>, z: byte, minLen: nat)
    requires Equal(input, z) && z !in input[..12] && Filed(st, input) && 13 <= |st.data| <= 18 && 1 <= minLen <= 32
    requires |st.data| == 18 ==> 17 <= st.table[Hash(input, 18)]
    ensures Sound(st)
    ensures Rest(st, input, minLen) == Streams(input[|st.data|..18] + [FLAG], LengthBytes(|input| - 18 - minLen))
    decreases 18 - |st.data|
  {
    hide Hash, Rest, Filed, Sound, Moved, LengthBytes, Predicted;
    FiledSize(st, input);
    var ip := |st.data|;
    if ip == 18 {
      LateMatch(st, input, z, minLen);
      assert input[18..18] + [FLAG] == [FLAG];
    } else {
      Unpredicted(st, input, z);
      PlainMove(st, input, minLen);
      var t := Moved(st, input, minLen);
      if ip == 17 {
        SameHashes(input, z, 17, 18);
      }
      OneByOne(t, input, z, minLen);
      assert input[ip..18] == [input[ip]] + input[ip + 1..18];
    }
  }

  /** If none of the twelve is like the others, seven bytes go to the front: six as they are, and the flag of one
      match for all that follow. */
  lemma EqualBytesExactly(input: seq<byte>, z: byte, minLen: nat)
    requires Equal(input, z) && z !in input[..12] && 1 <= minLen <= 32
    ensures Packed(input, minLen)
         == Streams([z, z, z, z, z, z, 0xB5],
                    LengthBytes(|input| - 18 - minLen) + if z == 0xB5 && input[1..5] == input[8..12] then [255] else [])
    ensures Gain(Packed(input, minLen), |input|)
         == 12 + 7 + ((|input| - 18 - minLen) / 254 + 1) + if z == 0xB5 && input[1..5] == input[8..12] then 1 else 0
  {
    hide Rest, Filed, Sound, Initial, Hash, LengthBytes;
    InitialFiled(input);
    var st := Initial(input[..12]);
    FirstPlain(input, z, minLen);
    PlainMove(st, input, minLen);
    OneByOne(Moved(st, input, minLen), input, z, minLen);
    InitialSound(input[..12]);
    LengthSize(|input| - 18 - minLen);
    assert [input[12]] + (input[13..18] + [FLAG]) == [z, z, z, z, z, z, 0xB5];
    EqualBytesPacked(input, z, minLen);
  }

  lemma FirstPlain(input: seq<byte>, z: byte, minLen: nat)
    requires Equal(input, z) && z !in input[..12] && minLen >= 1
    ensures var st := Initial(input[..12]);
      && Sound(st) && |st.data| == 12 && Match(st, input, minLen) == 0
      && Escape(st, input[12]) == if z == 0xB5 && input[1..5] == input[8..12] then [255] else []
  {
    hide Hash, Common;
    var st := Initial(input[..12]);
    InitialFiled(input);
    assert Candidate(st) == 5;
    PredictedIs(st, input, 12);
    CommonHead(input, z, 12);
    assert input[..12][5] == input[5];
  }

  /** Two values of the hash. */
  lemma HashValues()
    ensures Hash([1, 2, 3, 4, 5], 5) == 5519 && Hash([122, 122, 122, 122, 122], 5) == 7193
  {
    assert Le32([1, 2, 3, 4, 5], 1) == 84148994 && Le32([1, 2, 3, 4, 5], 0) == 67305985;
    assert Le32([122, 122, 122, 122, 122], 1) == 2054847098 && Le32([122, 122, 122, 122, 122], 0) == 2054847098;
  }
}

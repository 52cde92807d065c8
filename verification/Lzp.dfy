/** LZP: encoder and decoder predict matches from a hash table that both keep in step.
    The literals and flags grow upward from the start of the buffer, the lengths
    downward from its end. */
module Lzp {
  import opened Bits
  import opened Repeats
  import opened Tokens

  const H_SIZE: nat := 0x20000
  const FLAG: byte := 0xB5

  /** lzpC: four bytes, lowest first. */
  function Le32(b: seq<byte>, at: nat): nat
    requires at + 4 <= |b|
  {
    b[at] as nat + 0x100 * b[at + 1] as nat + 0x1_0000 * b[at + 2] as nat + 0x100_0000 * b[at + 3] as nat
  }

  /** lzpH: a hash of the five bytes before p. */
  function Hash(data: seq<byte>, p: nat): (h: nat)
    requires 5 <= p <= |data|
    ensures h < H_SIZE
  {
    var c := Le32(data, p - 4);
    (c + 5 * (c / 0x2_0000 + c % 0x2_0000 * 0x8000) + 3 * Le32(data, p - 5)) % H_SIZE
  }

  lemma HashPrefix(a: seq<byte>, b: seq<byte>, p: nat)
    requires 5 <= p <= |a| && p <= |b| && a[..p] == b[..p]
    ensures Hash(a, p) == Hash(b, p)
  {
    assert forall i :: 0 <= i < p ==> a[..p][i] == a[i] && b[..p][i] == b[i];
  }

  // ---- The state both sides keep, and decoding

  /** The data so far, the table, and the two counters that say when to update it. */
  datatype State = State(data: seq<byte>, table: seq<nat>, n: nat, n1: nat)

  ghost predicate Sound(st: State) {
    && |st.data| >= 12 && |st.table| == H_SIZE && st.n >= 1 && 1 <= st.n1 <= 7
    && forall h :: 0 <= h < H_SIZE ==> 5 <= st.table[h] < |st.data|
  }

  /** LZP_INIT. */
  function Initial(data: seq<byte>): State
    requires |data| == 12
  {
    State(data, seq(H_SIZE, _ => 5), 1, 1)
  }

  function Slot(st: State): (h: nat)
    requires |st.data| >= 12
    ensures h < H_SIZE
  {
    Hash(st.data, |st.data|)
  }

  /** Where the match would be. */
  function Candidate(st: State): (p: nat)
    requires |st.data| >= 12 && |st.table| == H_SIZE
  {
    st.table[Slot(st)]
  }

  /** The four bytes before the candidate are the last four. */
  ghost predicate Predicted(st: State)
    requires Sound(st)
  {
    st.data[Candidate(st) - 4..Candidate(st)] == st.data[|st.data| - 4..]
  }

  /** The table learns the current place every n1-th time. */
  function Tick(st: State): State
    requires |st.data| >= 12 && |st.table| == H_SIZE && st.n >= 1
  {
    if st.n == 1 then st.(table := st.table[Slot(st) := |st.data|], n := st.n1) else st.(n := st.n - 1)
  }

  function Put(st: State, c: byte): State
    requires |st.data| >= 12 && |st.table| == H_SIZE && st.n >= 1
  {
    Tick(st).(data := st.data + [c])
  }

  /** Entering the places at, at + step, … below end. */
  function Touch(table: seq<nat>, data: seq<byte>, at: nat, step: nat, end: nat): (t: seq<nat>)
    requires |table| == H_SIZE && at >= 5 && step > 0 && end <= |data|
    ensures |t| == H_SIZE
    decreases end - at
  {
    if at >= end then table else Touch(table[Hash(data, at) := at], data, at + step, step, end)
  }

  /** Matches that lie far back make the table learn more slowly. */
  function Slower(n1: nat, distance: nat): nat {
    if distance > (n1 + 1) * H_SIZE && n1 < 7 then n1 + 1 else n1
  }

  /** A match of len bytes at the candidate. */
  ghost function Hit(st: State, len: nat): State
    requires Sound(st)
  {
    var p, pos := Candidate(st), |st.data|;
    var t, n1 := Tick(st), Slower(st.n1, pos - p);
    var data := CopyBytes(st.data, pos - p, len);
    State(data, Touch(t.table[Slot(st) := pos], data, pos + 2 * n1 + 1, 2 * n1 + 1, pos + len), t.n, n1)
  }

  datatype Length = Length(r: nat, left: seq<byte>) | NoLength

  /** A length is read from the end of b: zeros count 254 each, the last byte one less than it is. */
  function TakeLength(b: seq<byte>): Length
    decreases |b|
  {
    if b == [] then NoLength
    else if b[|b| - 1] != 0 then Length(b[|b| - 1] as nat - 1, b[..|b| - 1])
    else
      var more := TakeLength(b[..|b| - 1]);
      if more.Length? then more.(r := more.r + 254) else more
  }

  datatype Stepped = Next(st: State, left: seq<byte>) | Broken

  /** The effect of one byte c from the front, with b left at the back. */
  ghost function Step(st: State, c: byte, b: seq<byte>, minLen: nat): Stepped
    requires Sound(st)
  {
    if c != FLAG || !Predicted(st) then Next(Put(st, c), b)
    else if b == [] then Broken
    else if b[|b| - 1] == 255 then Next(Put(st, c), b[..|b| - 1])
    else
      var l := TakeLength(b);
      if l.Length? then Next(Hit(st, minLen + l.r), l.left) else Broken
  }

  lemma TickSound(st: State)
    requires Sound(st)
    ensures var t := Tick(st); t.data == st.data && |t.table| == H_SIZE && t.n >= 1 && t.n1 == st.n1
    ensures forall h :: 0 <= h < H_SIZE ==> 5 <= Tick(st).table[h] <= |st.data|
  {
    hide Hash;
  }

  lemma PutSound(st: State, c: byte)
    requires Sound(st)
    ensures Sound(Put(st, c))
  {
    hide Hash, Tick;
    TickSound(st);
  }

  lemma {:induction false} TouchSound(table: seq<nat>, data: seq<byte>, at: nat, step: nat, end: nat)
    requires |table| == H_SIZE && at >= 5 && step > 0 && end <= |data|
    requires forall h :: 0 <= h < H_SIZE ==> 5 <= table[h] < |data|
    ensures forall h :: 0 <= h < H_SIZE ==> 5 <= Touch(table, data, at, step, end)[h] < |data|
    decreases end - at
  {
    hide Hash;
    if at < end {
      TouchSound(table[Hash(data, at) := at], data, at + step, step, end);
    }
  }

  lemma HitSound(st: State, len: nat)
    requires Sound(st) && len >= 1
    ensures Sound(Hit(st, len)) && |Hit(st, len).data| == |st.data| + len
  {
    hide Hash, Tick, Touch, CopyBytes;
    TickSound(st);
    var p, pos := Candidate(st), |st.data|;
    var n1 := Slower(st.n1, pos - p);
    var data := CopyBytes(st.data, pos - p, len);
    TouchSound(Tick(st).table[Slot(st) := pos], data, pos + 2 * n1 + 1, 2 * n1 + 1, pos + len);
  }

  lemma StepSound(st: State, c: byte, b: seq<byte>, minLen: nat)
    requires Sound(st) && minLen >= 1
    ensures var r := Step(st, c, b, minLen); r.Next? ==> Sound(r.st) && |r.st.data| > |st.data| && |r.left| <= |b|
  {
    hide Sound, Predicted, Put, Hit;
    PutSound(st, c);
    PutLonger(st, c);
    var l := TakeLength(b);
    TakeShorter(b);
    if l.Length? {
      HitSound(st, minLen + l.r);
    }
  }

  lemma PutLonger(st: State, c: byte)
    requires Sound(st)
    ensures Put(st, c).data == st.data + [c]
  {
  }

  lemma {:induction false} TakeShorter(b: seq<byte>)
    ensures TakeLength(b).Length? ==> |TakeLength(b).left| < |b|
    decreases |b|
  {
    if b != [] && b[|b| - 1] == 0 {
      TakeShorter(b[..|b| - 1]);
    }
  }

  datatype Outcome = Done(st: State, left: seq<byte>) | Failed

  /** Decoding all of f, taking lengths from the end of b. */
  ghost function Run(st: State, f: seq<byte>, b: seq<byte>, minLen: nat): Outcome
    requires Sound(st) && minLen >= 1
    decreases |f|
  {
    if f == [] then Done(st, b) else
      var r := Step(st, f[0], b, minLen);
      StepSound(st, f[0], b, minLen);
      if r.Next? then Run(r.st, f[1..], r.left, minLen) else Failed
  }

  lemma {:induction false} RunSound(st: State, f: seq<byte>, b: seq<byte>, minLen: nat)
    requires Sound(st) && minLen >= 1
    ensures var r := Run(st, f, b, minLen); r.Done? ==> Sound(r.st) && |r.left| <= |b| && |r.st.data| >= |st.data| + |f|
    decreases |f|
  {
    hide Sound, Step;
    if f != [] {
      var r := Step(st, f[0], b, minLen);
      StepSound(st, f[0], b, minLen);
      if r.Next? {
        RunSound(r.st, f[1..], r.left, minLen);
      }
    }
  }

  lemma {:induction false} TakeMore(more: seq<byte>, b: seq<byte>)
    requires TakeLength(b).Length?
    ensures TakeLength(more + b) == Length(TakeLength(b).r, more + TakeLength(b).left)
    decreases |b|
  {
    var n := |b| - 1;
    assert (more + b)[..|more| + n] == more + b[..n] && (more + b)[|more| + n] == b[n];
    if b[n] == 0 {
      TakeMore(more, b[..n]);
    }
  }

  /** What lies further down is not looked at. */
  lemma StepMore(st: State, c: byte, more: seq<byte>, b: seq<byte>, minLen: nat)
    requires Sound(st) && Step(st, c, b, minLen).Next?
    ensures Step(st, c, more + b, minLen) == Next(Step(st, c, b, minLen).st, more + Step(st, c, b, minLen).left)
  {
    hide Sound, Predicted, Put, Hit;
    if c == FLAG && Predicted(st) {
      var n := |b| - 1;
      assert (more + b)[..|more| + n] == more + b[..n] && (more + b)[|more| + n] == b[n];
      if b[n] != 255 {
        TakeMore(more, b);
      }
    }
  }

  /** What comes later lies behind in one stream and in front in the other. */
  lemma {:induction false} RunAppend(st: State, f: seq<byte>, b: seq<byte>, f': seq<byte>, b': seq<byte>, minLen: nat)
    requires Sound(st) && minLen >= 1 && Run(st, f, b, minLen).Done?
    ensures var r := Run(st, f, b, minLen); Sound(r.st) && Run(st, f + f', b' + b, minLen) == Run(r.st, f', b' + r.left, minLen)
    decreases |f|
  {
    hide Sound, Step;
    RunSound(st, f, b, minLen);
    if f == [] {
      assert f + f' == f';
    } else {
      var r := Step(st, f[0], b, minLen);
      StepMore(st, f[0], b', b, minLen);
      StepSound(st, f[0], b, minLen);
      assert (f + f')[1..] == f[1..] + f';
      RunAppend(r.st, f[1..], r.left, f', b', minLen);
    }
  }

  /** One more byte at the front, and what it takes at the back. */
  lemma RunOne(st: State, f: seq<byte>, b: seq<byte>, c: byte, b': seq<byte>, minLen: nat, st': State)
    requires Sound(st) && minLen >= 1
    requires Run(st, f, b, minLen).Done? && Run(st, f, b, minLen).left == []
    requires Sound(Run(st, f, b, minLen).st) && Step(Run(st, f, b, minLen).st, c, b', minLen) == Next(st', [])
    ensures Run(st, f + [c], b' + b, minLen) == Done(st', [])
  {
    hide Sound, Step;
    RunAppend(st, f, b, [c], b', minLen);
    assert b' + [] == b' && [c][1..] == [];
    var r := Run(st, f, b, minLen).st;
    assert Run(r, [c], b', minLen) == Run(st', [], [], minLen) by {
      StepSound(r, c, b', minLen);
    }
  }

  /** How the encoder writes a length, from the end. */
  function LengthBytes(r: nat): (b: seq<byte>)
    ensures 1 <= |b| <= r + 1 && b[|b| - 1] != 255
    decreases r
  {
    if r >= 254 then LengthBytes(r - 254) + [0] else [r + 1]
  }

  lemma {:induction false} LengthBack(r: nat)
    ensures TakeLength(LengthBytes(r)) == Length(r, [])
    decreases r
  {
    hide TakeLength;
    if r >= 254 {
      LengthBack(r - 254);
      ZeroLength(LengthBytes(r - 254));
    } else {
      OneLength(r + 1);
    }
  }

  lemma OneLength(c: byte)
    requires c != 0
    ensures TakeLength([c]) == Length(c - 1, [])
  {
    assert [c][..0] == [];
  }

  lemma ZeroLength(b: seq<byte>)
    requires TakeLength(b).Length?
    ensures TakeLength(b + [0]) == Length(TakeLength(b).r + 254, TakeLength(b).left)
  {
    assert (b + [0])[..|b|] == b;
  }

  // ---- What both sides do with the table

  /** if (!--n) …; */
  method TickTable(ghost st: State, table: array<nat>, k: nat, pos: nat, n: nat, n1: nat) returns (n': nat)
    requires Sound(st) && table[..] == st.table && k == Slot(st) && pos == |st.data| && n == st.n && n1 == st.n1
    modifies table
    ensures table[..] == Tick(st).table && n' == Tick(st).n
  {
    hide Hash;
    assert table.Length == H_SIZE;
    n' := n - 1;
    if n' == 0 {
      table[k] := pos;
      n' := n1;
    }
  }

  lemma PutIs(st: State, c: byte)
    requires Sound(st)
    ensures Put(st, c) == State(st.data + [c], Tick(st).table, Tick(st).n, st.n1)
  {
  }

  lemma HitIs(st: State, len: nat)
    requires Sound(st)
    ensures var pos, p := |st.data|, Candidate(st);
      var n1 := Slower(st.n1, pos - p);
      && |Tick(st).table| == H_SIZE && Slot(st) < H_SIZE
      && Hit(st, len) == State(CopyBytes(st.data, pos - p, len),
            Touch(Tick(st).table[Slot(st) := pos], CopyBytes(st.data, pos - p, len), pos + 2 * n1 + 1, 2 * n1 + 1, pos + len), Tick(st).n, n1)
  {
    hide Touch, CopyBytes, Hash;
  }

  lemma SoundParts(st: State)
    requires Sound(st)
    ensures |st.data| >= 12 && |st.table| == H_SIZE && 5 <= Candidate(st) < |st.data| && st.n >= 1 && 1 <= st.n1 <= 7
    ensures Candidate(st) == st.table[Slot(st)] && Slot(st) == Hash(st.data, |st.data|) && H_SIZE > 0
  {
  }

  lemma InitialSound(data: seq<byte>)
    requires |data| == 12
    ensures Sound(Initial(data)) && Initial(data) == State(data, seq(H_SIZE, _ => 5), 1, 1)
  {
  }

  // ---- What the encoder makes of its input

  /** The two streams as they would be with room enough. */
  datatype Streams = Streams(front: seq<byte>, back: seq<byte>)

  /** The match sent next: all that agrees at the predicted place, if that is enough; else 0. */
  ghost function Match(st: State, input: seq<byte>, minLen: nat): (len: nat)
    requires Sound(st) && |st.data| <= |input|
    ensures len == 0 || len >= minLen
    ensures |st.data| + len <= |input|
  {
    SoundParts(st);
    if !Predicted(st) || Common(input, |st.data|, Candidate(st)) < minLen then 0
    else Common(input, |st.data|, Candidate(st))
  }

  /** What a literal needs at the back so as not to be taken for a match. */
  ghost function Escape(st: State, c: byte): seq<byte>
    requires Sound(st)
  {
    if c == FLAG && Predicted(st) then [255] else []
  }

  /** The streams for what the state has not seen of the input. */
  ghost function Rest(st: State, input: seq<byte>, minLen: nat): Streams
    requires Sound(st) && |st.data| <= |input| && minLen >= 1
    decreases |input| - |st.data|
  {
    var ip, len := |st.data|, Match(st, input, minLen);
    if ip == |input| then Streams([], [])
    else if len > 0 then
      HitSound(st, len);
      var more := Rest(Hit(st, len), input, minLen);
      Streams([FLAG] + more.front, more.back + LengthBytes(len - minLen))
    else
      PutSound(st, input[ip]);
      PutLonger(st, input[ip]);
      var more := Rest(Put(st, input[ip]), input, minLen);
      Streams([input[ip]] + more.front, more.back + Escape(st, input[ip]))
  }

  /** The streams that an input becomes. */
  ghost function Packed(input: seq<byte>, minLen: nat): Streams
    requires |input| >= 12 && minLen >= 1
  {
    InitialSound(input[..12]);
    Rest(Initial(input[..12]), input, minLen)
  }

  /** What the two streams take, or -1 if they do not save 256 bytes and one in 128. */
  function Gain(s: Streams, size: nat): int {
    var n := 12 + |s.front| + |s.back|;
    if n + 256 + size / 128 > size then -1 else n
  }

  /** The streams s lead to st, and with the rest they are those of the input. */
  ghost predicate OnTheWay(s: Streams, st: State, input: seq<byte>, minLen: nat) {
    && Sound(st) && |input| >= 12 && |st.data| <= |input| && minLen >= 1
    && var more := Rest(st, input, minLen);
    Packed(input, minLen) == Streams(s.front + more.front, more.back + s.back)
  }

  lemma OnTheWayStarts(input: seq<byte>, minLen: nat)
    requires |input| >= 12 && minLen >= 1
    ensures OnTheWay(Streams([], []), Initial(input[..12]), input, minLen)
  {
    hide Rest, Sound;
    InitialSound(input[..12]);
    var more := Packed(input, minLen);
    assert more.back + [] == more.back && [] + more.front == more.front;
  }

  lemma OnTheWayHit(s: Streams, st: State, input: seq<byte>, minLen: nat)
    requires OnTheWay(s, st, input, minLen) && Match(st, input, minLen) > 0
    ensures var len := Match(st, input, minLen);
      OnTheWay(Streams(s.front + [FLAG], LengthBytes(len - minLen) + s.back), Hit(st, len), input, minLen)
  {
    hide Sound, Hit, Match, LengthBytes, Packed;
    var len := Match(st, input, minLen);
    HitSound(st, len);
    Regroup(s, [FLAG], LengthBytes(len - minLen), Rest(Hit(st, len), input, minLen));
  }

  lemma OnTheWayPut(s: Streams, st: State, input: seq<byte>, minLen: nat)
    requires OnTheWay(s, st, input, minLen) && |st.data| < |input| && Match(st, input, minLen) == 0
    ensures var c := input[|st.data|];
      OnTheWay(Streams(s.front + [c], Escape(st, c) + s.back), Put(st, c), input, minLen)
  {
    hide Sound, Put, Match, Escape, Packed;
    var c := input[|st.data|];
    PutSound(st, c);
    PutLonger(st, c);
    SoundParts(st);
    Regroup(s, [c], Escape(st, c), Rest(Put(st, c), input, minLen));
  }

  lemma OnTheWayEnds(s: Streams, st: State, input: seq<byte>, minLen: nat)
    requires OnTheWay(s, st, input, minLen) && |st.data| == |input|
    ensures s == Packed(input, minLen)
  {
    hide Sound, Packed;
    assert s.front + [] == s.front && [] + s.back == s.back;
  }

  lemma Regroup(s: Streams, c: seq<byte>, b: seq<byte>, more: Streams)
    ensures s.front + (c + more.front) == (s.front + c) + more.front
    ensures (more.back + b) + s.back == more.back + (b + s.back)
  {
  }

  lemma PredictedIs(st: State, input: seq<byte>, ip: nat)
    requires Sound(st) && ip <= |input| && st.data == input[..ip]
    ensures ip >= 12 && 5 <= Candidate(st) < ip
    ensures Predicted(st) <==> input[Candidate(st) - 4..Candidate(st)] == input[ip - 4..ip]
    ensures Slot(st) == Hash(input, ip)
  {
    hide Hash;
    HashPrefix(input, input[..ip], ip);
    var p := Candidate(st);
    assert input[..ip][p - 4..p] == input[p - 4..p] && input[..ip][ip - 4..] == input[ip - 4..ip];
  }

  /** Where no four bytes recur, nothing is predicted, and everything is sent as it is. */
  lemma {:induction false} RestOfNothingTwice(st: State, input: seq<byte>, minLen: nat)
    requires Sound(st) && minLen >= 1 && |st.data| <= |input| && st.data == input[..|st.data|] && NoFourTwice(input)
    ensures Rest(st, input, minLen) == Streams(input[|st.data|..], [])
    decreases |input| - |st.data|
  {
    hide Sound, Put, Hit, Hash, Common;
    var ip := |st.data|;
    SoundParts(st);
    PredictedIs(st, input, ip);
    assert Four(input, Candidate(st) - 4) != Four(input, ip - 4);
    if ip < |input| {
      PutSound(st, input[ip]);
      PutLonger(st, input[ip]);
      assert input[..ip] + [input[ip]] == input[..ip + 1];
      RestOfNothingTwice(Put(st, input[ip]), input, minLen);
    }
  }

  /** Such an input is never packed. */
  lemma NothingTwiceFails(input: seq<byte>, minLen: nat)
    requires |input| > 12 && minLen >= 1 && NoFourTwice(input)
    ensures Packed(input, minLen) == Streams(input[12..], []) && Gain(Packed(input, minLen), |input|) == -1
  {
    hide Rest, Sound;
    InitialSound(input[..12]);
    RestOfNothingTwice(Initial(input[..12]), input, minLen);
  }

  // ---- The encoder

  /** Four bytes at a time, then one by one. */
  method MatchLength(input: seq<byte>, ip: nat, p: nat) returns (len: nat)
    requires p < ip <= |input|
    ensures len == Common(input, ip, p)
  {
    hide Common;
    len := 4;
    while ip + len <= |input| && input[p + len - 4..p + len] == input[ip + len - 4..ip + len]
      invariant len >= 4 && ip + len - 4 <= |input| && Agrees(input, ip, ip - p, len - 4)
      decreases |input| - len
    {
      FourMore(input, ip, p, len - 4);
      len := len + 4;
    }
    len := len - 4;
    while ip + len < |input| && input[ip + len] == input[p + len]
      invariant ip + len <= |input| && Agrees(input, ip, ip - p, len)
    {
      len := len + 1;
    }
    CommonIs(input, ip, p, len);
  }

  lemma FourMore(input: seq<byte>, ip: nat, p: nat, len: nat)
    requires p < ip && Agrees(input, ip, ip - p, len) && ip + len + 4 <= |input|
    requires input[p + len..p + len + 4] == input[ip + len..ip + len + 4]
    ensures Agrees(input, ip, ip - p, len + 4)
  {
    forall i | ip <= i < ip + len + 4 ensures input[i] == input[i - (ip - p)] {
      if i >= ip + len {
        var j := i - ip - len;
        assert input[p + len..p + len + 4][j] == input[ip + len..ip + len + 4][j];
      }
    }
  }

  /** A length, downward from oe. */
  method PushLength(out: array<byte>, oe: nat, r: nat) returns (oe': nat)
    requires |LengthBytes(r)| <= oe <= out.Length
    modifies out
    ensures oe' + |LengthBytes(r)| == oe && out[oe'..oe] == LengthBytes(r)
    ensures forall j :: 0 <= j < oe' || oe <= j < out.Length ==> out[j] == old(out[j])
  {
    oe' := oe;
    var i := r;
    while i >= 254
      invariant |LengthBytes(i)| <= oe' <= oe && LengthBytes(r) == LengthBytes(i) + out[oe'..oe]
      invariant forall j :: 0 <= j < oe' || oe <= j < out.Length ==> out[j] == old(out[j])
    {
      ghost var was := out[oe'..oe];
      oe' := oe' - 1;
      out[oe'] := 0;
      assert out[oe'..oe] == [0] + was;
      i := i - 254;
    }
    ghost var was := out[oe'..oe];
    oe' := oe' - 1;
    out[oe'] := i + 1;
    assert out[oe'..oe] == [i + 1] + was;
  }

  /** The places inside a match. */
  method TouchMatch(input: seq<byte>, ip: nat, len: nat, table: array<nat>, step: nat)
    requires 12 <= ip && ip + len <= |input| && table.Length == H_SIZE && step > 0
    modifies table
    ensures table[..] == Touch(old(table[..]), input[..ip + len], ip + step, step, ip + len)
  {
    hide Hash;
    ghost var data := input[..ip + len];
    var k: int := len - step;
    while k > 0
      invariant k <= len - step
      invariant Touch(table[..], data, ip + len - k, step, ip + len) == Touch(old(table[..]), data, ip + step, step, ip + len)
    {
      HashPrefix(input, data, ip + len - k);
      table[Hash(input, ip + len - k)] := ip + len - k;
      k := k - step;
    }
  }

  lemma PlainStep(st: State, c: byte, minLen: nat)
    requires Sound(st) && (c != FLAG || !Predicted(st))
    ensures Step(st, c, [], minLen) == Next(Put(st, c), [])
  {
  }

  lemma EscapedStep(st: State, minLen: nat)
    requires Sound(st) && Predicted(st)
    ensures Step(st, FLAG, [255], minLen) == Next(Put(st, FLAG), [])
  {
    assert [255][..0] == [];
  }

  lemma MatchStep(st: State, minLen: nat, len: nat)
    requires Sound(st) && Predicted(st) && len >= minLen
    ensures Step(st, FLAG, LengthBytes(len - minLen), minLen) == Next(Hit(st, len), [])
  {
    hide Sound, Predicted, Hit, TakeLength, LengthBytes;
    LengthBack(len - minLen);
  }

  /** The two streams in one buffer; once they have met, they are no longer all there. */
  ghost predicate Written(out: seq<byte>, op: nat, oe: nat, size: nat, head: seq<byte>, minLen: nat, st: State, s: Streams) {
    && Sound(st) && Encodes(head, minLen, s, st) && 12 <= op <= size && 12 <= oe <= size <= |out|
    && op == 12 + |s.front| && oe + |s.back| == size
    && (op <= oe ==> out[12..op] == s.front && out[oe..size] == s.back)
  }

  ghost predicate Encodes(head: seq<byte>, minLen: nat, s: Streams, st: State) {
    && minLen >= 1 && |head| == 12 && Sound(Initial(head))
    && Run(Initial(head), s.front, s.back, minLen) == Done(st, [])
  }

  /** What a step writes: one byte at op, and what lies below oe down to oe'. */
  ghost predicate Wrote(was: seq<byte>, now: seq<byte>, op: nat, oe: nat, oe': nat, c: byte, b: seq<byte>) {
    && |now| == |was| && op < |was| && oe' <= oe <= |was| && oe' + |b| == oe
    && (op < oe' ==> now[..op] == was[..op] && now[op] == c && now[oe..] == was[oe..] && now[oe'..oe] == b)
    && (op >= 12 && oe' >= 12 ==> now[..12] == was[..12])
  }

  lemma WriteOne(out: seq<byte>, op: nat, oe: nat, size: nat, head: seq<byte>, minLen: nat, st: State, s: Streams,
                 out': seq<byte>, oe': nat, c: byte, b: seq<byte>, st': State)
    requires Written(out, op, oe, size, head, minLen, st, s) && op < size && 12 <= oe' <= oe
    requires Sound(st') && Step(st, c, b, minLen) == Next(st', []) && Wrote(out, out', op, oe, oe', c, b)
    ensures Written(out', op + 1, oe', size, head, minLen, st', Streams(s.front + [c], b + s.back)) && out'[..12] == out[..12]
  {
    hide Sound, Step, Run, Initial;
    RunOne(Initial(head), s.front, s.back, c, b, minLen, st');
    if op < oe' {
      assert out'[12..op + 1] == out[12..op] + [c];
      assert out'[oe'..size] == out'[oe'..oe] + out[oe..size] by {
        assert out'[oe..size] == out'[oe..][..size - oe];
        assert out[oe..size] == out[oe..][..size - oe];
      }
    }
  }

  lemma StartWritten(out: seq<byte>, head: seq<byte>, size: nat, minLen: nat)
    requires |head| == 12 && 12 <= size <= |out| && minLen >= 1
    ensures Written(out, 12, size, size, head, minLen, Initial(head), Streams([], []))
  {
    InitialSound(head);
    assert out[12..12] == [] && out[size..size] == [];
  }

  lemma WrittenBounds(out: seq<byte>, op: nat, oe: nat, size: nat, head: seq<byte>, minLen: nat, st: State, s: Streams)
    requires Written(out, op, oe, size, head, minLen, st, s)
    ensures Sound(st) && 12 <= op <= size && 12 <= oe <= size <= |out| && minLen >= 1
    ensures op == 12 + |s.front| && oe + |s.back| == size && Encodes(head, minLen, s, st)
  {
  }

  /** What a packed buffer stands for: its first twelve bytes, then the stream that ends at f,
      then the lengths. */
  ghost predicate Stands(packed: seq<byte>, f: nat, data: seq<byte>, minLen: nat) {
    && minLen >= 1 && 12 <= f <= |packed| && Sound(Initial(packed[..12]))
    && var r := Run(Initial(packed[..12]), packed[12..f], packed[f..], minLen);
    r.Done? && r.left == [] && r.st.data == data
  }

  lemma Finished(out: seq<byte>, op: nat, oe: nat, size: nat, minLen: nat, st: State, s: Streams, packed: seq<byte>)
    requires |out| >= 12 && Written(out, op, oe, size, out[..12], minLen, st, s) && op <= oe
    requires packed == out[..op] + out[oe..size]
    ensures Stands(packed, op, st.data, minLen)
  {
    hide Sound, Run, Initial;
    assert packed[..12] == out[..12] && packed[12..op] == out[12..op] && packed[op..] == out[oe..size];
  }

  /** Where enough agrees, so do the last four bytes of it. */
  lemma LastFour(input: seq<byte>, ip: nat, p: nat, minLen: nat)
    requires 4 <= p < ip <= |input| && input[p - 4..p] == input[ip - 4..ip] && minLen <= Common(input, ip, p)
    ensures ip + minLen <= |input| && input[p + minLen - 4..p + minLen] == input[ip + minLen - 4..ip + minLen]
  {
    hide Common;
    var a, b := p + minLen - 4, ip + minLen - 4;
    var x, y := input[a..a + 4], input[b..b + 4];
    forall i | 0 <= i < 4 ensures x[i] == y[i] {
      if i + minLen < 4 {
        assert input[p - 4..p][i + minLen] == input[ip - 4..ip][i + minLen];
      } else {
        assert input[b + i] == input[b + i - (ip - p)];
      }
    }
  }

  lemma Contents(out: seq<byte>, op: nat, oe: nat, size: nat, head: seq<byte>, minLen: nat, st: State, s: Streams)
    requires |out| >= 12 && out[..12] == head && Written(out, op, oe, size, head, minLen, st, s) && op <= oe
    ensures out[..op] + out[oe..size] == head + s.front + s.back
  {
    hide Sound, Encodes;
    assert out[..op] == out[..12] + out[12..op];
  }

  /** The match at p if the bytes before agree, from the comparison of its last four bytes on. */
  method FindMatch(input: seq<byte>, ip: nat, p: nat, minLen: nat) returns (predicted: bool, len: nat)
    requires 4 <= p < ip <= |input| && minLen >= 1
    ensures predicted == (input[p - 4..p] == input[ip - 4..ip])
    ensures len == if predicted && Common(input, ip, p) >= minLen then Common(input, ip, p) else 0
  {
    hide Common;
    predicted, len := input[p - 4..p] == input[ip - 4..ip], 0;
    if predicted {
      if Common(input, ip, p) >= minLen {
        LastFour(input, ip, p, minLen);
      }
      if ip + minLen <= |input| && input[p + minLen - 4..p + minLen] == input[ip + minLen - 4..ip + minLen] {
        len := MatchLength(input, ip, p);
        if len < minLen {
          len := 0;
        }
      }
    }
  }

  lemma HitOfMatch(st: State, input: seq<byte>, ip: nat, len: nat)
    requires Sound(st) && ip <= |input| && st.data == input[..ip] && len >= 1
    requires Agrees(input, ip, ip - Candidate(st), len)
    ensures Sound(Hit(st, len)) && Hit(st, len).data == input[..ip + len]
    ensures var n1 := Slower(st.n1, ip - Candidate(st));
      && |Tick(st).table| == H_SIZE && Slot(st) < H_SIZE
      && Hit(st, len) == State(input[..ip + len],
            Touch(Tick(st).table[Slot(st) := ip], input[..ip + len], ip + 2 * n1 + 1, 2 * n1 + 1, ip + len), Tick(st).n, n1)
  {
    hide Sound, Hit, CopyBytes, Touch, Tick, Slot, Candidate;
    SoundParts(st);
    HitSound(st, len);
    HitIs(st, len);
    CopyOfMatch(input, ip, ip - Candidate(st), len);
  }

  method EmitByte(out: array<byte>, op: nat, oe: nat, c: byte)
    requires op < out.Length && oe <= out.Length
    modifies out
    ensures Wrote(old(out[..]), out[..], op, oe, oe, c, [])
  {
    out[op] := c;
  }

  method EmitEscaped(out: array<byte>, op: nat, oe: nat, c: byte) returns (oe': nat)
    requires op < out.Length && 1 <= oe <= out.Length
    modifies out
    ensures oe' == oe - 1 && Wrote(old(out[..]), out[..], op, oe, oe', c, [255])
  {
    out[op] := c;
    oe' := oe - 1;
    out[oe'] := 255;
  }

  method EmitMatch(out: array<byte>, op: nat, oe: nat, r: nat) returns (oe': nat)
    requires op < out.Length && |LengthBytes(r)| <= oe <= out.Length
    modifies out
    ensures oe' + |LengthBytes(r)| == oe && Wrote(old(out[..]), out[..], op, oe, oe', FLAG, LengthBytes(r))
  {
    hide LengthBytes;
    out[op] := FLAG;
    oe' := PushLength(out, oe, r);
  }

  /** The input up to ip has been encoded, up to op and down to oe. */
  ghost predicate Going(out: seq<byte>, op: nat, oe: nat, input: seq<byte>, ip: nat, minLen: nat, st: State, s: Streams) {
    && 12 <= |input| <= |out| && out[..12] == input[..12] && op <= ip <= |input| && |input| - oe <= ip - 12
    && st.data == input[..ip] && OnTheWay(s, st, input, minLen)
    && Written(out, op, oe, |input|, input[..12], minLen, st, s)
  }

  lemma GoingStarts(out: seq<byte>, input: seq<byte>, minLen: nat)
    requires 12 <= |input| <= |out| && out[..12] == input[..12] && minLen >= 1
    ensures Going(out, 12, |input|, input, 12, minLen, Initial(input[..12]), Streams([], []))
  {
    hide OnTheWay, Written;
    StartWritten(out, input[..12], |input|, minLen);
    OnTheWayStarts(input, minLen);
  }

  lemma GoingParts(out: seq<byte>, op: nat, oe: nat, input: seq<byte>, ip: nat, minLen: nat, st: State, s: Streams)
    requires Going(out, op, oe, input, ip, minLen, st, s)
    ensures 12 <= op <= ip <= |input| <= |out| && 12 <= oe && |input| - oe <= ip - 12 && minLen >= 1
    ensures Sound(st) && st.data == input[..ip] && |st.data| == ip
  {
    hide OnTheWay, Sound;
    WrittenBounds(out, op, oe, |input|, input[..12], minLen, st, s);
  }

  /** The next literal, escaped at the back if it could be taken for a flag. */
  method EncodeLiteral(input: seq<byte>, ip: nat, out: array<byte>, op: nat, oe: nat,
                       minLen: nat, ghost st: State, ghost s: Streams, predicted: bool)
    returns (oe': nat, ghost s': Streams)
    requires Going(out[..], op, oe, input, ip, minLen, st, s) && ip < |input|
    requires Sound(st) && |st.data| <= |input| && predicted == Predicted(st) && Match(st, input, minLen) == 0
    modifies out
    ensures Going(out[..], op + 1, oe', input, ip + 1, minLen, Put(st, input[ip]), s')
    ensures Put(st, input[ip]).table == Tick(st).table && Put(st, input[ip]).n == Tick(st).n && Put(st, input[ip]).n1 == st.n1
  {
    hide Predicted, Sound, Put, Written, Wrote, Step, OnTheWay, Match, Tick;
    ghost var was := out[..];
    WrittenBounds(was, op, oe, |input|, input[..12], minLen, st, s);
    OnTheWayPut(s, st, input, minLen);
    PutSound(st, input[ip]);
    PutIs(st, input[ip]);
    assert input[..ip] + [input[ip]] == input[..ip + 1];
    if predicted && input[ip] == FLAG {
      oe' := EmitEscaped(out, op, oe, input[ip]);
      EscapedStep(st, minLen);
      s' := Streams(s.front + [input[ip]], [255] + s.back);
      WriteOne(was, op, oe, |input|, input[..12], minLen, st, s, out[..], oe', input[ip], [255], Put(st, input[ip]));
    } else {
      oe' := oe;
      EmitByte(out, op, oe, input[ip]);
      PlainStep(st, input[ip], minLen);
      s' := Streams(s.front + [input[ip]], [] + s.back);
      WriteOne(was, op, oe, |input|, input[..12], minLen, st, s, out[..], oe', input[ip], [], Put(st, input[ip]));
    }
  }

  /** A match: its flag, its length, and what the table learns from it. */
  method EncodeMatch(input: seq<byte>, ip: nat, out: array<byte>, op: nat, oe: nat,
                     minLen: nat, ghost st: State, ghost s: Streams, table: array<nat>, n1: nat, k: nat, p: nat, len: nat)
    returns (oe': nat, n1': nat, ghost s': Streams)
    requires Going(out[..], op, oe, input, ip, minLen, st, s) && ip < |input|
    requires Sound(st) && |st.data| <= |input| && Predicted(st) && Match(st, input, minLen) == len > 0
    requires p == Candidate(st) && Agrees(input, ip, ip - p, len)
    requires table[..] == Tick(st).table && n1 == st.n1 && k == Slot(st)
    modifies out, table
    ensures Going(out[..], op + 1, oe', input, ip + len, minLen, Hit(st, len), s')
    ensures table[..] == Hit(st, len).table && Hit(st, len).n == Tick(st).n && n1' == Hit(st, len).n1
  {
    hide Predicted, Sound, Hit, Written, Wrote, Step, LengthBytes, Candidate, Slot, Tick, Touch, CopyBytes, OnTheWay, Match;
    ghost var was := out[..];
    WrittenBounds(was, op, oe, |input|, input[..12], minLen, st, s);
    OnTheWayHit(s, st, input, minLen);
    HitOfMatch(st, input, ip, len);
    MatchStep(st, minLen, len);
    table[k] := ip;
    n1' := Slower(n1, ip - p);
    oe' := EmitMatch(out, op, oe, len - minLen);
    s' := Streams(s.front + [FLAG], LengthBytes(len - minLen) + s.back);
    WriteOne(was, op, oe, |input|, input[..12], minLen, st, s, out[..], oe', FLAG, LengthBytes(len - minLen), Hit(st, len));
    TouchMatch(input, ip, len, table, 2 * n1' + 1);
  }

  method CopyHead(input: seq<byte>, out: array<byte>)
    requires 12 <= |input| && 12 <= out.Length
    modifies out
    ensures out[..12] == input[..12]
  {
    for i := 0 to 12
      invariant out[..i] == input[..i]
    {
      out[i] := input[i];
    }
  }

  /** memmove to lower addresses. */
  method MoveDown(out: array<byte>, to: nat, from: nat, end: nat)
    requires to <= from <= end <= out.Length
    modifies out
    ensures out[..to + (end - from)] == old(out[..to]) + old(out[from..end])
  {
    var i := 0;
    while i < end - from
      invariant i <= end - from && out[..to + i] == old(out[..to]) + old(out[from..from + i])
      invariant out[from + i..end] == old(out[from + i..end])
    {
      assert out[from + i] == out[from + i..end][0] == old(out[from + i..end])[0];
      ghost var rest := out[from + i..end];
      out[to + i] := out[from + i];
      assert out[from + i + 1..end] == rest[1..];
      i := i + 1;
    }
    assert from + i == end;
  }

  /** The lengths are moved up against the other stream. */
  method Close(input: seq<byte>, out: array<byte>, op: nat, oe: nat, minLen: nat, ghost st: State, ghost s: Streams) returns (r: int)
    requires Going(out[..], op, oe, input, |input|, minLen, st, s) && 12 < op
    modifies out
    ensures s == Packed(input, minLen) && r == Gain(s, |input|)
    ensures r == -1 || (12 < r && r + 256 + |input| / 128 <= |input|)
    ensures r >= 0 ==> Stands(out[..r], 12 + |s.front|, input, minLen)
    ensures r >= 0 ==> out[..r] == input[..12] + s.front + s.back
  {
    hide Written, Stands, Sound, Encodes, OnTheWay, Packed;
    var size := |input|;
    OnTheWayEnds(s, st, input, minLen);
    assert input[..size] == input;
    ghost var was := out[..];
    WrittenBounds(was, op, oe, size, input[..12], minLen, st, s);
    if op + 256 + size / 128 > oe {
      return -1;
    }
    MoveDown(out, op, oe, size);
    r := size - (oe - op);
    Finished(was, op, oe, size, minLen, st, s, out[..r]);
    Contents(was, op, oe, size, input[..12], minLen, st, s);
  }

  /** The choice at this place, as the state sees it. */
  lemma MatchIs(st: State, input: seq<byte>, ip: nat, minLen: nat)
    requires Sound(st) && ip <= |input| && st.data == input[..ip] && minLen >= 1
    ensures |st.data| == ip >= 12 && |st.table| == H_SIZE && st.n >= 1 && H_SIZE > 0
    ensures Slot(st) == Hash(input, ip) && 5 <= Candidate(st) < ip && Candidate(st) == st.table[Slot(st)]
    ensures Predicted(st) <==> input[Candidate(st) - 4..Candidate(st)] == input[ip - 4..ip]
    ensures var len := if Predicted(st) && Common(input, ip, Candidate(st)) >= minLen then Common(input, ip, Candidate(st)) else 0;
      && Match(st, input, minLen) == len && ip + len <= |input| && Agrees(input, ip, ip - Candidate(st), len)
  {
    hide Common, Sound, Predicted, Hash;
    SoundParts(st);
    PredictedIs(st, input, ip);
  }

  /** LZPEncode. The input, packed, or -1, exactly when that saves too little. */
  method Encode(input: seq<byte>, out: array<byte>, minLen: nat) returns (r: int)
    requires 12 < |input| <= out.Length && minLen >= 1
    modifies out
    ensures r == Gain(Packed(input, minLen), |input|)
    ensures r == -1 || (12 < r && r + 256 + |input| / 128 <= |input|)
    ensures r >= 0 ==> out[..r] == input[..12] + Packed(input, minLen).front + Packed(input, minLen).back
    ensures r >= 0 ==> Stands(out[..r], 12 + |Packed(input, minLen).front|, input, minLen)
  {
    hide *;
    var size := |input|;
    var table := new nat[H_SIZE](_ => 5);
    CopyHead(input, out);
    var ip, op, oe: nat, n, n1 := 12, 12, size, 1, 1;
    ghost var st, s := Initial(input[..12]), Streams([], []);
    InitialSound(input[..12]);
    GoingStarts(out[..], input, minLen);
    assert table[..] == st.table;
    var k := Hash(input, 12);
    while true
      invariant Going(out[..], op, oe, input, ip, minLen, st, s) && 12 <= ip < size
      invariant table[..] == st.table && n == st.n && n1 == st.n1 && k == Hash(input, ip)
      decreases size - ip
    {
      GoingParts(out[..], op, oe, input, ip, minLen, st, s);
      MatchIs(st, input, ip, minLen);
      var p := table[k];
      n := TickTable(st, table, k, ip, n, n1);
      var predicted, len := FindMatch(input, ip, p, minLen);
      if len > 0 {
        oe, n1, s := EncodeMatch(input, ip, out, op, oe, minLen, st, s, table, n1, k, p, len);
        st := Hit(st, len);
        ip := ip + len;
      } else {
        oe, s := EncodeLiteral(input, ip, out, op, oe, minLen, st, s, predicted);
        st := Put(st, input[ip]);
        ip := ip + 1;
      }
      op := op + 1;
      GoingParts(out[..], op, oe, input, ip, minLen, st, s);
      k := Hash(input, ip);
      if ip >= size {
        break;
      }
    }
    r := Close(input, out, op, oe, minLen, st, s);
  }

  // ---- The decoder

  lemma {:induction false} TakeUnfold(packed: seq<byte>, f: nat, e: nat)
    requires f < e <= |packed| && TakeLength(packed[f..e]).Length?
    ensures packed[e - 1] == 0 ==>
      && f < e - 1 && TakeLength(packed[f..e - 1]).Length?
      && TakeLength(packed[f..e]) == Length(TakeLength(packed[f..e - 1]).r + 254, TakeLength(packed[f..e - 1]).left)
    ensures packed[e - 1] != 0 ==> TakeLength(packed[f..e]) == Length(packed[e - 1] as nat - 1, packed[f..e - 1])
  {
    assert packed[f..e][..e - f - 1] == packed[f..e - 1];
    assert packed[f..e][e - f - 1] == packed[e - 1];
  }

  /** for (i=MinLen-1; …); the position is that of the last byte read. */
  method ReadLength(packed: seq<byte>, ghost f: nat, e: nat) returns (r: nat, e': nat)
    requires f < e <= |packed| && TakeLength(packed[f..e]).Length?
    ensures f <= e' < e && TakeLength(packed[f..e]) == Length(r, packed[f..e'])
  {
    hide TakeLength;
    r, e' := 0, e;
    TakeUnfold(packed, f, e);
    while packed[e' - 1] == 0
      invariant f < e' <= e && TakeLength(packed[f..e']).Length?
      invariant TakeLength(packed[f..e]) == Length(r + TakeLength(packed[f..e']).r, TakeLength(packed[f..e']).left)
      decreases e'
    {
      TakeUnfold(packed, f, e');
      r := r + 254;
      e' := e' - 1;
    }
    TakeUnfold(packed, f, e');
    r := r + (packed[e' - 1] as nat - 1);
    e' := e' - 1;
  }

  /** Copying a match and, on the way, entering every step-th place. */
  method CopyAndTouch(out: array<byte>, op: nat, p: nat, len: nat, table: array<nat>, step: nat)
    requires 12 <= op && p < op && op + len <= out.Length && table.Length == H_SIZE && step >= 1 && len >= 1
    modifies out, table
    ensures out[..op + len] == CopyBytes(old(out[..op]), op - p, len)
    ensures table[..] == Touch(old(table[..]), CopyBytes(old(out[..op]), op - p, len), op + step, step, op + len)
  {
    hide Hash, CopyBytes, Touch;
    ghost var full := CopyBytes(out[..op], op - p, len);
    ghost var learnt := Touch(table[..], full, op + step, step, op + len);
    var i, k := 0, step + 1;
    while i < len
      invariant i <= len && k >= 1 && CopyBytes(out[..op + i], op - p, len - i) == full
      invariant Touch(table[..], full, op + i + (k - 1), step, op + len) == learnt
    {
      ghost var was := out[..op + i];
      CopyUnfold(was, op - p, len - i);
      k := k - 1;
      if k == 0 {
        k := step;
        TouchUnfold(table[..], full, op + i, step, op + len);
        assert full[..op + i] == was;
        HashPrefix(was, full, op + i);
        table[Hash(out[..op + i], op + i)] := op + i;
      }
      out[op + i] := out[p + i];
      assert out[..op + i + 1] == was + [was[p + i]];
      i := i + 1;
    }
    CopyUnfold(out[..op + i], op - p, 0);
    TouchEnds(table[..], full, op + i + (k - 1), step, op + len);
  }

  lemma TouchUnfold(table: seq<nat>, data: seq<byte>, at: nat, step: nat, end: nat)
    requires |table| == H_SIZE && 5 <= at < end <= |data| && step > 0
    ensures Touch(table, data, at, step, end) == Touch(table[Hash(data, at) := at], data, at + step, step, end)
  {
    hide Hash;
  }

  lemma TouchEnds(table: seq<nat>, data: seq<byte>, at: nat, step: nat, end: nat)
    requires |table| == H_SIZE && at >= 5 && end <= |data| && step > 0 && end <= at
    ensures Touch(table, data, at, step, end) == table
  {
  }

  /** One step of a run that ends well. */
  lemma RunUnfold(st: State, packed: seq<byte>, fp: nat, f: nat, e: nat, minLen: nat, final: State)
    requires Sound(st) && minLen >= 1 && fp < f <= e <= |packed|
    requires Run(st, packed[fp..f], packed[f..e], minLen) == Done(final, [])
    ensures var r := Step(st, packed[fp], packed[f..e], minLen);
      && r.Next? && Sound(r.st) && Run(r.st, packed[fp + 1..f], r.left, minLen) == Done(final, [])
      && |r.st.data| <= |final.data|
  {
    hide Sound, Step;
    assert packed[fp..f][0] == packed[fp] && packed[fp..f][1..] == packed[fp + 1..f];
    var r := Step(st, packed[fp], packed[f..e], minLen);
    StepSound(st, packed[fp], packed[f..e], minLen);
    RunSound(r.st, packed[fp + 1..f], r.left, minLen);
  }

  /** At the end of one stream, the other has been used up. */
  lemma RunEnds(st: State, packed: seq<byte>, f: nat, e: nat, minLen: nat, final: State)
    requires Sound(st) && minLen >= 1 && f <= e <= |packed|
    requires Run(st, packed[f..f], packed[f..e], minLen) == Done(final, [])
    ensures e == f && st == final
  {
    assert |packed[f..e]| == e - f;
  }

  /** The three things a byte from the front can be. */
  lemma StepCases(st: State, packed: seq<byte>, f: nat, e: nat, c: byte, minLen: nat)
    requires Sound(st) && f <= e <= |packed| && Step(st, c, packed[f..e], minLen).Next?
    ensures var r := Step(st, c, packed[f..e], minLen);
      && (c != FLAG || !Predicted(st) ==> r == Next(Put(st, c), packed[f..e]))
      && (c == FLAG && Predicted(st) ==> f < e)
      && (c == FLAG && Predicted(st) && packed[e - 1] == 255 ==> r == Next(Put(st, c), packed[f..e - 1]))
      && (c == FLAG && Predicted(st) && packed[e - 1] != 255 ==>
            && TakeLength(packed[f..e]).Length?
            && r == Next(Hit(st, minLen + TakeLength(packed[f..e]).r), TakeLength(packed[f..e]).left))
  {
    hide Sound, Predicted, Put, Hit;
    if f < e {
      assert packed[f..e][..e - f - 1] == packed[f..e - 1] && packed[f..e][e - f - 1] == packed[e - 1];
    }
  }

  /** What the next byte makes of a run that ends well. */
  lemma OneMore(st: State, packed: seq<byte>, fp: nat, f: nat, e: nat, minLen: nat, final: State)
    requires Sound(st) && minLen >= 1 && fp < f <= e <= |packed|
    requires Run(st, packed[fp..f], packed[f..e], minLen) == Done(final, [])
    ensures var c, l := packed[fp], TakeLength(packed[f..e]);
      && (c == FLAG && Predicted(st) ==> f < e)
      && (c != FLAG || !Predicted(st) || packed[e - 1] == 255 ==>
            var e' := if c == FLAG && Predicted(st) then e - 1 else e;
            && Sound(Put(st, c)) && Run(Put(st, c), packed[fp + 1..f], packed[f..e'], minLen) == Done(final, [])
            && |st.data| < |final.data|)
      && (c == FLAG && Predicted(st) && packed[e - 1] != 255 ==>
            && l.Length? && Sound(Hit(st, minLen + l.r)) && |Hit(st, minLen + l.r).data| <= |final.data|
            && Run(Hit(st, minLen + l.r), packed[fp + 1..f], l.left, minLen) == Done(final, []))
  {
    hide Sound, Predicted, Run, Step, TakeLength, Hit, Put;
    RunUnfold(st, packed, fp, f, e, minLen, final);
    StepCases(st, packed, f, e, packed[fp], minLen);
    PutLonger(st, packed[fp]);
  }

  lemma PredictedHere(st: State, out: seq<byte>, op: nat)
    requires Sound(st) && op <= |out| && st.data == out[..op]
    ensures |st.data| == op >= 12 && |st.table| == H_SIZE && st.n >= 1
    ensures 5 <= Candidate(st) < op && Slot(st) == Hash(out, op) && Candidate(st) == st.table[Slot(st)] && H_SIZE > 0
    ensures Predicted(st) <==> out[Candidate(st) - 4..Candidate(st)] == out[op - 4..op]
  {
    hide Hash;
    PredictedIs(st, out, op);
  }

  /** A match: its length, its bytes, and what the table learns from it. */
  method DecodeMatch(packed: seq<byte>, ghost f: nat, e: nat, out: array<byte>, op: nat, minLen: nat,
                     ghost st: State, table: array<nat>, n1: nat, k: nat, p: nat)
    returns (op': nat, e': nat, n1': nat)
    requires Sound(st) && f < e <= |packed| && TakeLength(packed[f..e]).Length? && minLen >= 1
    requires op <= out.Length && st.data == out[..op] && p == Candidate(st) && n1 == st.n1 && k == Slot(st)
    requires table[..] == Tick(st).table && |Hit(st, minLen + TakeLength(packed[f..e]).r).data| <= out.Length
    modifies out, table
    ensures f <= e' < e && packed[f..e'] == TakeLength(packed[f..e]).left
    ensures var t := Hit(st, minLen + TakeLength(packed[f..e]).r);
      op' <= out.Length && out[..op'] == t.data && table[..] == t.table && n1' == t.n1
  {
    hide Sound, Hit, Candidate, Slot, Tick, Touch, CopyBytes, TakeLength;
    var r;
    r, e' := ReadLength(packed, f, e);
    var len := minLen + r;
    SoundParts(st);
    HitIs(st, len);
    HitSound(st, len);
    table[k] := op;
    n1' := Slower(n1, op - p);
    CopyAndTouch(out, op, p, len, table, 2 * n1' + 1);
    op' := op + len;
  }

  method PutByte(out: array<byte>, op: nat, c: byte)
    requires op < out.Length
    modifies out
    ensures out[..op + 1] == old(out[..op]) + [c]
  {
    out[op] := c;
  }

  /** LZPDecode on a packed buffer whose first stream ends at f. */
  method Decode(packed: seq<byte>, out: array<byte>, minLen: nat, ghost f: nat, ghost data: seq<byte>) returns (olen: nat)
    requires 12 < |packed| && Stands(packed, f, data, minLen) && |data| <= out.Length
    modifies out
    ensures olen == |data| && out[..olen] == data
  {
    hide *;
    ghost var final := StandsParts(packed, f, data, minLen);
    var table := new nat[H_SIZE](_ => 5);
    CopyHead(packed, out);
    var fp, op, e, n, n1 := 12, 12, |packed|, 1, 1;
    ghost var st := Initial(packed[..12]);
    InitialSound(packed[..12]);
    assert table[..] == st.table && packed[f..e] == packed[f..];
    if fp == f {
      RunEnds(st, packed, f, e, minLen, final);
    }
    var k := Hash(out[..], 12);
    while true
      invariant 12 <= op <= out.Length && fp < f <= e <= |packed| && Sound(st)
      invariant Run(st, packed[fp..f], packed[f..e], minLen) == Done(final, [])
      invariant table[..] == st.table && st.data == out[..op] && n == st.n && n1 == st.n1 && k == Hash(out[..], op)
      decreases f - fp
    {
      PredictedHere(st, out[..], op);
      OneMore(st, packed, fp, f, e, minLen, final);
      var c := packed[fp];
      var p := table[k];
      n := TickTable(st, table, k, op, n, n1);
      fp := fp + 1;
      if c != FLAG || out[op - 4..op] != out[p - 4..p] || packed[e - 1] == 255 {
        if c == FLAG && out[op - 4..op] == out[p - 4..p] {
          e := e - 1;
        }
        PutByte(out, op, c);
        op := op + 1;
        PutIs(st, c);
        st := Put(st, c);
      } else {
        HitIs(st, minLen + TakeLength(packed[f..e]).r);
        ghost var t := Hit(st, minLen + TakeLength(packed[f..e]).r);
        op, e, n1 := DecodeMatch(packed, f, e, out, op, minLen, st, table, n1, k, p);
        st := t;
      }
      SoundParts(st);
      if fp == f {
        RunEnds(st, packed, f, e, minLen, final);
      }
      k := Hash(out[..], op);
      if fp >= e {
        break;
      }
    }
    olen := op;
  }

  lemma StandsParts(packed: seq<byte>, f: nat, data: seq<byte>, minLen: nat) returns (final: State)
    requires Stands(packed, f, data, minLen)
    ensures minLen >= 1 && 12 <= f <= |packed| && Sound(Initial(packed[..12])) && final.data == data && |data| >= 12
    ensures Run(Initial(packed[..12]), packed[12..f], packed[f..], minLen) == Done(final, [])
  {
    final := Run(Initial(packed[..12]), packed[12..f], packed[f..], minLen).st;
    RunSound(Initial(packed[..12]), packed[12..f], packed[f..], minLen);
  }

  /** What was packed unpacks to the input, and it is packed exactly if that saves enough. */
  method ThereAndBack(input: seq<byte>, packed: array<byte>, plain: array<byte>, minLen: nat) returns (r: int)
    requires 12 < |input| <= packed.Length && |input| <= plain.Length && packed != plain && minLen >= 1
    modifies packed, plain
    ensures r == -1 <==> Gain(Packed(input, minLen), |input|) == -1
    ensures r != -1 ==> r == |input| && plain[..|input|] == input
  {
    hide Stands, Packed;
    r := Encode(input, packed, minLen);
    if r >= 0 {
      r := Decode(packed[..r], plain, minLen, 12 + |Packed(input, minLen).front|, input);
    }
  }
}

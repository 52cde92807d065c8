/** What the hash tables of LZFX and FastLZ hold: the place last entered. */
module TablesLearn {
  import opened Bits
  import opened Places
  import opened References
  import opened Tokens
  import F = FastLz
  import X = Lzfx

  // ---- LZFX

  /** Where the compressor stands, and its table. */
  datatype At = At(ip: nat, table: seq<int>)

  /** From a, the token t is sent, and b comes next. */
  ghost predicate SendsX(input: seq<byte>, a: At, t: Token, b: At) {
    && a.ip + 2 < |input| && b.ip <= |input| && |a.table| == |b.table| == 65536
    && b == NextX(input, a)
    && X.Sent(input, a.ip, a.table) == [t] + X.Sent(input, b.ip, b.table)
    && b.ip == a.ip + if t.Copy? then t.len else 1
  }

  function NextX(input: seq<byte>, a: At): At
    requires a.ip + 2 < |input| && |a.table| == X.HSIZE
  {
    var h := X.SlotOf(input, a.ip);
    var ref, entered := a.table[h], a.table[h := a.ip];
    if X.Repeated(input, a.ip, ref) then
      var end := a.ip + X.RefLength(input, a.ip, ref);
      At(end, if end >= 1 && end + 1 < |input| then entered[X.SlotOf(input, end - 1) := end - 1] else entered)
    else At(a.ip + 1, entered)
  }

  /** There is always such a step until the last two bytes. */
  lemma StepX(input: seq<byte>, a: At) returns (t: Token)
    requires a.ip + 2 < |input| && |a.table| == 65536
    ensures SendsX(input, a, t, NextX(input, a))
  {
    hide X.Sent, X.SlotOf, X.Repeated, X.RefLength;
    if X.Repeated(input, a.ip, a.table[X.SlotOf(input, a.ip)]) {
      X.SentCopy(input, a.ip, a.table);
      var ref := a.table[X.SlotOf(input, a.ip)];
      t := Copy(a.ip - ref, X.RefLength(input, a.ip, ref));
    } else {
      X.SentLiteral(input, a.ip, a.table);
      t := Literal(input[a.ip]);
    }
  }

  /** The compressor's way from the start, token by token. */
  ghost predicate PathX(input: seq<byte>, ats: seq<At>, ts: seq<Token>) {
    && |ats| == |ts| + 1 && ats[0] == At(0, seq(65536, _ => -1))
    && forall i :: 0 <= i < |ts| ==> SendsX(input, ats[i], ts[i], ats[i + 1])
  }

  /** The places entered: where each token starts, and where each copy has its last byte. */
  function PlacesX(ats: seq<At>, ts: seq<Token>): seq<nat>
    requires |ats| == |ts| + 1
  {
    if ts == [] then [] else
      var n := |ts| - 1;
      PlacesX(ats[..n + 1], ts[..n]) + [ats[n].ip]
        + if ts[n].Copy? && ats[n].ip + ts[n].len > 0 then [ats[n].ip + ts[n].len - 1] else []
  }

  ghost function SlotX(input: seq<byte>): nat -> nat {
    (q: nat) => if q + 2 < |input| then X.SlotOf(input, q) else 0
  }

  lemma NextEnters(input: seq<byte>, a: At, t: Token, b: At, qs: seq<nat>, h: nat)
    requires SendsX(input, a, t, b) && h < 65536 && LastIn(qs, SlotX(input), h, -1, a.table[h])
    ensures LastIn(qs + [a.ip] + (if t.Copy? && a.ip + t.len > 0 then [a.ip + t.len - 1] else []), SlotX(input), h, -1, b.table[h])
  {
    hide X.Sent, X.SlotOf, X.Repeated, X.RefLength, LastIn;
    LastMore(qs, SlotX(input), h, -1, a.table[h], a.ip);
    FirstToken(input, a, t, b);
    if t.Copy? {
      LastMore(qs + [a.ip], SlotX(input), h, -1, a.table[X.SlotOf(input, a.ip) := a.ip][h], b.ip - 1);
    } else {
      assert qs + [a.ip] + [] == qs + [a.ip];
    }
  }

  lemma FirstToken(input: seq<byte>, a: At, t: Token, b: At)
    requires SendsX(input, a, t, b)
    ensures t.Copy? <==> X.Repeated(input, a.ip, a.table[X.SlotOf(input, a.ip)])
    ensures t.Copy? ==> a.ip + 3 <= b.ip && b.ip + 1 < |input|
    ensures t.Copy? ==> b.table == a.table[X.SlotOf(input, a.ip) := a.ip][X.SlotOf(input, b.ip - 1) := b.ip - 1]
    ensures !t.Copy? ==> b.table == a.table[X.SlotOf(input, a.ip) := a.ip]
  {
    hide X.Sent, X.SlotOf, X.RefLength;
    var ref := a.table[X.SlotOf(input, a.ip)];
    if X.Repeated(input, a.ip, ref) {
      X.SentCopy(input, a.ip, a.table);
      var all := X.Sent(input, a.ip, a.table);
      assert all[0] == t && all[0].Copy?;
    } else {
      X.SentLiteral(input, a.ip, a.table);
      var all := X.Sent(input, a.ip, a.table);
      assert all[0] == t && all[0].Literal?;
    }
  }

  /** Every slot holds the last place entered in it: that where a token starts, or where a copy has its last byte. */
  lemma {:induction false} LzfxLearns(input: seq<byte>, ats: seq<At>, ts: seq<Token>, h: nat)
    requires PathX(input, ats, ts) && h < 65536
    ensures |ats[|ts|].table| == 65536
    ensures LastIn(PlacesX(ats, ts), SlotX(input), h, -1, ats[|ts|].table[h])
    decreases |ts|
  {
    hide SendsX, LastIn, SlotX;
    if ts == [] {
      NoneYet(SlotX(input), h, -1);
    } else {
      var n := |ts| - 1;
      var before := ats[..n + 1];
      assert forall i :: 0 <= i <= n ==> before[i] == ats[i];
      assert forall i :: 0 <= i < n ==> ts[..n][i] == ts[i];
      LzfxLearns(input, before, ts[..n], h);
      assert SendsX(input, ats[n], ts[n], ats[n + 1]);
      SendsSizes(input, ats[n], ts[n], ats[n + 1]);
      NextEnters(input, ats[n], ts[n], ats[n + 1], PlacesX(before, ts[..n]), h);
    }
  }

  lemma SendsSizes(input: seq<byte>, a: At, t: Token, b: At)
    requires SendsX(input, a, t, b)
    ensures |a.table| == |b.table| == 65536
  {
  }

  // ---- FastLZ

  function NextF(level: nat, input: seq<byte>, a: At): At
    requires 1 <= a.ip && a.ip + 12 < |input| && |a.table| == F.HASH_SIZE && forall h :: 0 <= h < |a.table| ==> a.table[h] >= 0
  {
    var h := F.SlotAt(input, a.ip);
    var ref, entered := a.table[h], a.table[h := a.ip];
    if F.RunHere(level, input, a.ip) then
      F.RunAgrees(input, a.ip);
      MatchedF(input, a.ip, F.MatchSize(input, a.ip, 1, 3), a.table)
    else if F.Repeated(level, input, a.ip, ref) then
      MatchedF(input, a.ip, F.MatchSize(input, a.ip, a.ip - ref, F.Known(level, a.ip - ref)), entered)
    else At(a.ip + 1, entered)
  }

  function MatchedF(input: seq<byte>, ip: nat, m: nat, table: seq<nat>): At
    requires ip >= 1 && |table| == F.HASH_SIZE
  {
    At(ip + m, if m >= 1 then F.Ended(input, ip + m, table) else table)
  }

  /** From a, the tokens ts are sent, and b comes next. */
  ghost predicate SendsF(level: nat, input: seq<byte>, a: At, ts: seq<Token>, b: At) {
    && 1 <= a.ip && a.ip + 12 < |input| && a.ip < b.ip <= |input| && Good(a.table) && Good(b.table)
    && b == NextF(level, input, a)
    && F.Sent(level, input, a.ip, a.table) == ts + F.Sent(level, input, b.ip, b.table)
  }

  ghost predicate Good(table: seq<int>) {
    |table| == 8192 && forall h :: 0 <= h < |table| ==> table[h] >= 0
  }

  /** There is always such a step until the last twelve bytes. */
  lemma StepF(level: nat, input: seq<byte>, a: At) returns (ts: seq<Token>)
    requires 1 <= a.ip && a.ip + 12 < |input| && Good(a.table)
    ensures SendsF(level, input, a, ts, NextF(level, input, a))
  {
    hide F.Sent, F.SlotAt, F.Repeated, F.MatchSize, F.RunHere, F.Pieces, F.Ended;
    var table: seq<nat> := a.table;
    if F.RunHere(level, input, a.ip) {
      F.SentRun(level, input, a.ip, table);
      ts := F.Pieces(level, 1, F.MatchSize(input, a.ip, 1, 3));
    } else if F.Repeated(level, input, a.ip, table[F.SlotAt(input, a.ip)]) {
      F.SentCopy(level, input, a.ip, table);
      var d := a.ip - table[F.SlotAt(input, a.ip)];
      ts := F.Pieces(level, d, F.MatchSize(input, a.ip, d, F.Known(level, d)));
    } else {
      F.SentLiteral(level, input, a.ip, table);
      ts := [Literal(input[a.ip])];
    }
  }

  ghost predicate PathF(level: nat, input: seq<byte>, ats: seq<At>, sent: seq<seq<Token>>) {
    && |ats| == |sent| + 1 && ats[0] == At(2, seq(8192, _ => 0))
    && forall i :: 0 <= i < |sent| ==> SendsF(level, input, ats[i], sent[i], ats[i + 1])
  }

  /** The places a step enters: the one looked up, which a run does not need, and the last two of a match. */
  ghost function EnteredF(level: nat, input: seq<byte>, a: At, b: At): seq<nat> {
    (if 1 <= a.ip && a.ip + 2 < |input| && level == 2 && input[a.ip - 1] == input[a.ip] == input[a.ip + 1] == input[a.ip + 2] then [] else [a.ip])
      + if b.ip > a.ip + 1 then [b.ip - 2, b.ip - 1] else []
  }

  ghost function PlacesF(level: nat, input: seq<byte>, ats: seq<At>): seq<nat>
  {
    if |ats| <= 1 then [] else
      var n := |ats| - 1;
      PlacesF(level, input, ats[..n]) + EnteredF(level, input, ats[n - 1], ats[n])
  }

  ghost function SlotF(input: seq<byte>): nat -> nat {
    (q: nat) => F.SlotAt(input, q)
  }

  lemma FastEnters(level: nat, input: seq<byte>, a: At, ts: seq<Token>, b: At, qs: seq<nat>, h: nat)
    requires SendsF(level, input, a, ts, b) && h < 8192 && LastIn(qs, SlotF(input), h, 0, a.table[h])
    ensures LastIn(qs + EnteredF(level, input, a, b), SlotF(input), h, 0, b.table[h])
  {
    hide F.Sent, F.SlotAt, F.Repeated, F.MatchSize, F.Pieces, LastIn;
    NextTables(level, input, a, ts, b);
    var first := EnteredF(level, input, a, a);
    var entered := if F.RunHere(level, input, a.ip) then a.table else a.table[F.SlotAt(input, a.ip) := a.ip];
    if F.RunHere(level, input, a.ip) {
      assert qs + first == qs;
    } else {
      LastMore(qs, SlotF(input), h, 0, a.table[h], a.ip);
      assert qs + first == qs + [a.ip];
    }
    if b.ip > a.ip + 1 {
      LastMore(qs + first, SlotF(input), h, 0, entered[h], b.ip - 2);
      LastMore(qs + first + [b.ip - 2], SlotF(input), h, 0, entered[F.SlotAt(input, b.ip - 2) := b.ip - 2][h], b.ip - 1);
      assert qs + first + [b.ip - 2] + [b.ip - 1] == qs + EnteredF(level, input, a, b);
    } else {
      assert qs + first == qs + EnteredF(level, input, a, b);
    }
  }

  lemma NextTables(level: nat, input: seq<byte>, a: At, ts: seq<Token>, b: At)
    requires SendsF(level, input, a, ts, b)
    ensures F.RunHere(level, input, a.ip) <==> level == 2 && input[a.ip - 1] == input[a.ip] == input[a.ip + 1] == input[a.ip + 2]
    ensures F.HASH_SIZE == 8192
    ensures var entered: seq<int> := if F.RunHere(level, input, a.ip) then a.table else a.table[F.SlotAt(input, a.ip) := a.ip];
      b.table == if b.ip > a.ip + 1
                 then entered[F.SlotAt(input, b.ip - 2) := b.ip - 2][F.SlotAt(input, b.ip - 1) := b.ip - 1] else entered
  {
    hide *;
    SendsParts(level, input, a, ts, b);
    NextIs(level, input, a);
    RunIs(level, input, a.ip);
    var ref := a.table[F.SlotAt(input, a.ip)];
    if F.RunHere(level, input, a.ip) {
      AfterMatch(input, a.ip, F.MatchSize(input, a.ip, 1, 3), a.table);
    } else if F.Repeated(level, input, a.ip, ref) {
      AfterMatch(input, a.ip, F.MatchSize(input, a.ip, a.ip - ref, F.Known(level, a.ip - ref)), a.table[F.SlotAt(input, a.ip) := a.ip]);
    }
  }

  lemma SendsParts(level: nat, input: seq<byte>, a: At, ts: seq<Token>, b: At)
    requires SendsF(level, input, a, ts, b)
    ensures 1 <= a.ip && a.ip + 12 < |input| && Good(a.table) && b == NextF(level, input, a)
    ensures F.HASH_SIZE == 8192 && |a.table| == 8192 && F.SlotAt(input, a.ip) < 8192
    ensures forall h :: 0 <= h < 8192 ==> a.table[h] >= 0
  {
    hide F.Sent, F.SlotAt;
  }

  lemma NextIs(level: nat, input: seq<byte>, a: At)
    requires 1 <= a.ip && a.ip + 12 < |input| && Good(a.table)
    ensures F.HASH_SIZE == 8192
    ensures var h := F.SlotAt(input, a.ip); var ref := a.table[h]; var b := NextF(level, input, a);
      && (F.RunHere(level, input, a.ip) ==>
            F.MatchSize(input, a.ip, 1, 3) >= 3 && b == MatchedF(input, a.ip, F.MatchSize(input, a.ip, 1, 3), a.table))
      && (!F.RunHere(level, input, a.ip) && F.Repeated(level, input, a.ip, ref) ==>
            && 1 <= a.ip - ref <= a.ip && F.Known(level, a.ip - ref) <= 5
            && var m := F.MatchSize(input, a.ip, a.ip - ref, F.Known(level, a.ip - ref));
               m >= 3 && b == MatchedF(input, a.ip, m, a.table[h := a.ip]))
      && (!F.RunHere(level, input, a.ip) && !F.Repeated(level, input, a.ip, ref) ==> b == At(a.ip + 1, a.table[h := a.ip]))
  {
    hide F.SlotAt, F.MatchSize, MatchedF;
    if F.RunHere(level, input, a.ip) {
      F.RunAgrees(input, a.ip);
      F.SizeKnown(input, a.ip, 1, 3);
    } else {
      var ref := a.table[F.SlotAt(input, a.ip)];
      if F.Repeated(level, input, a.ip, ref) {
        F.SizeKnown(input, a.ip, a.ip - ref, F.Known(level, a.ip - ref));
      }
    }
  }

  lemma AfterMatch(input: seq<byte>, ip: nat, m: nat, table: seq<nat>)
    requires ip >= 1 && m >= 3 && |table| == F.HASH_SIZE
    ensures var b := MatchedF(input, ip, m, table);
      b.ip == ip + m && b.table == table[F.SlotAt(input, b.ip - 2) := b.ip - 2][F.SlotAt(input, b.ip - 1) := b.ip - 1]
  {
    hide F.SlotAt;
  }

  /** Every slot holds the last place entered in it, or 0: that of each look-up, and the last two of each match. */
  lemma {:induction false} FastLearns(level: nat, input: seq<byte>, ats: seq<At>, sent: seq<seq<Token>>, h: nat)
    requires PathF(level, input, ats, sent) && h < 8192
    ensures |ats[|sent|].table| == 8192
    ensures LastIn(PlacesF(level, input, ats), SlotF(input), h, 0, ats[|sent|].table[h])
    decreases |sent|
  {
    hide SendsF, LastIn, SlotF, EnteredF;
    if sent == [] {
      NoneYet(SlotF(input), h, 0);
    } else {
      var n := |sent| - 1;
      var before := ats[..n + 1];
      assert forall i :: 0 <= i <= n ==> before[i] == ats[i];
      assert forall i :: 0 <= i < n ==> sent[..n][i] == sent[i];
      FastLearns(level, input, before, sent[..n], h);
      assert SendsF(level, input, ats[n], sent[n], ats[n + 1]);
      FastSizes(level, input, ats[n], sent[n], ats[n + 1]);
      FastEnters(level, input, ats[n], sent[n], ats[n + 1], PlacesF(level, input, before), h);
    }
  }

  lemma FastSizes(level: nat, input: seq<byte>, a: At, ts: seq<Token>, b: At)
    requires SendsF(level, input, a, ts, b)
    ensures |a.table| == |b.table| == 8192
  {
  }
}

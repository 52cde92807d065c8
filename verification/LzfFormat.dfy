/** The format LZFX and FastLZ share: runs of up to 32 literals behind a control byte,
    and references. FastLZ's second level has longer lengths and distances. */
module LzfFormat {
  import opened Bits
  import opened Tokens

  const MAX_RUN: nat := 32
  const FAR: nat := 8191

  /** A reference: how many bytes it copies, from where, and its own size. */
  datatype Reference = Ref(len: nat, distance: nat, used: nat) | NoRef
  datatype Sum = Sum(n: nat, used: nat) | NoSum

  /** Length bytes up to and including the first that is not 255. */
  function Summed(s: seq<byte>): Sum {
    if s == [] then NoSum
    else if s[0] == 255 then
      var r := Summed(s[1..]);
      if r.Sum? then Sum(r.n + 255, r.used + 1) else NoSum
    else Sum(s[0] as nat, 1)
  }

  function LengthBytes(level: nat, s: seq<byte>): Sum
    requires s != []
  {
    if s[0] / 32 != 7 then Sum(0, 0)
    else if level == 2 then Summed(s[1..])
    else if |s| < 2 then NoSum
    else Sum(s[1] as nat, 1)
  }

  function ReadRef(level: nat, s: seq<byte>): Reference
    requires s != []
  {
    var e := LengthBytes(level, s);
    if e.NoSum? || |s| <= 1 + e.used then NoRef else
      var len, code, high := (s[0] / 32) as nat + 2 + e.n, s[1 + e.used] as nat, (s[0] % 32) as nat;
      if level == 2 && code == 255 && high == 31 then
        if |s| < 4 + e.used then NoRef
        else Ref(len, s[2 + e.used] as nat * 256 + s[3 + e.used] as nat + FAR + 1, 4 + e.used)
      else Ref(len, high * 256 + code + 1, 2 + e.used)
  }

  datatype Decoded = Plain(data: seq<byte>) | Corrupt | Truncated

  /** What a stream stands for, behind the data hist. Truncated: it ends inside a reference. */
  function Decode(level: nat, s: seq<byte>, hist: seq<byte>): Decoded
    decreases |s|
  {
    if s == [] then Plain(hist)
    else if s[0] < 32 then DecodeRun(level, s, hist, s[0] as nat + 1)
    else DecodeRef(level, s, hist, ReadRef(level, s))
  }

  function DecodeRun(level: nat, s: seq<byte>, hist: seq<byte>, n: nat): Decoded
    requires s != []
    decreases |s|, 0
  {
    if |s| < n + 1 then Corrupt else Decode(level, s[n + 1..], hist + s[1..n + 1])
  }

  function DecodeRef(level: nat, s: seq<byte>, hist: seq<byte>, r: Reference): Decoded
    requires s != []
    decreases |s|, 0
  {
    if r.NoRef? then Truncated
    else if r.distance > |hist| || r.distance == 0 then Corrupt
    else if 0 < r.used <= |s| then Decode(level, s[r.used..], CopyBytes(hist, r.distance, r.len))
    else Truncated
  }

  lemma {:induction false} SummedMore(a: seq<byte>, b: seq<byte>)
    requires Summed(a).Sum?
    ensures Summed(a + b) == Summed(a) && 1 <= Summed(a).used <= |a|
  {
    if a[0] == 255 {
      SummedMore(a[1..], b);
      assert (a + b)[1..] == a[1..] + b;
    }
  }

  lemma RefMore(level: nat, a: seq<byte>, b: seq<byte>)
    requires a != [] && ReadRef(level, a).Ref?
    ensures var r := ReadRef(level, a); ReadRef(level, a + b) == r && 2 <= r.used <= |a| && r.distance >= 1 && r.len >= 2
  {
    hide Summed;
    assert (a + b)[1..] == a[1..] + b;
    if level == 2 && a[0] / 32 == 7 {
      SummedMore(a[1..], b);
    }
  }

  /** Streams can be put one behind the other. */
  lemma {:induction false} DecodeAppend(level: nat, a: seq<byte>, b: seq<byte>, hist: seq<byte>)
    requires Decode(level, a, hist).Plain?
    ensures Decode(level, a + b, hist) == Decode(level, b, Decode(level, a, hist).data)
    decreases |a|
  {
    hide CopyBytes, ReadRef;
    if a == [] {
      assert a + b == b;
    } else if a[0] < 32 {
      var n := a[0] as nat + 2;
      assert (a + b)[n..] == a[n..] + b && (a + b)[1..n] == a[1..n];
      DecodeAppend(level, a[n..], b, hist + a[1..n]);
    } else {
      var r := ReadRef(level, a);
      RefMore(level, a, b);
      assert (a + b)[r.used..] == a[r.used..] + b;
      DecodeAppend(level, a[r.used..], b, CopyBytes(hist, r.distance, r.len));
    }
  }

  lemma OneRun(level: nat, run: seq<byte>, hist: seq<byte>)
    requires 1 <= |run| <= MAX_RUN
    ensures Decode(level, [|run| - 1] + run, hist) == Plain(hist + run)
  {
    var t := [|run| - 1] + run;
    assert t[1..|run| + 1] == run && t[|run| + 1..] == [];
    assert Decode(level, t, hist) == DecodeRun(level, t, hist, |run|);
    assert Decode(level, [], hist + run) == Plain(hist + run);
  }

  /** A reference that is all there is. */
  lemma OneRef(level: nat, t: seq<byte>, hist: seq<byte>, len: nat, distance: nat)
    requires t != [] && t[0] >= 32 && ReadRef(level, t) == Ref(len, distance, |t|) && 1 <= distance <= |hist|
    ensures Decode(level, t, hist) == Plain(CopyBytes(hist, distance, len))
  {
    hide CopyBytes, ReadRef;
    assert t[|t|..] == [];
    assert Decode(level, t, hist) == DecodeRef(level, t, hist, ReadRef(level, t));
    assert Decode(level, [], CopyBytes(hist, distance, len)).Plain?;
  }

  /** What is next in a stream, read at ip. */
  lemma RunStep(level: nat, s: seq<byte>, ip: nat, hist: seq<byte>, n: nat)
    requires ip < |s| && s[ip] < 32 && n == s[ip] as nat + 1
    ensures ip + n + 1 > |s| ==> Decode(level, s[ip..], hist).Corrupt?
    ensures ip + n + 1 <= |s| ==> Decode(level, s[ip..], hist) == Decode(level, s[ip + n + 1..], hist + s[ip + 1..ip + n + 1])
  {
    if ip + n + 1 <= |s| {
      assert s[ip..][n + 1..] == s[ip + n + 1..] && s[ip..][1..n + 1] == s[ip + 1..ip + n + 1];
    }
  }

  lemma RefStep(level: nat, s: seq<byte>, ip: nat, hist: seq<byte>)
    requires ip < |s| && s[ip] >= 32
    ensures var r := ReadRef(level, s[ip..]);
      && (r.NoRef? ==> Decode(level, s[ip..], hist).Truncated?)
      && (r.Ref? ==>
            && 2 <= r.used <= |s| - ip && r.distance >= 1 && r.len >= 2
            && (r.distance > |hist| ==> Decode(level, s[ip..], hist).Corrupt?)
            && (r.distance <= |hist| ==>
                  Decode(level, s[ip..], hist) == Decode(level, s[ip + r.used..], CopyBytes(hist, r.distance, r.len))))
  {
    hide CopyBytes, ReadRef;
    var r := ReadRef(level, s[ip..]);
    if r.Ref? {
      RefMore(level, s[ip..], []);
      assert s[ip..][r.used..] == s[ip + r.used..];
    }
  }

  // ---- What a stream sends

  function Literals(run: seq<byte>): (ts: seq<Token>)
    ensures |ts| == |run|
  {
    seq(|run|, i requires 0 <= i < |run| => Literal(run[i]))
  }

  /** The literals and copies that a stream spells out, as far as it is sound. */
  function Items(level: nat, s: seq<byte>): seq<Token>
    decreases |s|
  {
    if s == [] then []
    else if s[0] < 32 then
      if |s| < s[0] as nat + 2 then [] else Literals(s[1..s[0] as nat + 2]) + Items(level, s[s[0] as nat + 2..])
    else
      var r := ReadRef(level, s);
      if r.Ref? && 0 < r.used <= |s| then [Copy(r.distance, r.len)] + Items(level, s[r.used..]) else []
  }

  lemma {:induction false} ItemsAppend(level: nat, a: seq<byte>, b: seq<byte>, hist: seq<byte>)
    requires Decode(level, a, hist).Plain?
    ensures Items(level, a + b) == Items(level, a) + Items(level, b)
    decreases |a|
  {
    hide CopyBytes, ReadRef;
    if a == [] {
      assert a + b == b;
    } else if a[0] < 32 {
      var n := a[0] as nat + 2;
      assert (a + b)[n..] == a[n..] + b && (a + b)[1..n] == a[1..n];
      ItemsAppend(level, a[n..], b, hist + a[1..n]);
    } else {
      var r := ReadRef(level, a);
      RefMore(level, a, b);
      assert (a + b)[r.used..] == a[r.used..] + b;
      ItemsAppend(level, a[r.used..], b, CopyBytes(hist, r.distance, r.len));
    }
  }

  lemma RunItems(level: nat, run: seq<byte>)
    requires 1 <= |run| <= MAX_RUN
    ensures Items(level, [|run| - 1] + run) == Literals(run)
  {
    var t := [|run| - 1] + run;
    assert t[1..|run| + 1] == run && t[|run| + 1..] == [];
    assert Items(level, []) == [];
  }

  lemma RefItems(level: nat, t: seq<byte>, len: nat, distance: nat)
    requires t != [] && t[0] >= 32 && ReadRef(level, t) == Ref(len, distance, |t|)
    ensures Items(level, t) == [Copy(distance, len)]
  {
    hide ReadRef;
    assert t[|t|..] == [] && Items(level, []) == [];
  }

  // ---- Writing a stream

  /** The stream so far stands for the data so far. */
  ghost predicate Closed(level: nat, out: seq<byte>, op: nat, input: seq<byte>, ip: nat) {
    && op <= |out| && ip <= |input|
    && Decode(level, out[..op], []) == Plain(input[..ip])
  }

  /** In front of op stands a literal run whose control byte is not yet written. */
  ghost predicate Open(level: nat, out: seq<byte>, op: nat, lit: nat, input: seq<byte>, ip: nat) {
    && lit < op && lit <= ip <= |input| && lit <= MAX_RUN && (lit == 0 || op <= |out|)
    && Closed(level, out, op - lit - 1, input, ip - lit)
    && (lit > 0 ==> out[op - lit..op] == input[ip - lit..ip])
  }

  lemma OneMore(level: nat, out: seq<byte>, op: nat, lit: nat, input: seq<byte>, ip: nat, out': seq<byte>)
    requires Open(level, out, op, lit, input, ip) && lit < MAX_RUN && op < |out| && ip < |input|
    requires out' == out[op := input[ip]]
    ensures Open(level, out', op + 1, lit + 1, input, ip + 1)
  {
    hide Decode;
    assert out'[..op - lit - 1] == out[..op - lit - 1];
    assert out'[op - lit..op + 1] == out'[op - lit..op] + [out'[op]];
    if lit > 0 {
      assert out'[op - lit..op] == out[op - lit..op];
    }
    assert input[ip - lit..ip + 1] == input[ip - lit..ip] + [input[ip]];
  }

  lemma CloseRun(level: nat, out: seq<byte>, op: nat, lit: nat, input: seq<byte>, ip: nat, out': seq<byte>)
    requires Open(level, out, op, lit, input, ip) && lit > 0
    requires out' == out[op - lit - 1 := lit - 1]
    ensures Closed(level, out', op, input, ip)
  {
    hide Decode;
    var s, run := out[..op - lit - 1], input[ip - lit..ip];
    assert out'[..op] == s + ([lit - 1] + run) by {
      assert out'[..op] == out'[..op - lit - 1] + [out'[op - lit - 1]] + out'[op - lit..op];
      assert out'[op - lit..op] == out[op - lit..op];
    }
    DecodeAppend(level, s, [lit - 1] + run, []);
    OneRun(level, run, input[..ip - lit]);
    assert input[..ip - lit] + run == input[..ip];
  }

  /** A run nothing was put in is taken back; its control byte does not matter. */
  lemma UndoRun(level: nat, out: seq<byte>, op: nat, input: seq<byte>, ip: nat, out': seq<byte>)
    requires Open(level, out, op, 0, input, ip) && |out'| == |out| && out'[..op - 1] == out[..op - 1]
    ensures Closed(level, out', op - 1, input, ip)
  {
  }

  lemma OpenRun(level: nat, out: seq<byte>, op: nat, input: seq<byte>, ip: nat)
    requires Closed(level, out, op, input, ip)
    ensures Open(level, out, op + 1, 0, input, ip)
  {
  }

  lemma StartsOpen(level: nat, out: seq<byte>, input: seq<byte>)
    ensures Open(level, out, 1, 0, input, 0) && MAX_RUN == 32
  {
  }

  lemma MaxRun()
    ensures MAX_RUN == 32
  {
  }

  lemma OpenBounds(level: nat, out: seq<byte>, op: nat, lit: nat, input: seq<byte>, ip: nat)
    requires Open(level, out, op, lit, input, ip)
    ensures lit < op && lit <= ip <= |input| && op <= |out| + 1 && (lit > 0 ==> op <= |out|)
  {
  }

  /** A verified match behind a stream. */
  lemma MatchBehind(level: nat, out: seq<byte>, op: nat, input: seq<byte>, ip: nat, t: seq<byte>, d: nat, len: nat, out': seq<byte>)
    requires Closed(level, out, op, input, ip) && Agrees(input, ip, d, len)
    requires t != [] && t[0] >= 32 && ReadRef(level, t) == Ref(len, d, |t|)
    requires op + |t| <= |out'| && out'[..op + |t|] == out[..op] + t
    ensures Closed(level, out', op + |t|, input, ip + len)
  {
    hide Decode, CopyBytes, ReadRef;
    DecodeAppend(level, out[..op], t, []);
    OneRef(level, t, input[..ip], len, d);
    CopyOfMatch(input, ip, d, len);
  }

  lemma AllClosed(level: nat, out: seq<byte>, op: nat, input: seq<byte>)
    requires Closed(level, out, op, input, |input|)
    ensures op <= |out| && Decode(level, out[..op], []) == Plain(input)
  {
    assert input[..|input|] == input;
  }

  /** The stream up to op, with an open run of lit literals at its end, spells out ts. */
  ghost predicate Carries(level: nat, out: seq<byte>, op: nat, lit: nat, ts: seq<Token>) {
    && lit < op && (lit == 0 || op <= |out|) && op - lit - 1 <= |out|
    && ts == Items(level, out[..op - lit - 1]) + if lit > 0 then Literals(out[op - lit..op]) else []
  }

  lemma CarriesMore(level: nat, out: seq<byte>, op: nat, lit: nat, ts: seq<Token>, c: byte, out': seq<byte>)
    requires Carries(level, out, op, lit, ts) && op < |out| && out' == out[op := c]
    ensures Carries(level, out', op + 1, lit + 1, ts + [Literal(c)])
  {
    hide Items;
    assert out'[..op - lit - 1] == out[..op - lit - 1];
    assert out'[op - lit..op + 1] == out[op - lit..op] + [c];
    assert Literals(out[op - lit..op] + [c]) == Literals(out[op - lit..op]) + [Literal(c)];
    if lit == 0 {
      assert Literals(out[op..op]) == [];
    }
  }

  /** A closed stream, and a run not yet begun behind it, spell out the same. */
  lemma CarriesClosed(level: nat, out: seq<byte>, op: nat, ts: seq<Token>)
    requires op <= |out|
    ensures Carries(level, out, op + 1, 0, ts) <==> ts == Items(level, out[..op])
  {
    hide Items;
  }

  lemma CarriesRun(level: nat, out: seq<byte>, op: nat, lit: nat, input: seq<byte>, ip: nat, ts: seq<Token>, out': seq<byte>)
    requires Open(level, out, op, lit, input, ip) && lit > 0 && Carries(level, out, op, lit, ts)
    requires out' == out[op - lit - 1 := lit - 1]
    ensures Items(level, out'[..op]) == ts
  {
    hide Decode, Items, Literals;
    var s, run := out[..op - lit - 1], out[op - lit..op];
    RunClosed(out, op, lit, out');
    ItemsAppend(level, s, [lit - 1] + run, []);
    RunItems(level, run);
  }

  lemma RunClosed(out: seq<byte>, op: nat, lit: nat, out': seq<byte>)
    requires 0 < lit <= MAX_RUN && lit < op <= |out| && out' == out[op - lit - 1 := lit - 1]
    ensures out'[..op] == out[..op - lit - 1] + ([lit - 1] + out[op - lit..op])
  {
    assert out'[..op] == out'[..op - lit - 1] + [out'[op - lit - 1]] + out'[op - lit..op];
    assert out'[op - lit..op] == out[op - lit..op];
  }

  lemma CarriesMatch(level: nat, out: seq<byte>, op: nat, input: seq<byte>, ip: nat, t: seq<byte>, d: nat, len: nat, out': seq<byte>)
    requires Closed(level, out, op, input, ip)
    requires t != [] && t[0] >= 32 && ReadRef(level, t) == Ref(len, d, |t|)
    requires op + |t| <= |out'| && out'[..op + |t|] == out[..op] + t
    ensures Items(level, out'[..op + |t|]) == Items(level, out[..op]) + [Copy(d, len)]
  {
    hide Decode, Items, ReadRef;
    ItemsAppend(level, out[..op], t, []);
    RefItems(level, t, len, d);
  }

  // ---- Copying

  /** Copying inside the buffer, lowest first, so that the octets may overlap. */
  method CopyRef(out: array<byte>, op: nat, d: nat, len: nat)
    requires 1 <= d <= op && op + len <= out.Length
    modifies out
    ensures out[..op + len] == CopyBytes(old(out[..op]), d, len)
  {
    hide CopyBytes;
    ghost var want := CopyBytes(out[..op], d, len);
    var i := 0;
    while i < len
      invariant i <= len && CopyBytes(out[..op + i], d, len - i) == want
    {
      ghost var was := out[..op + i];
      CopyUnfold(was, d, len - i);
      out[op + i] := out[op + i - d];
      assert out[..op + i + 1] == was + [was[op + i - d]];
      i := i + 1;
    }
    CopyUnfold(out[..op + i], d, 0);
  }

  method CopyRun(s: seq<byte>, ip: nat, out: array<byte>, op: nat, n: nat)
    requires ip + n <= |s| && op + n <= out.Length
    modifies out
    ensures out[..op + n] == old(out[..op]) + s[ip..ip + n]
  {
    var i := 0;
    while i < n
      invariant i <= n && out[..op + i] == old(out[..op]) + s[ip..ip + i]
    {
      out[op + i] := s[ip + i];
      i := i + 1;
    }
  }
}

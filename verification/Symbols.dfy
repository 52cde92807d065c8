/** The symbols Deflate sends (section 3.2.5 of RFC 1951) and what a sequence of
    them means, whatever block each one ends up in. */
module Symbols {
  import opened Bits
  import opened Tokens
  import opened DeflateCodes

  /** An entry of the encoder's symbol buffer. */
  datatype Sym = LitLenSym(code: nat) | DistSym(code: nat) | ExtraBits(value: nat, nbits: nat) | CodeLenSym(code: nat)

  /** Between two symbols: at a literal or match, or part way through a match. */
  datatype Mode = AtSym | LenExtra(k: nat) | AtDist(len: nat) | DistExtra(len: nat, k: nat)

  datatype Player = Player(hist: seq<byte>, mode: Mode)

  const EOB: nat := 256

  /** s may come next. A distance may not reach back past the start. */
  predicate Fits(p: Player, s: Sym) {
    match p.mode
    case AtSym => s.LitLenSym? && s.code < 286 && s.code != EOB
    case LenExtra(k) =>
      s.ExtraBits? && k < |LENCODES| && s.nbits == LENCODES[k].extrabits && s.value < Pow2(s.nbits)
    case AtDist(_) =>
      s.DistSym? && s.code < |DISTCODES| && (DISTCODES[s.code].extrabits == 0 ==> CanReach(p.hist, DISTCODES[s.code].min))
    case DistExtra(_, k) =>
      && s.ExtraBits? && k < |DISTCODES| && s.nbits == DISTCODES[k].extrabits && s.value < Pow2(s.nbits)
      && CanReach(p.hist, DISTCODES[k].min + s.value)
  }

  predicate CanReach(hist: seq<byte>, d: nat) {
    1 <= d <= |hist| && d <= WINSIZE
  }

  function After(p: Player, s: Sym): Player
    requires Fits(p, s)
  {
    match p.mode
    case AtSym =>
      if s.code < 256 then Player(p.hist + [s.code], AtSym) else
        var r := LENCODES[s.code - 257];
        Player(p.hist, if r.extrabits == 0 then AtDist(r.min) else LenExtra(s.code - 257))
    case LenExtra(k) => Player(p.hist, AtDist(LENCODES[k].min + s.value))
    case AtDist(len) =>
      if DISTCODES[s.code].extrabits == 0 then Player(CopyBytes(p.hist, DISTCODES[s.code].min, len), AtSym)
      else Player(p.hist, DistExtra(len, s.code))
    case DistExtra(len, k) => Player(CopyBytes(p.hist, DISTCODES[k].min + s.value, len), AtSym)
  }

  predicate Playable(p: Player, ss: seq<Sym>)
    decreases |ss|, 0
  {
    ss == [] || (Playable(p, ss[..|ss| - 1]) && Fits(Played(p, ss[..|ss| - 1]), ss[|ss| - 1]))
  }

  /** What the symbols stand for, one after the other. */
  function Played(p: Player, ss: seq<Sym>): Player
    requires Playable(p, ss)
    decreases |ss|, 1
  {
    if ss == [] then p else After(Played(p, ss[..|ss| - 1]), ss[|ss| - 1])
  }

  lemma PlayOne(p: Player, ss: seq<Sym>, s: Sym)
    requires Playable(p, ss) && Fits(Played(p, ss), s)
    ensures Playable(p, ss + [s]) && Played(p, ss + [s]) == After(Played(p, ss), s)
  {
    assert (ss + [s])[..|ss|] == ss;
  }

  /** Bytes as literals. */
  function Literals(data: seq<byte>): (ss: seq<Sym>)
    ensures |ss| == |data|
  {
    if data == [] then [] else Literals(data[..|data| - 1]) + [LitLenSym(data[|data| - 1])]
  }

  lemma {:induction false} LiteralsPlay(before: seq<byte>, data: seq<byte>)
    ensures var p := Player(before, AtSym); Playable(p, Literals(data)) && Played(p, Literals(data)) == Player(before + data, AtSym)
    decreases |data|
  {
    if data == [] {
      assert before + data == before;
    } else {
      var n := |data| - 1;
      LiteralsPlay(before, data[..n]);
      LiteralAfter(before + data[..n], data[n]);
      hide Playable, Played, Fits, After;
      PlayOne(Player(before, AtSym), Literals(data[..n]), LitLenSym(data[n]));
      LastByte(before, data);
    }
  }

  lemma LiteralAfter(hist: seq<byte>, c: byte)
    ensures Fits(Player(hist, AtSym), LitLenSym(c)) && After(Player(hist, AtSym), LitLenSym(c)) == Player(hist + [c], AtSym)
  {
  }

  lemma LastByte(before: seq<byte>, data: seq<byte>)
    requires data != []
    ensures before + data == before + data[..|data| - 1] + [data[|data| - 1]]
  {
  }

  lemma {:induction false} LiteralsJoin(x: seq<byte>, y: seq<byte>)
    ensures Literals(x + y) == Literals(x) + Literals(y)
    decreases |y|
  {
    if y == [] {
      assert x + y == x;
    } else {
      var n := |y| - 1;
      assert (x + y)[..|x| + n] == x + y[..n];
      LiteralsJoin(x, y[..n]);
    }
  }

  /** Playing a and then b is playing a + b, wherever the cut is. */
  lemma {:induction false} PlayAppend(p: Player, a: seq<Sym>, b: seq<Sym>)
    ensures Playable(p, a + b) <==> Playable(p, a) && Playable(Played(p, a), b)
    ensures Playable(p, a + b) ==> Played(p, a + b) == Played(Played(p, a), b)
  {
    hide Fits, After;
    if b == [] {
      assert a + b == a;
    } else {
      var n := |b| - 1;
      PlayAppend(p, a, b[..n]);
      assert (a + b)[..|a + b| - 1] == a + b[..n];
    }
  }

  lemma {:induction false} CopyMore(hist: seq<byte>, d: nat, a: nat, b: nat)
    requires 1 <= d <= |hist|
    ensures CopyBytes(CopyBytes(hist, d, a), d, b) == CopyBytes(hist, d, a + b)
    decreases a
  {
    if a > 0 {
      CopyMore(hist + [hist[|hist| - d]], d, a - 1, b);
    }
  }

  /** How many more symbols a match part way through can take. */
  function Distance(m: Mode): nat {
    match m
    case AtSym => 0
    case DistExtra(_, _) => 1
    case AtDist(_) => 2
    case LenExtra(_) => 3
  }

  lemma MatchGoesOn(p: Player, s: Sym)
    requires Fits(p, s)
    ensures p.mode.AtSym? <==> s.LitLenSym?
    ensures !p.mode.AtSym? ==> Distance(After(p, s).mode) < Distance(p.mode)
  {
    hide CopyBytes;
  }

  lemma {:induction false} Prefix(p: Player, ss: seq<Sym>, i: nat)
    requires Playable(p, ss) && i <= |ss|
    ensures Playable(p, ss[..i])
    ensures i < |ss| ==>
      && Fits(Played(p, ss[..i]), ss[i]) && ss[..i + 1] == ss[..i] + [ss[i]]
      && Playable(p, ss[..i + 1]) && Played(p, ss[..i + 1]) == After(Played(p, ss[..i]), ss[i])
    decreases |ss| - i
  {
    hide Fits, After;
    PlayAppend(p, ss[..i], ss[i..]);
    assert ss[..i] + ss[i..] == ss;
    if i < |ss| {
      PlayAppend(p, ss[..i + 1], ss[i + 1..]);
      assert ss[..i + 1] + ss[i + 1..] == ss;
      assert ss[..i + 1][..i] == ss[..i];
    }
  }

  /** A literal or length symbol stands where a literal or match begins. */
  lemma BoundaryIsAtSym(p: Player, ss: seq<Sym>, i: nat)
    requires Playable(p, ss) && i < |ss|
    ensures Playable(p, ss[..i]) && (ss[i].LitLenSym? <==> Played(p, ss[..i]).mode.AtSym?)
  {
    hide Fits, After;
    Prefix(p, ss, i);
    MatchGoesOn(Played(p, ss[..i]), ss[i]);
  }

  /** Among any five symbols there is a place to end a block. */
  lemma {:induction false} BoundaryNear(p: Player, ss: seq<Sym>, i: nat)
    returns (j: nat)
    requires Playable(p, ss) && i <= |ss| && Playable(p, ss[..i]) && i + Distance(Played(p, ss[..i]).mode) < |ss|
    ensures i <= j < |ss| && ss[j].LitLenSym?
    decreases |ss| - i
  {
    hide Fits, After;
    Prefix(p, ss, i);
    MatchGoesOn(Played(p, ss[..i]), ss[i]);
    if ss[i].LitLenSym? {
      j := i;
    } else {
      j := BoundaryNear(p, ss, i + 1);
    }
  }

  // ---- One match, sent as match() sends it

  lemma LengthFits(p: Player, k: nat, n: nat)
    requires p.mode.AtSym? && k < |LENCODES| && LENCODES[k].min <= n <= LENCODES[k].max
    ensures LENCODES[k].code == 257 + k && Fits(p, LitLenSym(LENCODES[k].code))
    ensures var q := After(p, LitLenSym(LENCODES[k].code)); var r := LENCODES[k];
      && q.hist == p.hist && n - r.min < Pow2(r.extrabits)
      && (r.extrabits == 0 ==> q.mode == AtDist(n))
      && (r.extrabits > 0 ==>
            Fits(q, ExtraBits(n - r.min, r.extrabits)) && After(q, ExtraBits(n - r.min, r.extrabits)) == Player(p.hist, AtDist(n)))
  {
    LenCodesTile();
    hide Pow2;
    assert RecordOk(LENCODES[k], 257, k);
    assert Pow2(0) == 1 by { Powers(); }
  }

  lemma DistanceFits(p: Player, k: nat, d: nat)
    requires p.mode.AtDist? && k < |DISTCODES| && DISTCODES[k].min <= d <= DISTCODES[k].max && CanReach(p.hist, d)
    ensures DISTCODES[k].code == k && Fits(p, DistSym(DISTCODES[k].code))
    ensures var q := After(p, DistSym(DISTCODES[k].code)); var r := DISTCODES[k];
      && d - r.min < Pow2(r.extrabits)
      && (r.extrabits == 0 ==> q == Player(CopyBytes(p.hist, d, p.mode.len), AtSym))
      && (r.extrabits > 0 ==>
            Fits(q, ExtraBits(d - r.min, r.extrabits))
            && After(q, ExtraBits(d - r.min, r.extrabits)) == Player(CopyBytes(p.hist, d, p.mode.len), AtSym))
  {
    DistCodesTile();
    hide Pow2, CopyBytes;
    assert RecordOk(DISTCODES[k], 0, k);
    assert Pow2(0) == 1 by { Powers(); }
  }
}

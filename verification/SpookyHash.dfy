/** SpookyHash V2: the incremental class agrees with the one-shot hash, however the
    message is cut into pieces and however often the hash is asked for on the way. */
module SpookyHash {
  import opened Bits

  const NUM_VARS: nat := 12
  const BLOCK_SIZE: nat := 96
  const BUF_SIZE: nat := 192
  const SC_CONST: bv64 := 0xdeadbeefdeadbeef

  /** The twelve variables, or the words of a block. */
  type Vars = s: seq<bv64> | |s| == 12 witness seq(12, _ => 0)
  datatype Short4 = Short4(a: bv64, b: bv64, c: bv64, d: bv64)
  datatype Hash = Hash(h1: bv64, h2: bv64)

  function Rot64(x: bv64, k: bv7): bv64
    requires k <= 64
  {
    (x << k) | (x >> (64 - k))
  }

  /** Sums wrap round. */
  function Add64(x: bv64, y: bv64): bv64 {
    x + y
  }

  function Xor64(x: bv64, y: bv64): bv64 {
    x ^ y
  }

  const MIX_ROTATIONS: seq<bv7> := [11, 32, 43, 31, 17, 28, 39, 57, 55, 54, 22, 46]
  const END_ROTATIONS: seq<bv7> := [44, 15, 34, 21, 38, 33, 10, 13, 38, 53, 42, 54]

  /** Line k of Mix; the variables are numbered round a circle. */
  function MixLine(s: Vars, word: bv64, k: nat): Vars
    requires k < 12
  {
    var r := MIX_ROTATIONS[k];
    assert r <= 64;
    var k1, k2, k10, k11 := (k + 1) % 12, (k + 2) % 12, (k + 10) % 12, (k + 11) % 12;
    var s1 := s[k := Add64(s[k], word)];
    var s2 := s1[k2 := Xor64(s1[k2], s1[k10])];
    var s3 := s2[k11 := Xor64(s2[k11], s2[k])];
    var s4 := s3[k := Rot64(s3[k], r)];
    s4[k11 := Add64(s4[k11], s4[k1])]
  }

  function MixLines(s: Vars, data: Vars, k: nat): Vars
    requires k <= 12
  {
    if k == 0 then s else MixLine(MixLines(s, data, k - 1), data[k - 1], k - 1)
  }

  function Mix(data: Vars, s: Vars): Vars {
    MixLines(s, data, 12)
  }

  /** Line k of EndPartial, which begins with the last variable. */
  function EndLine(s: Vars, k: nat): Vars
    requires k < 12
  {
    var r := END_ROTATIONS[k];
    assert r <= 64;
    var k1, k2, k11 := (k + 1) % 12, (k + 2) % 12, (k + 11) % 12;
    var s1 := s[k11 := Add64(s[k11], s[k1])];
    var s2 := s1[k2 := Xor64(s1[k2], s1[k11])];
    s2[k1 := Rot64(s2[k1], r)]
  }

  function EndLines(s: Vars, k: nat): Vars
    requires k <= 12
  {
    if k == 0 then s else EndLine(EndLines(s, k - 1), k - 1)
  }

  function End(data: Vars, s: Vars): Vars {
    var t: Vars := seq(12, i requires 0 <= i < 12 => Add64(s[i], data[i]));
    EndLines(EndLines(EndLines(t, 12), 12), 12)
  }

  /** The n lowest bits of a number as a word. */
  function BitsWord(v: nat, n: nat): bv64 {
    if n == 0 then 0 else (BitsWord(v / 2, n - 1) << 1) | if v % 2 == 1 then 1 else 0
  }

  /** A byte below the bytes of a word. */
  function Joined(x: bv64, b: bv64): bv64 {
    (x << 8) | b
  }

  /** Eight bytes, lowest first. */
  function Word64(b: seq<byte>): bv64 {
    if b == [] then 0 else Joined(Word64(b[1..]), BitsWord(b[0], 8))
  }

  function WordAt(b: seq<byte>, i: nat): bv64
    requires 8 * i + 8 <= |b|
  {
    Word64(b[8 * i..8 * i + 8])
  }

  function Words(b: seq<byte>): Vars
    requires |b| == BLOCK_SIZE
  {
    seq(12, i requires 0 <= i < 12 => WordAt(b, i))
  }

  // ---- The hash of a whole message

  function Start(seed1: bv64, seed2: bv64): Vars {
    seq(12, i requires 0 <= i < 12 => if i % 3 == 0 then seed1 else if i % 3 == 1 then seed2 else SC_CONST)
  }

  /** The state after mixing in the first n blocks. */
  function Mixed(s: Vars, message: seq<byte>, n: nat): Vars
    requires n * BLOCK_SIZE <= |message|
  {
    if n == 0 then s else Mix(Words(message[(n - 1) * BLOCK_SIZE..n * BLOCK_SIZE]), Mixed(s, message, n - 1))
  }

  /** The last partial block: zero-filled, its length in the last byte. */
  function Padded(rest: seq<byte>): (b: seq<byte>)
    requires |rest| < BLOCK_SIZE
    ensures |b| == BLOCK_SIZE
  {
    rest + seq(BLOCK_SIZE - 1 - |rest|, _ => 0) + [|rest|]
  }

  function Finished(s: Vars, rest: seq<byte>): Hash
    requires |rest| < BLOCK_SIZE
  {
    var t := End(Words(Padded(rest)), s);
    Hash(t[0], t[1])
  }

  /** The twelve variables at the end. */
  function LongState(message: seq<byte>, seed1: bv64, seed2: bv64): Vars {
    var n := |message| / BLOCK_SIZE;
    End(Words(Padded(message[n * BLOCK_SIZE..])), Mixed(Start(seed1, seed2), message, n))
  }

  function LongHash(message: seq<byte>, seed1: bv64, seed2: bv64): Hash {
    var n := |message| / BLOCK_SIZE;
    Finished(Mixed(Start(seed1, seed2), message, n), message[n * BLOCK_SIZE..])
  }

  const SHORT_ROTATIONS: seq<bv7> := [50, 52, 30, 41, 54, 48, 38, 37, 62, 34, 5, 36]

  /** Line k of ShortMix: the variables take turns. */
  function ShortMixLine(s: Short4, k: nat): Short4
    requires k < 12
  {
    var r := SHORT_ROTATIONS[k];
    assert r <= 64;
    match k % 4
    case 0 => var c := Add64(Rot64(s.c, r), s.d); s.(c := c, a := Xor64(s.a, c))
    case 1 => var d := Add64(Rot64(s.d, r), s.a); s.(d := d, b := Xor64(s.b, d))
    case 2 => var a := Add64(Rot64(s.a, r), s.b); s.(a := a, c := Xor64(s.c, a))
    case _ => var b := Add64(Rot64(s.b, r), s.c); s.(b := b, d := Xor64(s.d, b))
  }

  function ShortMix(s: Short4, k: nat): Short4
    requires k <= 12
  {
    if k == 0 then s else ShortMixLine(ShortMix(s, k - 1), k - 1)
  }

  const SHORT_END_ROTATIONS: seq<bv7> := [15, 52, 26, 51, 28, 9, 47, 54, 32, 25, 63]

  function ShortEndLine(s: Short4, k: nat): Short4
    requires k < 11
  {
    var r := SHORT_END_ROTATIONS[k];
    assert r <= 64;
    match k % 4
    case 0 => var d, c := Xor64(s.d, s.c), Rot64(s.c, r); s.(c := c, d := Add64(d, c))
    case 1 => var a, d := Xor64(s.a, s.d), Rot64(s.d, r); s.(d := d, a := Add64(a, d))
    case 2 => var b, a := Xor64(s.b, s.a), Rot64(s.a, r); s.(a := a, b := Add64(b, a))
    case _ => var c, b := Xor64(s.c, s.b), Rot64(s.b, r); s.(b := b, c := Add64(c, b))
  }

  function ShortEnd(s: Short4, k: nat): Short4
    requires k <= 11
  {
    if k == 0 then s else ShortEndLine(ShortEnd(s, k - 1), k - 1)
  }

  /** The state after n complete sets of 32 bytes. */
  function ShortMixed(s: Short4, message: seq<byte>, n: nat): Short4
    requires 32 * n <= |message|
  {
    if n == 0 then s else
      ShortRound(ShortMixed(s, message, n - 1), WordAt(message, 4 * n - 4), WordAt(message, 4 * n - 3),
                 WordAt(message, 4 * n - 2), WordAt(message, 4 * n - 1))
  }

  /** Two words in, a mix, two more words. */
  function ShortRound(s: Short4, w0: bv64, w1: bv64, w2: bv64, w3: bv64): Short4 {
    var t := ShortHalf(s, w0, w1);
    t.(a := Add64(t.a, w2), b := Add64(t.b, w3))
  }

  function ShortHalf(s: Short4, w0: bv64, w1: bv64): Short4 {
    ShortMix(s.(c := Add64(s.c, w0), d := Add64(s.d, w1)), 12)
  }

  /** The length in the highest byte. */
  function LengthWord(length: nat): bv64 {
    BitsWord(length, 8) << 56
  }

  /** The last 0..15 bytes and the length. */
  function ShortTail(s: Short4, rest: seq<byte>, length: nat): Short4
    requires |rest| < 16
  {
    var d := Add64(s.d, LengthWord(length));
    if rest == [] then s.(c := Add64(s.c, SC_CONST), d := Add64(d, SC_CONST))
    else if |rest| < 8 then s.(c := Add64(s.c, Word64(rest)), d := d)
    else s.(c := Add64(s.c, Word64(rest[..8])), d := Add64(d, Word64(rest[8..])))
  }

  /** The four variables at the end. */
  function ShortState(message: seq<byte>, seed1: bv64, seed2: bv64): Short4 {
    var n := |message| / 32;
    var s := ShortMixed(Short4(seed1, seed2, SC_CONST, SC_CONST), message, n);
    var rest := message[32 * n..];
    var t := if |rest| >= 16 then ShortHalf(s, WordAt(rest, 0), WordAt(rest, 1)) else s;
    ShortEnd(ShortTail(t, if |rest| >= 16 then rest[16..] else rest, |message|), 11)
  }

  function ShortHash(message: seq<byte>, seed1: bv64, seed2: bv64): Hash {
    var e := ShortState(message, seed1, seed2);
    Hash(e.a, e.b)
  }

  /** The hash of a message: the short form below 192 bytes. */
  function HashOf(message: seq<byte>, seed1: bv64, seed2: bv64): Hash {
    if |message| < BUF_SIZE then ShortHash(message, seed1, seed2) else LongHash(message, seed1, seed2)
  }

  // ---- As written

  /** Short: at most 191 bytes, 32 at a time. */
  method Short(message: seq<byte>, seed1: bv64, seed2: bv64) returns (h: Hash)
    ensures h == ShortHash(message, seed1, seed2)
  {
    hide ShortMix, ShortEnd, ShortTail, WordAt, ShortHalf, ShortRound;
    var s := Short4(seed1, seed2, SC_CONST, SC_CONST);
    var n := |message| / 32;
    for i := 0 to n
      invariant s == ShortMixed(Short4(seed1, seed2, SC_CONST, SC_CONST), message, i)
    {
      s := ShortRound(s, WordAt(message, 4 * i), WordAt(message, 4 * i + 1), WordAt(message, 4 * i + 2), WordAt(message, 4 * i + 3));
    }
    var rest := message[32 * n..];
    if |rest| >= 16 {
      s := ShortHalf(s, WordAt(rest, 0), WordAt(rest, 1));
      rest := rest[16..];
    }
    s := ShortEnd(ShortTail(s, rest, |message|), 11);
    h := Hash(s.a, s.b);
  }

  /** The block loop shared by Hash128 and Update. */
  method MixBlocks(message: seq<byte>, n: nat, h0: Vars) returns (h: Vars)
    requires n * BLOCK_SIZE <= |message|
    ensures h == Mixed(h0, message, n)
  {
    hide Mix, Words;
    h := h0;
    for i := 0 to n
      invariant h == Mixed(h0, message, i)
    {
      h := Mix(Words(message[i * BLOCK_SIZE..(i + 1) * BLOCK_SIZE]), h);
    }
  }

  /** Hash128: the whole message in one call. */
  method Hash128(message: seq<byte>, seed1: bv64, seed2: bv64) returns (h: Hash)
    ensures h == HashOf(message, seed1, seed2)
  {
    hide ShortHash, Mixed, End, Words, Start;
    if |message| < BUF_SIZE {
      h := Short(message, seed1, seed2);
      return;
    }
    var n := |message| / BLOCK_SIZE;
    var v := MixBlocks(message, n, Start(seed1, seed2));
    h := Finished(v, message[n * BLOCK_SIZE..]);
  }

  lemma {:induction false} MixedPrefix(s: Vars, a: seq<byte>, b: seq<byte>, n: nat)
    requires n * BLOCK_SIZE <= |a|
    ensures Mixed(s, a + b, n) == Mixed(s, a, n)
  {
    hide Mix, Words;
    if n > 0 {
      MixedPrefix(s, a, b, n - 1);
      assert (a + b)[(n - 1) * BLOCK_SIZE..n * BLOCK_SIZE] == a[(n - 1) * BLOCK_SIZE..n * BLOCK_SIZE];
    }
  }

  /** Mixing n blocks and then m more of what follows. */
  lemma {:induction false} MixedAppend(s: Vars, a: seq<byte>, n: nat, b: seq<byte>, m: nat)
    requires |a| == n * BLOCK_SIZE && m * BLOCK_SIZE <= |b|
    ensures Mixed(s, a + b, n + m) == Mixed(Mixed(s, a, n), b, m)
  {
    hide Mix, Words;
    if m == 0 {
      MixedPrefix(s, a, b, n);
    } else {
      MixedAppend(s, a, n, b, m - 1);
      assert (a + b)[(n + m - 1) * BLOCK_SIZE..(n + m) * BLOCK_SIZE] == b[(m - 1) * BLOCK_SIZE..m * BLOCK_SIZE];
    }
  }

  /** What the context holds after a message: a state that has swallowed whole blocks,
      and the bytes not yet swallowed. Short messages are not swallowed at all. */
  ghost predicate Holds(state: seq<bv64>, kept: seq<byte>, message: seq<byte>, seed1: bv64, seed2: bv64) {
    && |state| == NUM_VARS && |kept| <= |message| && |kept| < BUF_SIZE && message[|message| - |kept|..] == kept
    && (|message| < BUF_SIZE ==> |kept| == |message| && state[0] == seed1 && state[1] == seed2)
    && (|message| >= BUF_SIZE ==>
          && (|message| - |kept|) % BLOCK_SIZE == 0
          && state == Mixed(Start(seed1, seed2), message, (|message| - |kept|) / BLOCK_SIZE))
  }

  /** A fragment too short to fill the buffer is only stashed away. */
  lemma Stash(state: seq<bv64>, kept: seq<byte>, message: seq<byte>, seed1: bv64, seed2: bv64, more: seq<byte>)
    requires Holds(state, kept, message, seed1, seed2) && |kept| + |more| < BUF_SIZE
    ensures Holds(state, kept + more, message + more, seed1, seed2)
  {
    hide Mixed, Start;
    var n := (|message| - |kept|) / BLOCK_SIZE;
    assert (message + more)[|message| - |kept|..] == kept + more;
    if |message| >= BUF_SIZE {
      MixedPrefix(Start(seed1, seed2), message, more, n);
    }
  }

  /** A longer one is swallowed together with what was kept. */
  lemma Swallow(state: seq<bv64>, kept: seq<byte>, message: seq<byte>, seed1: bv64, seed2: bv64, more: seq<byte>,
                m: nat, state': seq<bv64>)
    requires Holds(state, kept, message, seed1, seed2) && |kept| + |more| >= BUF_SIZE
    requires |state'| == NUM_VARS && m == (|kept| + |more|) / BLOCK_SIZE
    requires state' == Mixed(if |message| < BUF_SIZE then Start(seed1, seed2) else state, kept + more, m)
    ensures Holds(state', (kept + more)[m * BLOCK_SIZE..], message + more, seed1, seed2)
  {
    hide Mixed, Start;
    var n := (|message| - |kept|) / BLOCK_SIZE;
    var swallowed := message[..|message| - |kept|];
    assert message + more == swallowed + (kept + more);
    SwallowLengths(|message|, |kept|, |more|, n, m);
    if |message| >= BUF_SIZE {
      assert message == swallowed + kept;
      MixedPrefix(Start(seed1, seed2), swallowed, kept, n);
      MixedAppend(Start(seed1, seed2), swallowed, n, kept + more, m);
    } else {
      assert swallowed == [] && message + more == kept + more;
    }
  }

  lemma SwallowLengths(len: nat, kept: nat, more: nat, n: nat, m: nat)
    requires kept <= len && m == (kept + more) / BLOCK_SIZE && n == (len - kept) / BLOCK_SIZE
    requires len < BUF_SIZE ==> kept == len
    requires len >= BUF_SIZE ==> (len - kept) % BLOCK_SIZE == 0
    ensures n * BLOCK_SIZE == len - kept
    ensures var left := kept + more - m * BLOCK_SIZE;
      0 <= left < BLOCK_SIZE && (len + more - left) % BLOCK_SIZE == 0 && (len + more - left) / BLOCK_SIZE == n + m
  {
  }

  /** Finishing from the context is hashing the message. */
  lemma FinalIsHash(state: seq<bv64>, kept: seq<byte>, message: seq<byte>, seed1: bv64, seed2: bv64)
    requires Holds(state, kept, message, seed1, seed2) && |message| >= BUF_SIZE
    ensures |kept| < BLOCK_SIZE ==> Finished(state, kept) == HashOf(message, seed1, seed2)
    ensures |kept| >= BLOCK_SIZE ==>
      Finished(Mix(Words(kept[..BLOCK_SIZE]), state), kept[BLOCK_SIZE..]) == HashOf(message, seed1, seed2)
  {
    hide Finished, Start, Mix, Words;
    var n, at := (|message| - |kept|) / BLOCK_SIZE, |message| - |kept|;
    assert at == n * BLOCK_SIZE;
    if |kept| < BLOCK_SIZE {
      assert |message| / BLOCK_SIZE == n;
    } else {
      assert |message| / BLOCK_SIZE == n + 1;
      assert message[n * BLOCK_SIZE..(n + 1) * BLOCK_SIZE] == kept[..BLOCK_SIZE];
      assert message[(n + 1) * BLOCK_SIZE..] == kept[BLOCK_SIZE..];
    }
  }

  class Spooky {
    const data: array<byte>
    var state: seq<bv64>
    var length: nat
    var remainder: nat

    ghost var message: seq<byte>
    ghost const seed1: bv64
    ghost const seed2: bv64

    ghost predicate Valid()
      reads this, data
    {
      && data.Length == BUF_SIZE && length == |message| && remainder < BUF_SIZE
      && Holds(state, data[..remainder], message, seed1, seed2)
    }

    /** Init. */
    constructor (s1: bv64, s2: bv64)
      ensures Valid() && message == [] && seed1 == s1 && seed2 == s2 && fresh(data)
    {
      data := new byte[BUF_SIZE];
      state := [s1, s2] + seq(NUM_VARS - 2, _ => 0);
      length, remainder := 0, 0;
      message := [];
      seed1, seed2 := s1, s2;
    }

    /** memcpy into the buffer. */
    method Store(at: nat, bytes: seq<byte>)
      requires at + |bytes| <= data.Length
      modifies data
      ensures forall k :: 0 <= k < data.Length ==> data[k] == if at <= k < at + |bytes| then bytes[k - at] else old(data[k])
    {
      for i := 0 to |bytes|
        invariant forall k :: 0 <= k < data.Length ==> data[k] == if at <= k < at + i then bytes[k - at] else old(data[k])
      {
        data[at + i] := bytes[i];
      }
    }

    /** memcpy behind the bytes already kept. */
    method Keep(n: nat, bytes: seq<byte>)
      requires n + |bytes| <= data.Length
      modifies data
      ensures data[..n + |bytes|] == old(data[..n]) + bytes
    {
      Store(n, bytes);
    }

    /** Update: a piece of the message. */
    method Update(piece: seq<byte>)
      requires Valid()
      modifies this, data
      ensures Valid() && message == old(message) + piece
    {
      hide Holds, Mixed, Start, Mix, Words;
      ghost var kept, all := data[..remainder], data[..remainder] + piece;
      if remainder + |piece| < BUF_SIZE {
        Stash(state, kept, message, seed1, seed2, piece);
        Keep(remainder, piece);
        length := |piece| + length;
        remainder := remainder + |piece|;
        message := message + piece;
        return;
      }
      StateSize(state, kept, message, seed1, seed2);
      var h: Vars := if length < BUF_SIZE then Start(state[0], state[1]) else state;
      ghost var h0 := h;
      length := |piece| + length;
      var rest := piece;
      ghost var done := 0;
      if remainder != 0 {
        var prefix := BUF_SIZE - remainder;
        Keep(remainder, piece[..prefix]);
        h := MixBlocks(data[..BUF_SIZE], 2, h);
        rest := piece[prefix..];
        done := 2;
        Refilled(kept, piece, prefix, data[..BUF_SIZE]);
        MixedAppend(h0, data[..BUF_SIZE], 2, rest, |rest| / BLOCK_SIZE);
      } else {
        assert all == piece;
      }
      var n := |rest| / BLOCK_SIZE;
      h := MixBlocks(rest, n, h);
      var left := rest[n * BLOCK_SIZE..];
      Keep(0, left);
      LeftOver(all, rest, done, n);
      Swallow(state, kept, message, seed1, seed2, piece, done + n, h);
      remainder := |left|;
      state := h;
      message := message + piece;
      assert data[..0] + left == left;
    }

    /** Final: the hash of all pieces so far. Only bytes behind the kept ones are written. */
    method Final() returns (h: Hash)
      requires Valid()
      modifies data
      ensures Valid() && h == HashOf(message, seed1, seed2)
      ensures data[..remainder] == old(data[..remainder])
    {
      hide Holds, Mixed, Start, Mix, Words, ShortHash, End;
      ghost var kept := data[..remainder];
      StateSize(state, kept, message, seed1, seed2);
      if length < BUF_SIZE {
        h := Short(data[..length], state[0], state[1]);
        return;
      }
      FinalIsHash(state, kept, message, seed1, seed2);
      var v: Vars, at, left := state, 0, remainder;
      if left >= BLOCK_SIZE {
        v := Mix(Words(data[..BLOCK_SIZE]), v);
        at := BLOCK_SIZE;
        left := left - BLOCK_SIZE;
        assert kept[..BLOCK_SIZE] == data[..BLOCK_SIZE];
      }
      Store(at + left, seq(BLOCK_SIZE - left, _ => 0));
      Store(at + BLOCK_SIZE - 1, [left]);
      assert data[..remainder] == kept;
      PaddedIs(data[at..at + BLOCK_SIZE], kept[at..]);
      var e := End(Words(data[at..at + BLOCK_SIZE]), v);
      h := Hash(e[0], e[1]);
      assert kept[0..] == kept;
    }
  }

  lemma PaddedIs(b: seq<byte>, rest: seq<byte>)
    requires |b| == BLOCK_SIZE && |rest| < BLOCK_SIZE && b[..|rest|] == rest && b[BLOCK_SIZE - 1] == |rest|
    requires forall k :: |rest| <= k < BLOCK_SIZE - 1 ==> b[k] == 0
    ensures b == Padded(rest)
  {
  }

  lemma StateSize(state: seq<bv64>, kept: seq<byte>, message: seq<byte>, seed1: bv64, seed2: bv64)
    requires Holds(state, kept, message, seed1, seed2)
    ensures |state| == NUM_VARS
    ensures |message| < BUF_SIZE ==> state[0] == seed1 && state[1] == seed2 && kept == message
  {
  }

  /** The kept bytes filled up from the piece, and the rest of the piece. */
  lemma Refilled(kept: seq<byte>, piece: seq<byte>, prefix: nat, full: seq<byte>)
    requires prefix <= |piece| && full == kept + piece[..prefix]
    ensures kept + piece == full + piece[prefix..]
  {
  }

  /** What is left when all whole blocks of the rest are done, done of them having come before. */
  lemma LeftOver(all: seq<byte>, rest: seq<byte>, done: nat, n: nat)
    requires n == |rest| / BLOCK_SIZE && |all| == |rest| + done * BLOCK_SIZE && all[done * BLOCK_SIZE..] == rest
    ensures |all| / BLOCK_SIZE == done + n && all[(done + n) * BLOCK_SIZE..] == rest[n * BLOCK_SIZE..]
  {
    SameBlocks(|all|, |rest|, done, n);
  }

  lemma SameBlocks(all: nat, rest: nat, done: nat, n: nat)
    requires n == rest / BLOCK_SIZE && all == rest + done * BLOCK_SIZE
    ensures all / BLOCK_SIZE == done + n && (done + n) * BLOCK_SIZE == done * BLOCK_SIZE + n * BLOCK_SIZE <= all
  {
  }
}

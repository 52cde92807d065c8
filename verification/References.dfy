/** Which repeats LZFX and FastLZ send as references. */
module References {
  import opened Bits
  import opened LzfFormat
  import opened Repeats
  import opened Tokens
  import F = FastLz
  import X = Lzfx

  // ---- LZFX

  /** A repeat of what starts at the place entered last, up to 8192 bytes back and not at the very start, is sent as
      far as it goes, but for at most 264 bytes and not into the last two. */
  lemma RepeatIsSent(input: seq<byte>, ip: nat, table: seq<int>, p: nat)
    requires ip + 4 < |input| && |table| == 65536 && table[X.SlotOf(input, ip)] == p
    requires 0 < p < ip <= p + 8192 && Agrees(input, ip, ip - p, 3)
    ensures var ts := X.Sent(input, ip, table);
      && ts != [] && ts[0].Copy? && ts[0].distance == ip - p && 3 <= ts[0].len <= 264
      && ip + ts[0].len <= |input| - 2 && Agrees(input, ip, ip - p, ts[0].len)
      && (ts[0].len == 264 || ip + ts[0].len == |input| - 2 || input[ip + ts[0].len] != input[p + ts[0].len])
  {
    hide X.Sent, X.SlotOf, Common;
    assert input[ip] == input[ip - (ip - p)] && input[ip + 1] == input[ip + 1 - (ip - p)] && input[ip + 2] == input[ip + 2 - (ip - p)];
    X.SentCopy(input, ip, table);
    X.RepeatedLength(input, ip, p);
  }

  /** Only such repeats are. */
  lemma OnlyRepeatsAreSent(input: seq<byte>, ip: nat, table: seq<int>)
    requires ip < |input| && |table| == 65536
    requires var p := if ip + 2 < |input| then table[X.SlotOf(input, ip)] else -1;
      !(ip + 4 < |input| && 0 < p < ip <= p + 8192 && Agrees(input, ip, ip - p, 3))
    ensures X.Sent(input, ip, table) != [] && X.Sent(input, ip, table)[0] == Literal(input[ip])
  {
    hide X.Sent, X.SlotOf;
    if ip + 2 < |input| {
      var p := table[X.SlotOf(input, ip)];
      if X.Repeated(input, ip, p) {
        X.ThreeAgree(input, ip, ip - p);
      }
      X.SentLiteral(input, ip, table);
    } else {
      X.SentRest(input, ip, table);
    }
  }

  ghost predicate AllEqual(input: seq<byte>, z: byte) {
    forall i :: 0 <= i < |input| ==> input[i] == z
  }

  /** n times z, where z stands in front already: copies of at most 264 bytes, and the last few as they are. */
  function EqualSent(z: byte, n: nat): seq<Token> {
    if n < 5 then seq(n, _ => Literal(z))
    else var len := if n - 2 < 264 then n - 2 else 264; [Copy(1, len)] + EqualSent(z, n - len)
  }

  lemma EqualSlots(input: seq<byte>, z: byte, p: nat, q: nat)
    requires AllEqual(input, z) && p + 2 < |input| && q + 2 < |input|
    ensures X.SlotOf(input, p) == X.SlotOf(input, q)
  {
    assert input[p] == input[q] && input[p + 1] == input[q + 1] && input[p + 2] == input[q + 2];
  }

  lemma EqualCommon(input: seq<byte>, z: byte, q: nat, p: nat)
    requires AllEqual(input, z) && p < q <= |input|
    ensures Common(input, q, p) == |input| - q
  {
    CommonIs(input, q, p, |input| - q);
  }

  lemma EqualRest(input: seq<byte>, z: byte, ip: nat, table: seq<int>)
    requires AllEqual(input, z) && ip <= |input| <= ip + 2 && |table| == X.HSIZE
    ensures X.Sent(input, ip, table) == EqualSent(z, |input| - ip)
  {
    assert Literals(input[ip..]) == seq(|input| - ip, _ => Literal(z));
  }

  lemma SlotsAll()
    ensures X.HSIZE == 65536
  {
  }

  lemma {:induction false} EqualGoesOn(input: seq<byte>, z: byte, ip: nat, table: seq<int>)
    requires AllEqual(input, z) && 2 <= ip <= |input| && |table| == X.HSIZE
    requires ip + 2 < |input| ==> table[X.SlotOf(input, ip)] == ip - 1
    ensures X.Sent(input, ip, table) == EqualSent(z, |input| - ip)
    decreases |input| - ip
  {
    hide X.Sent, X.SlotOf, Common, X.HSIZE;
    var n := |input| - ip;
    SlotsAll();
    if n <= 2 {
      EqualRest(input, z, ip, table);
    } else {
      var h := X.SlotOf(input, ip);
      EqualCommon(input, z, ip, ip - 1);
      if n < 5 {
        X.SentLiteral(input, ip, table);
        if n > 3 {
          EqualSlots(input, z, ip, ip + 1);
        }
        EqualGoesOn(input, z, ip + 1, table[h := ip]);
        assert [Literal(z)] + seq(n - 1, _ => Literal(z)) == seq(n, _ => Literal(z));
      } else {
        X.SentCopy(input, ip, table);
        var end := ip + X.RefLength(input, ip, ip - 1);
        EqualSlots(input, z, ip, end - 1);
        if end + 2 < |input| {
          EqualSlots(input, z, ip, end);
        }
        EqualGoesOn(input, z, end, table[h := ip][X.SlotOf(input, end - 1) := end - 1]);
      }
    }
  }

  /** Equal bytes: two of them as they are, and the rest from one byte before. */
  lemma EqualBytesLzfx(input: seq<byte>, z: byte)
    requires AllEqual(input, z) && |input| >= 2
    ensures X.Sent(input, 0, seq(65536, _ => -1)) == [Literal(z), Literal(z)] + EqualSent(z, |input| - 2)
  {
    hide X.Sent, X.SlotOf, X.HSIZE, EqualSent;
    SlotsAll();
    var t := seq(65536, _ => -1);
    if |input| == 2 {
      EqualTwo(input, z, t);
    } else {
      var h := X.SlotOf(input, 0);
      X.SentLiteral(input, 0, t);
      if |input| == 3 {
        EqualTwo(input, z, t[h := 0]);
        EqualRest(input, z, 1, t[h := 0]);
        EqualThree(z);
      } else {
        EqualSlots(input, z, 0, 1);
        X.SentLiteral(input, 1, t[h := 0]);
        if |input| > 4 {
          EqualSlots(input, z, 0, 2);
        }
        EqualGoesOn(input, z, 2, t[h := 0][h := 1]);
        assert [Literal(z)] + ([Literal(z)] + EqualSent(z, |input| - 2)) == [Literal(z), Literal(z)] + EqualSent(z, |input| - 2);
      }
    }
  }

  lemma EqualThree(z: byte)
    ensures [Literal(z)] + EqualSent(z, 2) == [Literal(z), Literal(z)] + EqualSent(z, 1)
  {
    assert EqualSent(z, 2) == [Literal(z), Literal(z)] && EqualSent(z, 1) == [Literal(z)];
  }

  lemma EqualTwo(input: seq<byte>, z: byte, table: seq<int>)
    requires AllEqual(input, z) && |table| == 65536
    ensures |input| == 2 ==> X.Sent(input, 0, table) == [Literal(z), Literal(z)] + EqualSent(z, 0)
  {
    if |input| == 2 {
      assert Literals(input[0..]) == [Literal(z), Literal(z)] + EqualSent(z, 0);
    }
  }

  /** A value of the hash. */
  lemma LzfxHashValue(input: seq<byte>)
    requires 3 <= |input| && input[..3] == [1, 2, 3]
    ensures X.SlotOf(input, 0) == 0xFEFF
  {
    assert input[0] == input[..3][0] && input[1] == input[..3][1] && input[2] == input[..3][2];
  }

  // ---- FastLZ

  /** What is sent begins with a copy from d bytes back: of all that agrees, but at level 1 of 262 bytes at most if
      there are more than 264, and never up to the last three bytes unless twelve agree before them. */
  ghost predicate BeginsWithCopy(level: nat, ts: seq<Token>, input: seq<byte>, ip: nat, d: nat) {
    && ts != [] && ts[0].Copy? && ts[0].distance == d && Agrees(input, ip, d, ts[0].len) && ts[0].len >= 3
    && ip + ts[0].len < |input|
    && ((level == 1 && ts[0].len == 262)
        || ip + ts[0].len == |input| - 3 || (ts[0].len >= 10 && |input| - 3 - ip <= 12)
        || input[ip + ts[0].len] != input[ip + ts[0].len - d])
  }

  lemma FirstPiece(level: nat, d: nat, m: nat, more: seq<Token>)
    ensures var ts := F.Pieces(level, d, m) + more;
      && ts != [] && ts[0].Copy? && ts[0].distance == d && ts[0].len <= m
      && (ts[0].len == m || (level == 1 && ts[0].len == 262))
  {
  }

  lemma SizeEnds(input: seq<byte>, ip: nat, d: nat, known: nat)
    requires ip + 12 < |input| && (known == 3 || known == 5) && Agrees(input, ip, d, known)
    ensures var m := F.MatchSize(input, ip, d, known);
      && known <= m && Agrees(input, ip, d, m) && ip + m < |input|
      && (ip + m == |input| - 3 || (m >= 10 && |input| - 3 - ip <= 12) || input[ip + m] != input[ip + m - d])
  {
    hide Common;
    F.SizeKnown(input, ip, d, known);
  }

  lemma MatchedIs(level: nat, input: seq<byte>, ip: nat, d: nat, m: nat, table: seq<nat>)
    requires 1 <= ip && 2 <= m && ip + m <= |input| && |table| == F.HASH_SIZE
    ensures F.Matched(level, input, ip, d, m, table) == F.Pieces(level, d, m) + F.Sent(level, input, ip + m, F.Ended(input, ip + m, table))
  {
    hide F.Sent, F.Pieces, F.Ended;
  }

  lemma MatchBegins(level: nat, input: seq<byte>, ip: nat, d: nat, known: nat, table: seq<nat>)
    requires 1 <= ip && ip + 12 < |input| && (known == 3 || known == 5) && Agrees(input, ip, d, known) && |table| == F.HASH_SIZE
    requires 1 <= d <= ip
    ensures F.MatchSize(input, ip, d, known) >= 3
    ensures BeginsWithCopy(level, F.Matched(level, input, ip, d, F.MatchSize(input, ip, d, known), table), input, ip, d)
  {
    hide F.Sent, F.MatchSize, F.Pieces, F.Ended, F.Matched, Agrees;
    SizeEnds(input, ip, d, known);
    var m := F.MatchSize(input, ip, d, known);
    var rest := F.Sent(level, input, ip + m, F.Ended(input, ip + m, table));
    MatchedIs(level, input, ip, d, m, table);
    FirstPiece(level, d, m, rest);
    AgreesLess(input, ip, d, m, (F.Pieces(level, d, m) + rest)[0].len);
  }

  lemma AgreesLess(input: seq<byte>, p: nat, d: nat, n: nat, k: nat)
    requires Agrees(input, p, d, n) && k <= n
    ensures Agrees(input, p, d, k)
  {
  }

  /** Three bytes that stand at the place entered last as well are sent as a copy, if that place is less than 8192
      bytes back; at level 2 less than 8191, or less than 73725 if it is five bytes. */
  lemma FastRepeatIsSent(level: nat, input: seq<byte>, ip: nat, table: seq<nat>, p: nat)
    requires 1 <= ip && ip + 12 < |input| && |table| == 8192 && table[F.SlotAt(input, ip)] == p < ip
    requires if level == 1 then ip - p < 8192 && Agrees(input, ip, ip - p, 3)
             else ip - p < 73725 && Agrees(input, ip, ip - p, if level == 2 && ip - p >= 8191 then 5 else 3)
    requires level == 2 ==> !(input[ip - 1] == input[ip] == input[ip + 1] == input[ip + 2])
    ensures BeginsWithCopy(level, F.Sent(level, input, ip, table), input, ip, ip - p)
  {
    hide *;
    RunIs(level, input, ip);
    RepeatedIs(level, input, ip, p);
    F.SentCopy(level, input, ip, table);
    MatchBegins(level, input, ip, ip - p, F.Known(level, ip - p), table[F.SlotAt(input, ip) := ip]);
  }

  lemma RepeatedIs(level: nat, input: seq<byte>, ip: nat, p: nat)
    requires p < ip
    requires if level == 1 then ip - p < 8192 && Agrees(input, ip, ip - p, 3)
             else ip - p < 73725 && Agrees(input, ip, ip - p, if level == 2 && ip - p >= 8191 then 5 else 3)
    ensures F.Repeated(level, input, ip, p) && F.HASH_SIZE == 8192
    ensures Agrees(input, ip, ip - p, F.Known(level, ip - p)) && (F.Known(level, ip - p) == 3 || F.Known(level, ip - p) == 5)
  {
  }

  lemma RunIs(level: nat, input: seq<byte>, ip: nat)
    requires 1 <= ip && ip + 2 < |input|
    ensures F.RunHere(level, input, ip) <==> level == 2 && input[ip - 1] == input[ip] == input[ip + 1] == input[ip + 2]
  {
    var a, b := input[ip - 1..ip + 1], input[ip + 1..ip + 3];
    assert a[0] == input[ip - 1] && a[1] == input[ip] && b[0] == input[ip + 1] && b[1] == input[ip + 2];
  }

  /** At level 2 the byte before, three more times, is sent as a copy whatever has been entered. */
  lemma FastRunIsSent(input: seq<byte>, ip: nat, table: seq<nat>)
    requires 1 <= ip && ip + 12 < |input| && |table| == 8192 && input[ip - 1] == input[ip] == input[ip + 1] == input[ip + 2]
    ensures BeginsWithCopy(2, F.Sent(2, input, ip, table), input, ip, 1)
  {
    RunIs(2, input, ip);
    F.RunAgrees(input, ip);
    hide F.Sent, F.MatchSize, F.Matched, F.RunHere, BeginsWithCopy;
    F.SentRun(2, input, ip, table);
    MatchBegins(2, input, ip, 1, 3, table);
  }

  lemma FastCommon(input: seq<byte>, z: byte, ip: nat, d: nat)
    requires AllEqual(input, z) && 1 <= d <= ip && ip + 12 < |input|
    ensures Agrees(input, ip, d, 3) && F.MatchSize(input, ip, d, 3) == |input| - 3 - ip
  {
    hide Common;
    EqualCommon(input, z, ip, ip - d);
  }

  /** Equal bytes: two of them as they are, all but three of the rest from one byte before, at level 1 from two
      and in pieces, and the last three as they are. */
  lemma EqualBytesFast(level: nat, input: seq<byte>, z: byte)
    requires AllEqual(input, z) && |input| >= 15 && (level == 1 || level == 2)
    ensures F.AllSent(level, input)
         == [Literal(z), Literal(z)] + F.Pieces(level, if level == 2 then 1 else 2, |input| - 5) + [Literal(z), Literal(z), Literal(z)]
  {
    hide F.MatchSize, F.SlotAt, F.Pieces, F.Ended, F.Sent, F.HASH_SIZE;
    var t, n := seq(F.HASH_SIZE, _ => 0), |input|;
    var d := if level == 2 then 1 else 2;
    FastCommon(input, z, 2, d);
    RunIs(level, input, 2);
    Slots(input, 2);
    if level == 2 {
      F.SentRun(level, input, 2, t);
      LastThree(level, input, z, F.Ended(input, n - 3, t));
    } else {
      F.SentCopy(level, input, 2, t);
      LastThree(level, input, z, F.Ended(input, n - 3, t[F.SlotAt(input, 2) := 2]));
    }
    var ts, last := F.Pieces(level, d, n - 5), [Literal(z), Literal(z), Literal(z)];
    assert [Literal(z), Literal(z)] + (ts + last) == [Literal(z), Literal(z)] + ts + last;
  }

  lemma Slots(input: seq<byte>, ip: nat)
    ensures F.SlotAt(input, ip) < F.HASH_SIZE
  {
  }

  lemma LastThree(level: nat, input: seq<byte>, z: byte, table: seq<nat>)
    requires AllEqual(input, z) && |input| >= 15 && |table| == F.HASH_SIZE
    ensures F.Sent(level, input, |input| - 3, table) == [Literal(z), Literal(z), Literal(z)]
  {
    assert Literals(input[|input| - 3..]) == [Literal(z), Literal(z), Literal(z)];
  }

  lemma XorUp(x: nat, y: nat, r: nat, a: nat, b: nat)
    requires F.Xor(x, y) == r && a < 2 && b < 2
    ensures F.Xor(2 * x + a, 2 * y + b) == 2 * r + (a + b) % 2
  {
  }

  lemma XorZero()
    ensures F.Xor(0, 0) == 0
  {
  }

  lemma XorInner()
    ensures F.Xor(770, 64) == 834
  {
    XorZero();
    hide F.Xor;
    XorUp(0, 0, 0, 1, 0);
    XorUp(1, 0, 1, 1, 0);
    XorUp(3, 0, 3, 0, 0);
    XorUp(6, 0, 6, 0, 1);
    XorUp(12, 1, 13, 0, 0);
    XorUp(24, 2, 26, 0, 0);
    XorUp(48, 4, 52, 0, 0);
    XorUp(96, 8, 104, 0, 0);
    XorUp(192, 16, 208, 1, 0);
    XorUp(385, 32, 417, 0, 0);
  }

  lemma XorOuter()
    ensures F.Xor(513, 834) == 323
  {
    XorZero();
    hide F.Xor;
    XorUp(0, 0, 0, 1, 1);
    XorUp(1, 1, 0, 0, 1);
    XorUp(2, 3, 1, 0, 0);
    XorUp(4, 6, 2, 0, 1);
    XorUp(8, 13, 5, 0, 0);
    XorUp(16, 26, 10, 0, 0);
    XorUp(32, 52, 20, 0, 0);
    XorUp(64, 104, 40, 0, 0);
    XorUp(128, 208, 80, 0, 1);
    XorUp(256, 417, 161, 1, 0);
  }

  /** A value of the hash. */
  lemma FastHashValue()
    ensures F.HashOf(1, 2, 3) == 0x143
  {
    hide F.Xor;
    XorInner();
    XorOuter();
  }
}

/** No byte of a message is ignored by SpookyHash: messages that differ in one place leave
    different states behind, of which the hash is the first two words. */
module SpookyStates {
  import opened Bits
  import opened SpookyHash

  // ---- Words: sums, exclusive ors and rotations can be undone

  function Sub64(x: bv64, y: bv64): bv64 {
    x - y
  }

  lemma SubRaw(x: bv64, z: bv64)
    ensures Sub64(x + z, z) == x
  {
  }

  lemma AddRaw(x: bv64, z: bv64)
    ensures Add64(x, z) == x + z
  {
  }

  lemma SubAdd(x: bv64, z: bv64)
    ensures Sub64(Add64(x, z), z) == x
  {
    hide *;
    SubRaw(x, z);
    AddRaw(x, z);
  }

  lemma AddBack(x: bv64, y: bv64, z: bv64)
    requires Add64(x, z) == Add64(y, z)
    ensures x == y
  {
    hide *;
    SubAdd(x, z);
    SubAdd(y, z);
  }

  lemma AddSwap(x: bv64, y: bv64)
    ensures Add64(x, y) == Add64(y, x)
  {
  }

  lemma AddBackRight(x: bv64, y: bv64, z: bv64)
    requires Add64(z, x) == Add64(z, y)
    ensures x == y
  {
    hide *;
    AddSwap(z, x);
    AddSwap(z, y);
    AddBack(x, y, z);
  }

  lemma XorBack(x: bv64, y: bv64, z: bv64)
    requires Xor64(x, z) == Xor64(y, z)
    ensures x == y
  {
  }

  lemma Rotation5(x: bv64, y: bv64)
    ensures Rot64(x, 5) == Rot64(y, 5) ==> x == y
    ensures Rot64(x, 9) == Rot64(y, 9) ==> x == y
  {
  }

  lemma Rotation10(x: bv64, y: bv64)
    ensures Rot64(x, 10) == Rot64(y, 10) ==> x == y
    ensures Rot64(x, 11) == Rot64(y, 11) ==> x == y
  {
  }

  lemma Rotation13(x: bv64, y: bv64)
    ensures Rot64(x, 13) == Rot64(y, 13) ==> x == y
    ensures Rot64(x, 15) == Rot64(y, 15) ==> x == y
  {
  }

  lemma Rotation17(x: bv64, y: bv64)
    ensures Rot64(x, 17) == Rot64(y, 17) ==> x == y
    ensures Rot64(x, 21) == Rot64(y, 21) ==> x == y
  {
  }

  lemma Rotation22(x: bv64, y: bv64)
    ensures Rot64(x, 22) == Rot64(y, 22) ==> x == y
    ensures Rot64(x, 25) == Rot64(y, 25) ==> x == y
  {
  }

  lemma Rotation26(x: bv64, y: bv64)
    ensures Rot64(x, 26) == Rot64(y, 26) ==> x == y
    ensures Rot64(x, 28) == Rot64(y, 28) ==> x == y
  {
  }

  lemma Rotation30(x: bv64, y: bv64)
    ensures Rot64(x, 30) == Rot64(y, 30) ==> x == y
    ensures Rot64(x, 31) == Rot64(y, 31) ==> x == y
  {
  }

  lemma Rotation32(x: bv64, y: bv64)
    ensures Rot64(x, 32) == Rot64(y, 32) ==> x == y
    ensures Rot64(x, 33) == Rot64(y, 33) ==> x == y
  {
  }

  lemma Rotation34(x: bv64, y: bv64)
    ensures Rot64(x, 34) == Rot64(y, 34) ==> x == y
    ensures Rot64(x, 36) == Rot64(y, 36) ==> x == y
  {
  }

  lemma Rotation37(x: bv64, y: bv64)
    ensures Rot64(x, 37) == Rot64(y, 37) ==> x == y
    ensures Rot64(x, 38) == Rot64(y, 38) ==> x == y
  {
  }

  lemma Rotation39(x: bv64, y: bv64)
    ensures Rot64(x, 39) == Rot64(y, 39) ==> x == y
    ensures Rot64(x, 41) == Rot64(y, 41) ==> x == y
  {
  }

  lemma Rotation42(x: bv64, y: bv64)
    ensures Rot64(x, 42) == Rot64(y, 42) ==> x == y
    ensures Rot64(x, 43) == Rot64(y, 43) ==> x == y
  {
  }

  lemma Rotation44(x: bv64, y: bv64)
    ensures Rot64(x, 44) == Rot64(y, 44) ==> x == y
    ensures Rot64(x, 46) == Rot64(y, 46) ==> x == y
  {
  }

  lemma Rotation47(x: bv64, y: bv64)
    ensures Rot64(x, 47) == Rot64(y, 47) ==> x == y
    ensures Rot64(x, 48) == Rot64(y, 48) ==> x == y
  {
  }

  lemma Rotation50(x: bv64, y: bv64)
    ensures Rot64(x, 50) == Rot64(y, 50) ==> x == y
    ensures Rot64(x, 51) == Rot64(y, 51) ==> x == y
  {
  }

  lemma Rotation52(x: bv64, y: bv64)
    ensures Rot64(x, 52) == Rot64(y, 52) ==> x == y
    ensures Rot64(x, 53) == Rot64(y, 53) ==> x == y
  {
  }

  lemma Rotation54(x: bv64, y: bv64)
    ensures Rot64(x, 54) == Rot64(y, 54) ==> x == y
    ensures Rot64(x, 55) == Rot64(y, 55) ==> x == y
  {
  }

  lemma Rotation57(x: bv64, y: bv64)
    ensures Rot64(x, 57) == Rot64(y, 57) ==> x == y
    ensures Rot64(x, 62) == Rot64(y, 62) ==> x == y
  {
  }

  lemma Rotation63(x: bv64, y: bv64)
    ensures Rot64(x, 63) == Rot64(y, 63) ==> x == y
  {
  }

  lemma MixRotation(k: nat, x: bv64, y: bv64)
    requires k < 12 && MIX_ROTATIONS[k] <= 64 && Rot64(x, MIX_ROTATIONS[k]) == Rot64(y, MIX_ROTATIONS[k])
    ensures x == y
  {
    hide Rot64;
    if k == 0 {
      Rotation10(x, y);
    } else if k == 1 {
      Rotation32(x, y);
    } else if k == 2 {
      Rotation42(x, y);
    } else if k == 3 {
      Rotation30(x, y);
    } else if k == 4 {
      Rotation17(x, y);
    } else if k == 5 {
      Rotation26(x, y);
    } else if k == 6 {
      Rotation39(x, y);
    } else if k == 7 {
      Rotation57(x, y);
    } else if k == 8 || k == 9 {
      Rotation54(x, y);
    } else if k == 10 {
      Rotation22(x, y);
    } else if k == 11 {
      Rotation44(x, y);
    }
  }

  lemma EndRotation(k: nat, x: bv64, y: bv64)
    requires k < 12 && END_ROTATIONS[k] <= 64 && Rot64(x, END_ROTATIONS[k]) == Rot64(y, END_ROTATIONS[k])
    ensures x == y
  {
    hide Rot64;
    if k == 0 {
      Rotation44(x, y);
    } else if k == 1 || k == 7 {
      Rotation13(x, y);
    } else if k == 2 {
      Rotation34(x, y);
    } else if k == 3 {
      Rotation17(x, y);
    } else if k == 4 || k == 8 {
      Rotation37(x, y);
    } else if k == 5 {
      Rotation32(x, y);
    } else if k == 6 {
      Rotation10(x, y);
    } else if k == 9 {
      Rotation52(x, y);
    } else if k == 10 {
      Rotation42(x, y);
    } else if k == 11 {
      Rotation54(x, y);
    }
  }

  lemma ShortRotation(k: nat, x: bv64, y: bv64)
    requires k < 12 && SHORT_ROTATIONS[k] <= 64 && Rot64(x, SHORT_ROTATIONS[k]) == Rot64(y, SHORT_ROTATIONS[k])
    ensures x == y
  {
    hide Rot64;
    if k == 0 {
      Rotation50(x, y);
    } else if k == 1 {
      Rotation52(x, y);
    } else if k == 2 {
      Rotation30(x, y);
    } else if k == 3 {
      Rotation39(x, y);
    } else if k == 4 {
      Rotation54(x, y);
    } else if k == 5 {
      Rotation47(x, y);
    } else if k == 6 || k == 7 {
      Rotation37(x, y);
    } else if k == 8 {
      Rotation57(x, y);
    } else if k == 9 || k == 11 {
      Rotation34(x, y);
    } else if k == 10 {
      Rotation5(x, y);
    }
  }

  lemma ShortEndRotation(k: nat, x: bv64, y: bv64)
    requires k < 11 && SHORT_END_ROTATIONS[k] <= 64 && Rot64(x, SHORT_END_ROTATIONS[k]) == Rot64(y, SHORT_END_ROTATIONS[k])
    ensures x == y
  {
    hide Rot64;
    if k == 0 {
      Rotation13(x, y);
    } else if k == 1 {
      Rotation52(x, y);
    } else if k == 2 || k == 4 {
      Rotation26(x, y);
    } else if k == 3 {
      Rotation50(x, y);
    } else if k == 5 {
      Rotation5(x, y);
    } else if k == 6 {
      Rotation47(x, y);
    } else if k == 7 {
      Rotation54(x, y);
    } else if k == 8 {
      Rotation32(x, y);
    } else if k == 9 {
      Rotation22(x, y);
    } else if k == 10 {
      Rotation63(x, y);
    }
  }

  // ---- Mix

  lemma MixLineOwn(s: Vars, w: bv64, k: nat)
    requires k < 12 && MIX_ROTATIONS[k] <= 64
    ensures MixLine(s, w, k)[k] == Rot64(Add64(s[k], w), MIX_ROTATIONS[k])
    ensures MixLine(s, w, k)[(k + 11) % 12] == Add64(Xor64(s[(k + 11) % 12], Add64(s[k], w)), s[(k + 1) % 12])
  {
    hide Rot64, Add64, Xor64;
  }

  lemma MixLineOther(s: Vars, w: bv64, k: nat)
    requires k < 12
    ensures MixLine(s, w, k)[(k + 2) % 12] == Xor64(s[(k + 2) % 12], s[(k + 10) % 12])
    ensures forall i :: 0 <= i < 12 && i != k && i != (k + 2) % 12 && i != (k + 11) % 12 ==> MixLine(s, w, k)[i] == s[i]
  {
    hide Rot64, Add64, Xor64;
  }

  lemma MixLineAt(s: Vars, w: bv64, k: nat)
    requires k < 12 && MIX_ROTATIONS[k] <= 64
    ensures MixLine(s, w, k)[k] == Rot64(Add64(s[k], w), MIX_ROTATIONS[k])
    ensures MixLine(s, w, k)[(k + 2) % 12] == Xor64(s[(k + 2) % 12], s[(k + 10) % 12])
    ensures MixLine(s, w, k)[(k + 11) % 12] == Add64(Xor64(s[(k + 11) % 12], Add64(s[k], w)), s[(k + 1) % 12])
    ensures forall i :: 0 <= i < 12 && i != k && i != (k + 2) % 12 && i != (k + 11) % 12 ==> MixLine(s, w, k)[i] == s[i]
  {
    hide *;
    MixLineOwn(s, w, k);
    MixLineOther(s, w, k);
  }

  /** A line of Mix can be undone but for its word and the variable the word is added to. */
  lemma MixLineBack(s: Vars, w: bv64, t: Vars, v: bv64, k: nat)
    requires k < 12 && MixLine(s, w, k) == MixLine(t, v, k)
    ensures Add64(s[k], w) == Add64(t[k], v)
    ensures forall i :: 0 <= i < 12 && i != k ==> s[i] == t[i]
  {
    hide MixLine, Rot64, Add64, Xor64;
    var k1, k2, k10, k11 := (k + 1) % 12, (k + 2) % 12, (k + 10) % 12, (k + 11) % 12;
    assert MIX_ROTATIONS[k] <= 64;
    MixLineAt(s, w, k);
    MixLineAt(t, v, k);
    MixRotation(k, Add64(s[k], w), Add64(t[k], v));
    XorBack(s[k2], t[k2], s[k10]);
    AddBack(Xor64(s[k11], Add64(s[k], w)), Xor64(t[k11], Add64(s[k], w)), s[k1]);
    XorBack(s[k11], t[k11], Add64(s[k], w));
  }

  lemma MixLineSameWord(s: Vars, t: Vars, w: bv64, k: nat)
    requires k < 12 && MixLine(s, w, k) == MixLine(t, w, k)
    ensures s == t
  {
    hide *;
    MixLineBack(s, w, t, w, k);
    AddBack(s[k], t[k], w);
  }

  lemma MixLineSameState(s: Vars, w: bv64, v: bv64, k: nat)
    requires k < 12 && MixLine(s, w, k) == MixLine(s, v, k)
    ensures w == v
  {
    hide *;
    MixLineBack(s, w, s, v, k);
    AddBackRight(w, v, s[k]);
  }

  lemma {:induction false} MixLinesSame(s: Vars, t: Vars, data: Vars, k: nat)
    requires k <= 12 && MixLines(s, data, k) == MixLines(t, data, k)
    ensures s == t
  {
    hide MixLine;
    if k > 0 {
      MixLineSameWord(MixLines(s, data, k - 1), MixLines(t, data, k - 1), data[k - 1], k - 1);
      MixLinesSame(s, t, data, k - 1);
    }
  }

  /** Blocks that differ in the first word only leave different states. */
  lemma {:induction false} MixFirstWord(s: Vars, a: Vars, b: Vars, k: nat)
    requires 1 <= k <= 12 && a[1..] == b[1..] && MixLines(s, a, k) == MixLines(s, b, k)
    ensures a == b
  {
    hide MixLine;
    if k == 1 {
      assert MixLines(s, a, 0) == s && MixLines(s, b, 0) == s;
      MixLineSameState(s, a[0], b[0], 0);
      assert a == [a[0]] + a[1..] && b == [b[0]] + b[1..];
    } else {
      assert a[k - 1] == a[1..][k - 2] == b[1..][k - 2] == b[k - 1];
      MixLineSameWord(MixLines(s, a, k - 1), MixLines(s, b, k - 1), a[k - 1], k - 1);
      MixFirstWord(s, a, b, k - 1);
    }
  }

  /** Until two lines before its own, a variable is as the first line left it. */
  lemma {:induction false} Untouched(s: Vars, data: Vars, i: nat, k: nat)
    requires 1 <= i && i + 2 <= k < 12
    ensures MixLines(s, data, i)[k] == MixLines(s, data, 1)[k]
  {
    hide MixLine;
    if i > 1 {
      Untouched(s, data, i - 1, k);
      Unchanged(MixLines(s, data, i - 1), data[i - 1], i - 1, k);
    }
  }

  lemma Unchanged(s: Vars, w: bv64, j: nat, i: nat)
    requires j < 12 && i < 12 && i != j && i != (j + 2) % 12 && i != (j + 11) % 12
    ensures MixLine(s, w, j)[i] == s[i]
  {
    hide MixLine, Rot64, Add64, Xor64;
    assert MIX_ROTATIONS[j] <= 64;
    MixLineAt(s, w, j);
  }

  lemma XorLine(s: Vars, w: bv64, j: nat)
    requires j < 12
    ensures MixLine(s, w, j)[(j + 2) % 12] == Xor64(s[(j + 2) % 12], s[(j + 10) % 12])
  {
    hide MixLine, Rot64, Add64, Xor64;
    assert MIX_ROTATIONS[j] <= 64;
    MixLineAt(s, w, j);
  }

  lemma MixLinesStep(s: Vars, data: Vars, k: nat)
    requires 1 <= k <= 12
    ensures MixLines(s, data, k) == MixLine(MixLines(s, data, k - 1), data[k - 1], k - 1)
  {
  }

  /** When its own line comes, a variable is the one four places before it, itself as the first line left it. */
  lemma OwnLine(s: Vars, data: Vars, k: nat)
    requires 3 <= k < 12
    ensures MixLines(s, data, k)[k] == Xor64(MixLines(s, data, 1)[k], MixLines(s, data, k)[(k + 8) % 12])
  {
    hide *;
    var x, y := MixLines(s, data, k - 2), MixLines(s, data, k - 1);
    MixLinesStep(s, data, k - 1);
    MixLinesStep(s, data, k);
    Untouched(s, data, k - 2, k);
    XorLine(x, data[k - 2], k - 2);
    Unchanged(x, data[k - 2], k - 2, (k + 8) % 12);
    Unchanged(y, data[k - 1], k - 1, k);
    Unchanged(y, data[k - 1], k - 1, (k + 8) % 12);
  }

  lemma OwnLine2(s: Vars, data: Vars, k: nat)
    requires 1 <= k < 3
    ensures MixLines(s, data, k)[k] == MixLines(s, data, 1)[k]
  {
    hide MixLine;
    if k == 2 {
      Unchanged(MixLines(s, data, 1), data[1], 1, 2);
    }
  }

  /** So equal states after the first line and just before a later one, but for its own variable, agree in that too. */
  lemma OwnAgrees(s: Vars, a: Vars, b: Vars, k: nat)
    requires 1 <= k < 12 && MixLines(s, a, 1) == MixLines(s, b, 1)
    requires forall i :: 0 <= i < 12 && i != k ==> MixLines(s, a, k)[i] == MixLines(s, b, k)[i]
    ensures MixLines(s, a, k) == MixLines(s, b, k)
  {
    hide *;
    if k < 3 {
      OwnLine2(s, a, k);
      OwnLine2(s, b, k);
    } else {
      OwnLine(s, a, k);
      OwnLine(s, b, k);
    }
  }

  /** Blocks with the same first word that leave the same state are the same. */
  lemma {:induction false} MixOtherWords(s: Vars, a: Vars, b: Vars, k: nat)
    requires 1 <= k <= 12 && a[0] == b[0] && MixLines(s, a, k) == MixLines(s, b, k)
    ensures a[..k] == b[..k]
  {
    hide MixLine;
    if k == 1 {
      assert a[..1] == [a[0]] && b[..1] == [b[0]];
    } else {
      var x, y := MixLines(s, a, k - 1), MixLines(s, b, k - 1);
      assert MixLines(s, a, 0) == s && MixLines(s, b, 0) == s;
      MixLineBack(x, a[k - 1], y, b[k - 1], k - 1);
      OwnAgrees(s, a, b, k - 1);
      MixLineSameState(x, a[k - 1], b[k - 1], k - 1);
      MixOtherWords(s, a, b, k - 1);
      assert a[..k] == a[..k - 1] + [a[k - 1]] && b[..k] == b[..k - 1] + [b[k - 1]];
    }
  }

  /** Different states stay different when the same block is mixed in. */
  lemma MixStates(data: Vars, s: Vars, t: Vars)
    requires s != t
    ensures Mix(data, s) != Mix(data, t)
  {
    hide MixLines;
    if Mix(data, s) == Mix(data, t) {
      MixLinesSame(s, t, data, 12);
    }
  }

  /** Different blocks mixed into the same state leave different ones, if they agree in the first word
      or in all the others. */
  lemma MixBlocksDiffer(s: Vars, a: Vars, b: Vars)
    requires a != b && (a[0] == b[0] || a[1..] == b[1..])
    ensures Mix(a, s) != Mix(b, s)
  {
    hide MixLines;
    assert a[..12] == a && b[..12] == b;
    if Mix(a, s) == Mix(b, s) {
      if a[0] == b[0] {
        MixOtherWords(s, a, b, 12);
      } else {
        MixFirstWord(s, a, b, 12);
      }
    }
  }

  // ---- End

  lemma EndLineAt(s: Vars, k: nat)
    requires k < 12 && END_ROTATIONS[k] <= 64
    ensures EndLine(s, k)[(k + 1) % 12] == Rot64(s[(k + 1) % 12], END_ROTATIONS[k])
    ensures EndLine(s, k)[(k + 11) % 12] == Add64(s[(k + 11) % 12], s[(k + 1) % 12])
    ensures EndLine(s, k)[(k + 2) % 12] == Xor64(s[(k + 2) % 12], EndLine(s, k)[(k + 11) % 12])
    ensures forall i :: 0 <= i < 12 && i != (k + 1) % 12 && i != (k + 2) % 12 && i != (k + 11) % 12 ==> EndLine(s, k)[i] == s[i]
  {
    hide Rot64, Add64, Xor64;
  }

  lemma EndLineBack(s: Vars, t: Vars, k: nat)
    requires k < 12 && EndLine(s, k) == EndLine(t, k)
    ensures s == t
  {
    hide EndLine, Rot64, Add64, Xor64;
    var k1, k2, k11 := (k + 1) % 12, (k + 2) % 12, (k + 11) % 12;
    assert END_ROTATIONS[k] <= 64;
    EndLineAt(s, k);
    EndLineAt(t, k);
    EndRotation(k, s[k1], t[k1]);
    AddBack(s[k11], t[k11], s[k1]);
    XorBack(s[k2], t[k2], EndLine(s, k)[k11]);
  }

  lemma {:induction false} EndLinesBack(s: Vars, t: Vars, k: nat)
    requires k <= 12 && EndLines(s, k) == EndLines(t, k)
    ensures s == t
  {
    hide EndLine;
    if k > 0 {
      EndLineBack(EndLines(s, k - 1), EndLines(t, k - 1), k - 1);
      EndLinesBack(s, t, k - 1);
    }
  }

  lemma EndBack(a: Vars, s: Vars, b: Vars, t: Vars)
    requires End(a, s) == End(b, t)
    ensures forall i :: 0 <= i < 12 ==> Add64(s[i], a[i]) == Add64(t[i], b[i])
  {
    hide EndLines, Add64;
    var x: Vars := seq(12, i requires 0 <= i < 12 => Add64(s[i], a[i]));
    var y: Vars := seq(12, i requires 0 <= i < 12 => Add64(t[i], b[i]));
    EndLinesBack(EndLines(EndLines(x, 12), 12), EndLines(EndLines(y, 12), 12), 12);
    EndLinesBack(EndLines(x, 12), EndLines(y, 12), 12);
    EndLinesBack(x, y, 12);
    forall i | 0 <= i < 12 ensures Add64(s[i], a[i]) == Add64(t[i], b[i]) {
      assert x[i] == y[i];
    }
  }

  lemma EndStates(data: Vars, s: Vars, t: Vars)
    requires s != t
    ensures End(data, s) != End(data, t)
  {
    hide *;
    if End(data, s) == End(data, t) {
      EndBack(data, s, data, t);
      forall i | 0 <= i < 12 ensures s[i] == t[i] {
        AddBack(s[i], t[i], data[i]);
      }
    }
  }

  /** The last block may differ anywhere. */
  lemma EndBlocksDiffer(s: Vars, a: Vars, b: Vars)
    requires a != b
    ensures End(a, s) != End(b, s)
  {
    hide *;
    if End(a, s) == End(b, s) {
      EndBack(a, s, b, s);
      forall i | 0 <= i < 12 ensures a[i] == b[i] {
        AddBackRight(a[i], b[i], s[i]);
      }
    }
  }

  // ---- The short form

  lemma ShortMixLine0(s: Short4, t: Short4, k: nat)
    requires k < 12 && k % 4 == 0 && ShortMixLine(s, k) == ShortMixLine(t, k)
    ensures s == t
  {
    hide Rot64, Add64, Xor64;
    var r := SHORT_ROTATIONS[k];
    hide SHORT_ROTATIONS;
    AddBack(Rot64(s.c, r), Rot64(t.c, r), s.d);
    ShortRotation(k, s.c, t.c);
    XorBack(s.a, t.a, ShortMixLine(s, k).c);
  }

  lemma ShortMixLine1(s: Short4, t: Short4, k: nat)
    requires k < 12 && k % 4 == 1 && ShortMixLine(s, k) == ShortMixLine(t, k)
    ensures s == t
  {
    hide Rot64, Add64, Xor64;
    var r := SHORT_ROTATIONS[k];
    hide SHORT_ROTATIONS;
    AddBack(Rot64(s.d, r), Rot64(t.d, r), s.a);
    ShortRotation(k, s.d, t.d);
    XorBack(s.b, t.b, ShortMixLine(s, k).d);
  }

  lemma ShortMixLine2(s: Short4, t: Short4, k: nat)
    requires k < 12 && k % 4 == 2 && ShortMixLine(s, k) == ShortMixLine(t, k)
    ensures s == t
  {
    hide Rot64, Add64, Xor64;
    var r := SHORT_ROTATIONS[k];
    hide SHORT_ROTATIONS;
    AddBack(Rot64(s.a, r), Rot64(t.a, r), s.b);
    ShortRotation(k, s.a, t.a);
    XorBack(s.c, t.c, ShortMixLine(s, k).a);
  }

  lemma ShortMixLine3(s: Short4, t: Short4, k: nat)
    requires k < 12 && k % 4 == 3 && ShortMixLine(s, k) == ShortMixLine(t, k)
    ensures s == t
  {
    hide Rot64, Add64, Xor64;
    var r := SHORT_ROTATIONS[k];
    hide SHORT_ROTATIONS;
    AddBack(Rot64(s.b, r), Rot64(t.b, r), s.c);
    ShortRotation(k, s.b, t.b);
    XorBack(s.d, t.d, ShortMixLine(s, k).b);
  }

  lemma ShortMixLineBack(s: Short4, t: Short4, k: nat)
    requires k < 12 && ShortMixLine(s, k) == ShortMixLine(t, k)
    ensures s == t
  {
    hide *;
    if k % 4 == 0 {
      ShortMixLine0(s, t, k);
    } else if k % 4 == 1 {
      ShortMixLine1(s, t, k);
    } else if k % 4 == 2 {
      ShortMixLine2(s, t, k);
    } else {
      ShortMixLine3(s, t, k);
    }
  }

  lemma {:induction false} ShortMixBack(s: Short4, t: Short4, k: nat)
    requires k <= 12 && ShortMix(s, k) == ShortMix(t, k)
    ensures s == t
  {
    hide ShortMixLine;
    if k > 0 {
      ShortMixLineBack(ShortMix(s, k - 1), ShortMix(t, k - 1), k - 1);
      ShortMixBack(s, t, k - 1);
    }
  }

  lemma ShortEndLine0(s: Short4, t: Short4, k: nat)
    requires k < 11 && k % 4 == 0 && ShortEndLine(s, k) == ShortEndLine(t, k)
    ensures s == t
  {
    hide Rot64, Add64, Xor64;
    var r := SHORT_END_ROTATIONS[k];
    hide SHORT_END_ROTATIONS;
    ShortEndRotation(k, s.c, t.c);
    AddBack(Xor64(s.d, s.c), Xor64(t.d, s.c), Rot64(s.c, r));
    XorBack(s.d, t.d, s.c);
  }

  lemma ShortEndLine1(s: Short4, t: Short4, k: nat)
    requires k < 11 && k % 4 == 1 && ShortEndLine(s, k) == ShortEndLine(t, k)
    ensures s == t
  {
    hide Rot64, Add64, Xor64;
    var r := SHORT_END_ROTATIONS[k];
    hide SHORT_END_ROTATIONS;
    ShortEndRotation(k, s.d, t.d);
    AddBack(Xor64(s.a, s.d), Xor64(t.a, s.d), Rot64(s.d, r));
    XorBack(s.a, t.a, s.d);
  }

  lemma ShortEndLine2(s: Short4, t: Short4, k: nat)
    requires k < 11 && k % 4 == 2 && ShortEndLine(s, k) == ShortEndLine(t, k)
    ensures s == t
  {
    hide Rot64, Add64, Xor64;
    var r := SHORT_END_ROTATIONS[k];
    hide SHORT_END_ROTATIONS;
    ShortEndRotation(k, s.a, t.a);
    AddBack(Xor64(s.b, s.a), Xor64(t.b, s.a), Rot64(s.a, r));
    XorBack(s.b, t.b, s.a);
  }

  lemma ShortEndLine3(s: Short4, t: Short4, k: nat)
    requires k < 11 && k % 4 == 3 && ShortEndLine(s, k) == ShortEndLine(t, k)
    ensures s == t
  {
    hide Rot64, Add64, Xor64;
    var r := SHORT_END_ROTATIONS[k];
    hide SHORT_END_ROTATIONS;
    ShortEndRotation(k, s.b, t.b);
    AddBack(Xor64(s.c, s.b), Xor64(t.c, s.b), Rot64(s.b, r));
    XorBack(s.c, t.c, s.b);
  }

  lemma ShortEndLineBack(s: Short4, t: Short4, k: nat)
    requires k < 11 && ShortEndLine(s, k) == ShortEndLine(t, k)
    ensures s == t
  {
    hide *;
    if k % 4 == 0 {
      ShortEndLine0(s, t, k);
    } else if k % 4 == 1 {
      ShortEndLine1(s, t, k);
    } else if k % 4 == 2 {
      ShortEndLine2(s, t, k);
    } else {
      ShortEndLine3(s, t, k);
    }
  }

  lemma {:induction false} ShortEndBack(s: Short4, t: Short4, k: nat)
    requires k <= 11 && ShortEnd(s, k) == ShortEnd(t, k)
    ensures s == t
  {
    hide ShortEndLine;
    if k > 0 {
      ShortEndLineBack(ShortEnd(s, k - 1), ShortEnd(t, k - 1), k - 1);
      ShortEndBack(s, t, k - 1);
    }
  }

  lemma ShortHalfBack(s: Short4, w0: bv64, w1: bv64, t: Short4, v0: bv64, v1: bv64)
    requires ShortHalf(s, w0, w1) == ShortHalf(t, v0, v1)
    ensures s.a == t.a && s.b == t.b && Add64(s.c, w0) == Add64(t.c, v0) && Add64(s.d, w1) == Add64(t.d, v1)
  {
    hide ShortMix, Add64;
    ShortMixBack(s.(c := Add64(s.c, w0), d := Add64(s.d, w1)), t.(c := Add64(t.c, v0), d := Add64(t.d, v1)), 12);
  }

  lemma ShortHalfStates(s: Short4, t: Short4, w0: bv64, w1: bv64)
    requires s != t
    ensures ShortHalf(s, w0, w1) != ShortHalf(t, w0, w1)
  {
    hide *;
    if ShortHalf(s, w0, w1) == ShortHalf(t, w0, w1) {
      ShortHalfBack(s, w0, w1, t, w0, w1);
      AddBack(s.c, t.c, w0);
      AddBack(s.d, t.d, w1);
    }
  }

  lemma ShortHalfWords(s: Short4, w0: bv64, w1: bv64, v0: bv64, v1: bv64)
    requires w0 != v0 || w1 != v1
    ensures ShortHalf(s, w0, w1) != ShortHalf(s, v0, v1)
  {
    hide *;
    if ShortHalf(s, w0, w1) == ShortHalf(s, v0, v1) {
      ShortHalfBack(s, w0, w1, s, v0, v1);
      AddBackRight(w0, v0, s.c);
      AddBackRight(w1, v1, s.d);
    }
  }

  /** A round ends in two additions. */
  lemma ShortRoundStates(u: Short4, v: Short4, w2: bv64, w3: bv64)
    requires u != v
    ensures u.(a := Add64(u.a, w2), b := Add64(u.b, w3)) != v.(a := Add64(v.a, w2), b := Add64(v.b, w3))
  {
    hide *;
    if u.(a := Add64(u.a, w2), b := Add64(u.b, w3)) == v.(a := Add64(v.a, w2), b := Add64(v.b, w3)) {
      AddBack(u.a, v.a, w2);
      AddBack(u.b, v.b, w3);
    }
  }

  lemma ShortRoundWords(u: Short4, w2: bv64, w3: bv64, v2: bv64, v3: bv64)
    requires w2 != v2 || w3 != v3
    ensures u.(a := Add64(u.a, w2), b := Add64(u.b, w3)) != u.(a := Add64(u.a, v2), b := Add64(u.b, v3))
  {
    hide *;
    if u.(a := Add64(u.a, w2), b := Add64(u.b, w3)) == u.(a := Add64(u.a, v2), b := Add64(u.b, v3)) {
      AddBackRight(w2, v2, u.a);
      AddBackRight(w3, v3, u.b);
    }
  }

  // ---- Bytes and words

  function Ones(n: nat): bv64 {
    if n == 0 then 0 else (Ones(n - 1) << 1) | 1
  }

  lemma OnesStep(x: bv64, m: bv64, b: bv64)
    requires x <= m <= 0xFFFFFFFF && b <= 1
    ensures (x << 1) | b <= (m << 1) | 1
  {
  }

  lemma {:induction false} OnesSmall(n: nat)
    requires n <= 8
    ensures Ones(n) <= 0xFF
  {
    assert Ones(0) == 0 && Ones(1) == 1;
    assert Ones(2) == 3 && Ones(3) == 7;
    assert Ones(4) == 15 && Ones(5) == 31;
    assert Ones(6) == 63 && Ones(7) == 127 && Ones(8) == 255;
  }

  lemma {:induction false} BitsWordSmall(v: nat, n: nat)
    requires n <= 8
    ensures BitsWord(v, n) <= Ones(n)
  {
    if n > 0 {
      BitsWordSmall(v / 2, n - 1);
      OnesSmall(n - 1);
      OnesStep(BitsWord(v / 2, n - 1), Ones(n - 1), if v % 2 == 1 then 1 else 0);
    }
  }

  lemma BitBack(x: bv64, b: bv64, y: bv64, c: bv64)
    requires x <= 0xFF && y <= 0xFF && b <= 1 && c <= 1 && (x << 1) | b == (y << 1) | c
    ensures x == y && b == c
  {
  }

  lemma {:induction false} BitsWordBack(v: nat, w: nat, n: nat)
    requires n <= 8 && v < Pow2(n) && w < Pow2(n) && BitsWord(v, n) == BitsWord(w, n)
    ensures v == w
  {
    if n > 0 {
      BitsWordSmall(v / 2, n - 1);
      BitsWordSmall(w / 2, n - 1);
      OnesSmall(n - 1);
      BitBack(BitsWord(v / 2, n - 1), if v % 2 == 1 then 1 else 0, BitsWord(w / 2, n - 1), if w % 2 == 1 then 1 else 0);
      BitsWordBack(v / 2, w / 2, n - 1);
    }
  }

  lemma ByteBack(a: byte, b: byte)
    requires BitsWord(a, 8) == BitsWord(b, 8)
    ensures a == b
  {
    assert Pow2(8) == 256;
    hide *;
    BitsWordBack(a, b, 8);
  }

  /** Words of n bytes. */
  predicate Holds8(x: bv64, n: nat) {
    x <= (if n == 0 then 0 else if n == 1 then 0xFF else if n == 2 then 0xFFFF else if n == 3 then 0xFF_FFFF
          else if n == 4 then 0xFFFF_FFFF else if n == 5 then 0xFF_FFFF_FFFF else if n == 6 then 0xFFFF_FFFF_FFFF
          else 0xFF_FFFF_FFFF_FFFF)
  }

  lemma ByteSmall(a: byte)
    ensures Holds8(BitsWord(a, 8), 1)
  {
    BitsWordSmall(a, 8);
    OnesSmall(8);
    hide BitsWord, Ones;
  }

  lemma JoinedHolds(x: bv64, b: bv64, n: nat)
    requires n <= 6 && Holds8(x, n) && Holds8(b, 1)
    ensures Holds8(Joined(x, b), n + 1)
  {
    if n == 0 {
    } else if n == 1 {
    } else if n == 2 {
    } else if n == 3 {
    } else if n == 4 {
    } else if n == 5 {
    } else {
    }
  }

  lemma {:induction false} WordSmall(b: seq<byte>)
    requires |b| <= 7
    ensures Holds8(Word64(b), |b|)
  {
    assert Holds8(0, 0);
    hide BitsWord, Joined, Holds8;
    if b != [] {
      WordSmall(b[1..]);
      ByteSmall(b[0]);
      JoinedHolds(Word64(b[1..]), BitsWord(b[0], 8), |b| - 1);
    }
  }

  function Rest(x: bv64): bv64 {
    x >> 8
  }

  function First(x: bv64): bv64 {
    x & 0xFF
  }

  lemma Wide(x: bv64, n: nat)
    requires n <= 7 && Holds8(x, n)
    ensures Holds8(x, 7)
  {
  }

  lemma JoinedParts(x: bv64, b: bv64)
    requires Holds8(x, 7) && Holds8(b, 1)
    ensures Rest(Joined(x, b)) == x && First(Joined(x, b)) == b
  {
  }

  lemma JoinedBack(x: bv64, b: bv64, y: bv64, c: bv64, n: nat)
    requires n <= 7 && Holds8(x, n) && Holds8(b, 1) && Holds8(y, n) && Holds8(c, 1)
    requires Joined(x, b) == Joined(y, c)
    ensures x == y && b == c
  {
    hide *;
    Wide(x, n);
    Wide(y, n);
    JoinedParts(x, b);
    JoinedParts(y, c);
  }

  /** Up to eight bytes enter a word without loss. */
  lemma {:induction false} WordBack(a: seq<byte>, b: seq<byte>)
    requires |a| == |b| <= 8 && Word64(a) == Word64(b)
    ensures a == b
  {
    hide BitsWord, Joined, Holds8;
    if a != [] {
      WordSmall(a[1..]);
      WordSmall(b[1..]);
      ByteSmall(a[0]);
      ByteSmall(b[0]);
      JoinedBack(Word64(a[1..]), BitsWord(a[0], 8), Word64(b[1..]), BitsWord(b[0], 8), |a| - 1);
      ByteBack(a[0], b[0]);
      WordBack(a[1..], b[1..]);
      assert a == [a[0]] + a[1..] && b == [b[0]] + b[1..];
    }
  }

  lemma WordAtBack(a: seq<byte>, b: seq<byte>, i: nat)
    requires 8 * i + 8 <= |a| && 8 * i + 8 <= |b| && WordAt(a, i) == WordAt(b, i)
    ensures a[8 * i..8 * i + 8] == b[8 * i..8 * i + 8]
  {
    hide Word64;
    WordBack(a[8 * i..8 * i + 8], b[8 * i..8 * i + 8]);
  }

  /** The words of a block determine it. */
  lemma WordsBack(a: seq<byte>, b: seq<byte>)
    requires |a| == |b| == 96 && Words(a) == Words(b)
    ensures a == b
  {
    hide WordAt;
    forall j | 0 <= j < 96 ensures a[j] == b[j] {
      var i := j / 8;
      assert Words(a)[i] == Words(b)[i];
      WordAtBack(a, b, i);
      assert a[j] == a[8 * i..8 * i + 8][j % 8] && b[j] == b[8 * i..8 * i + 8][j % 8];
    }
  }

  lemma SubSlice(s: seq<byte>, from: nat, to: nat, x: nat, y: nat)
    requires from <= x <= y <= to <= |s|
    ensures s[from..to][x - from..y - from] == s[x..y]
  {
    forall k | 0 <= k < y - x ensures s[from..to][x - from..y - from][k] == s[x..y][k] {
      assert s[from..to][x - from + k] == s[x + k];
    }
  }

  lemma WordAtSame(a: seq<byte>, b: seq<byte>, from: nat, to: nat, i: nat)
    requires from <= 8 * i && 8 * i + 8 <= to <= |a| && to <= |b| && a[from..to] == b[from..to]
    ensures WordAt(a, i) == WordAt(b, i)
  {
    hide Word64;
    SubSlice(a, from, to, 8 * i, 8 * i + 8);
    SubSlice(b, from, to, 8 * i, 8 * i + 8);
  }

  /** Blocks that agree in the first eight bytes, or in all others. */
  lemma WordsAgree(a: seq<byte>, b: seq<byte>)
    requires |a| == |b| == 96
    ensures a[..8] == b[..8] ==> Words(a)[0] == Words(b)[0]
    ensures a[8..] == b[8..] ==> Words(a)[1..] == Words(b)[1..]
  {
    hide WordAt;
    if a[..8] == b[..8] {
      WordAtSame(a, b, 0, 8, 0);
    }
    if a[8..] == b[8..] {
      assert a[8..96] == a[8..] && b[8..96] == b[8..];
      forall i | 1 <= i < 12 ensures WordAt(a, i) == WordAt(b, i) {
        WordAtSame(a, b, 8, 96, i);
      }
    }
  }

  // ---- Messages

  /** Two messages of one length that agree before one place and from another on. */
  ghost predicate AgreeBut(a: seq<byte>, b: seq<byte>, from: nat, to: nat) {
    |a| == |b| && from <= to <= |a| && a[..from] == b[..from] && a[to..] == b[to..]
  }

  lemma Parts(a: seq<byte>, b: seq<byte>, from: nat, to: nat)
    requires AgreeBut(a, b, from, to) && a != b
    ensures a[from..to] != b[from..to]
  {
    assert a == a[..from] + a[from..to] + a[to..];
    assert b == b[..from] + b[from..to] + b[to..];
  }

  lemma SameBefore(a: seq<byte>, b: seq<byte>, at: nat, from: nat, to: nat)
    requires at <= |a| && at <= |b| && a[..at] == b[..at] && from <= to <= at
    ensures a[from..to] == b[from..to]
  {
    assert a[from..to] == a[..at][from..to] && b[from..to] == b[..at][from..to];
  }

  lemma SameAfter(a: seq<byte>, b: seq<byte>, at: nat, from: nat, to: nat)
    requires |a| == |b| && at <= from <= to <= |a| && a[at..] == b[at..]
    ensures a[from..to] == b[from..to]
  {
    assert a[at..] == a[at..|a|] && b[at..] == b[at..|a|];
    SubSlice(a, at, |a|, from, to);
    SubSlice(b, at, |a|, from, to);
  }

  lemma {:induction false} MixedSame(s: Vars, a: seq<byte>, b: seq<byte>, n: nat)
    requires n * 96 <= |a| && n * 96 <= |b| && a[..n * 96] == b[..n * 96]
    ensures Mixed(s, a, n) == Mixed(s, b, n)
  {
    hide Mix, Words;
    if n > 0 {
      SameBefore(a, b, n * 96, (n - 1) * 96, n * 96);
      SameBefore(a, b, n * 96, 0, (n - 1) * 96);
      MixedSame(s, a, b, n - 1);
    }
  }

  lemma {:induction false} MixedStates(s: Vars, t: Vars, a: seq<byte>, n: nat)
    requires n * 96 <= |a| && s != t
    ensures Mixed(s, a, n) != Mixed(t, a, n)
  {
    hide Mix, Words;
    if n > 0 {
      MixedStates(s, t, a, n - 1);
      MixStates(Words(a[(n - 1) * 96..n * 96]), Mixed(s, a, n - 1), Mixed(t, a, n - 1));
    }
  }

  lemma BlockDiffers(s: Vars, a: seq<byte>, b: seq<byte>, at: nat)
    requires at + 96 <= |a| && at + 96 <= |b| && a[at..at + 96] != b[at..at + 96]
    requires a[at..at + 8] == b[at..at + 8] || a[at + 8..at + 96] == b[at + 8..at + 96]
    ensures Mix(Words(a[at..at + 96]), s) != Mix(Words(b[at..at + 96]), s)
  {
    hide Mix, Words;
    var x, y := a[at..at + 96], b[at..at + 96];
    SubSlice(a, at, at + 96, at, at + 8);
    SubSlice(b, at, at + 96, at, at + 8);
    SubSlice(a, at, at + 96, at + 8, at + 96);
    SubSlice(b, at, at + 96, at + 8, at + 96);
    assert x[..8] == x[0..8] && y[..8] == y[0..8] && x[8..] == x[8..96] && y[8..] == y[8..96];
    WordsAgree(x, y);
    if Words(x) == Words(y) {
      WordsBack(x, y);
    }
    MixBlocksDiffer(s, Words(x), Words(y));
  }

  /** A difference in one block is never mixed away. */
  lemma {:induction false} MixedDiffers(s: Vars, a: seq<byte>, b: seq<byte>, p: nat, n: nat)
    requires p < n && n * 96 <= |a| && AgreeBut(a, b, 96 * p, 96 * p + 96) && a != b
    requires a[96 * p..96 * p + 8] == b[96 * p..96 * p + 8] || a[96 * p + 8..96 * p + 96] == b[96 * p + 8..96 * p + 96]
    ensures Mixed(s, a, n) != Mixed(s, b, n)
  {
    hide Mix, Words;
    var x, y := a[(n - 1) * 96..n * 96], b[(n - 1) * 96..n * 96];
    if p == n - 1 {
      Parts(a, b, 96 * p, 96 * p + 96);
      MixedSame(s, a, b, n - 1);
      BlockDiffers(Mixed(s, a, n - 1), a, b, 96 * p);
    } else {
      SameAfter(a, b, 96 * p + 96, (n - 1) * 96, n * 96);
      MixedDiffers(s, a, b, p, n - 1);
      MixStates(Words(x), Mixed(s, a, n - 1), Mixed(s, b, n - 1));
    }
  }

  /** Tails that differ, be it in length only, are padded to different blocks. */
  lemma PaddedDiffers(a: seq<byte>, b: seq<byte>)
    requires |a| < 96 && |b| < 96 && a != b
    ensures Padded(a) != Padded(b)
  {
    assert Padded(a)[95] == |a| && Padded(b)[95] == |b|;
    assert Padded(a)[..|a|] == a && Padded(b)[..|b|] == b;
  }

  /** Messages that differ within one whole block, in its first eight bytes or in the others, leave different
      states. */
  lemma LongBlocks(a: seq<byte>, b: seq<byte>, p: nat, seed1: bv64, seed2: bv64)
    requires p < |a| / 96 && AgreeBut(a, b, 96 * p, 96 * p + 96) && a != b
    requires a[96 * p..96 * p + 8] == b[96 * p..96 * p + 8] || a[96 * p + 8..96 * p + 96] == b[96 * p + 8..96 * p + 96]
    ensures LongState(a, seed1, seed2) != LongState(b, seed1, seed2)
  {
    hide Mixed, Start, End, Words, Padded;
    var n := |a| / 96;
    MixedDiffers(Start(seed1, seed2), a, b, p, n);
    SameAfter(a, b, 96 * p + 96, n * 96, |a|);
    assert a[n * 96..] == a[n * 96..|a|] && b[n * 96..] == b[n * 96..|a|];
    EndStates(Words(Padded(a[n * 96..])), Mixed(Start(seed1, seed2), a, n), Mixed(Start(seed1, seed2), b, n));
  }

  /** Messages of the same whole blocks with different tails, be it in length only, leave different states. */
  lemma LongTails(a: seq<byte>, b: seq<byte>, n: nat, seed1: bv64, seed2: bv64)
    requires |a| / 96 == |b| / 96 == n && a[..96 * n] == b[..96 * n] && a != b
    ensures LongState(a, seed1, seed2) != LongState(b, seed1, seed2)
  {
    hide Mixed, Start, End, Words, Padded;
    MixedSame(Start(seed1, seed2), a, b, n);
    var x, y := a[96 * n..], b[96 * n..];
    assert a == a[..96 * n] + x && b == b[..96 * n] + y;
    PaddedDiffers(x, y);
    if Words(Padded(x)) == Words(Padded(y)) {
      WordsBack(Padded(x), Padded(y));
    }
    EndBlocksDiffer(Mixed(Start(seed1, seed2), a, n), Words(Padded(x)), Words(Padded(y)));
  }

  /** So do different seeds. */
  lemma LongSeeds(a: seq<byte>, seed1: bv64, seed2: bv64, other1: bv64, other2: bv64)
    requires seed1 != other1 || seed2 != other2
    ensures LongState(a, seed1, seed2) != LongState(a, other1, other2)
  {
    var s, t, n := Start(seed1, seed2), Start(other1, other2), |a| / 96;
    assert s[0] == seed1 && s[1] == seed2 && t[0] == other1 && t[1] == other2;
    hide Mixed, Start, End, Words, Padded;
    MixedStates(s, t, a, n);
    EndStates(Words(Padded(a[n * 96..])), Mixed(s, a, n), Mixed(t, a, n));
  }

  // ---- Messages below 192 bytes

  lemma ShortRoundIs(s: Short4, w0: bv64, w1: bv64, w2: bv64, w3: bv64)
    ensures var u := ShortHalf(s, w0, w1); ShortRound(s, w0, w1, w2, w3) == u.(a := Add64(u.a, w2), b := Add64(u.b, w3))
  {
    hide ShortHalf, Add64;
  }

  lemma RoundStates(s: Short4, t: Short4, w0: bv64, w1: bv64, w2: bv64, w3: bv64)
    requires s != t
    ensures ShortRound(s, w0, w1, w2, w3) != ShortRound(t, w0, w1, w2, w3)
  {
    hide *;
    ShortRoundIs(s, w0, w1, w2, w3);
    ShortRoundIs(t, w0, w1, w2, w3);
    ShortHalfStates(s, t, w0, w1);
    ShortRoundStates(ShortHalf(s, w0, w1), ShortHalf(t, w0, w1), w2, w3);
  }

  lemma RoundFirst(s: Short4, w0: bv64, w1: bv64, v0: bv64, v1: bv64, w2: bv64, w3: bv64)
    requires w0 != v0 || w1 != v1
    ensures ShortRound(s, w0, w1, w2, w3) != ShortRound(s, v0, v1, w2, w3)
  {
    hide *;
    ShortRoundIs(s, w0, w1, w2, w3);
    ShortRoundIs(s, v0, v1, w2, w3);
    ShortHalfWords(s, w0, w1, v0, v1);
    ShortRoundStates(ShortHalf(s, w0, w1), ShortHalf(s, v0, v1), w2, w3);
  }

  lemma RoundLast(s: Short4, w0: bv64, w1: bv64, w2: bv64, w3: bv64, v2: bv64, v3: bv64)
    requires w2 != v2 || w3 != v3
    ensures ShortRound(s, w0, w1, w2, w3) != ShortRound(s, w0, w1, v2, v3)
  {
    hide *;
    ShortRoundIs(s, w0, w1, w2, w3);
    ShortRoundIs(s, w0, w1, v2, v3);
    ShortRoundWords(ShortHalf(s, w0, w1), w2, w3, v2, v3);
  }

  lemma {:induction false} ShortMixedSame(s: Short4, a: seq<byte>, b: seq<byte>, n: nat)
    requires 32 * n <= |a| && 32 * n <= |b| && a[..32 * n] == b[..32 * n]
    ensures ShortMixed(s, a, n) == ShortMixed(s, b, n)
  {
    hide WordAt, ShortRound;
    if n > 0 {
      SameBefore(a, b, 32 * n, 0, 32 * n - 32);
      ShortMixedSame(s, a, b, n - 1);
      forall i | 4 * n - 4 <= i < 4 * n ensures WordAt(a, i) == WordAt(b, i) {
        WordAtSame(a, b, 0, 32 * n, i);
      }
    }
  }

  lemma {:induction false} ShortMixedStates(s: Short4, t: Short4, a: seq<byte>, n: nat)
    requires 32 * n <= |a| && s != t
    ensures ShortMixed(s, a, n) != ShortMixed(t, a, n)
  {
    hide WordAt, ShortRound;
    if n > 0 {
      ShortMixedStates(s, t, a, n - 1);
      RoundStates(ShortMixed(s, a, n - 1), ShortMixed(t, a, n - 1), WordAt(a, 4 * n - 4), WordAt(a, 4 * n - 3),
                  WordAt(a, 4 * n - 2), WordAt(a, 4 * n - 1));
    }
  }

  /** Sixteen bytes are two words. */
  lemma PieceWords(a: seq<byte>, b: seq<byte>, p: nat)
    requires 16 * p + 16 <= |a| && 16 * p + 16 <= |b| && a[16 * p..16 * p + 16] != b[16 * p..16 * p + 16]
    ensures WordAt(a, 2 * p) != WordAt(b, 2 * p) || WordAt(a, 2 * p + 1) != WordAt(b, 2 * p + 1)
  {
    hide WordAt;
    assert a[16 * p..16 * p + 16] == a[8 * (2 * p)..8 * (2 * p) + 8] + a[8 * (2 * p + 1)..8 * (2 * p + 1) + 8];
    assert b[16 * p..16 * p + 16] == b[8 * (2 * p)..8 * (2 * p) + 8] + b[8 * (2 * p + 1)..8 * (2 * p + 1) + 8];
    if WordAt(a, 2 * p) == WordAt(b, 2 * p) && WordAt(a, 2 * p + 1) == WordAt(b, 2 * p + 1) {
      WordAtBack(a, b, 2 * p);
      WordAtBack(a, b, 2 * p + 1);
    }
  }

  lemma WordsOutside(a: seq<byte>, b: seq<byte>, p: nat, i: nat)
    requires 8 * i + 8 <= |a| && AgreeBut(a, b, 16 * p, 16 * p + 16) && (i < 2 * p || i > 2 * p + 1)
    ensures WordAt(a, i) == WordAt(b, i)
  {
    hide WordAt;
    if i < 2 * p {
      SameBefore(a, b, 16 * p, 0, 16 * p);
      WordAtSame(a, b, 0, 16 * p, i);
    } else {
      SameAfter(a, b, 16 * p + 16, 16 * p + 16, |a|);
      WordAtSame(a, b, 16 * p + 16, |a|, i);
    }
  }

  /** A difference within sixteen bytes is never mixed away. */
  lemma {:induction false} ShortMixedDiffers(s: Short4, a: seq<byte>, b: seq<byte>, p: nat, n: nat)
    requires p < 2 * n && 32 * n <= |a| && AgreeBut(a, b, 16 * p, 16 * p + 16) && a != b
    ensures ShortMixed(s, a, n) != ShortMixed(s, b, n)
  {
    hide WordAt, ShortRound;
    var i, x := 4 * n - 4, ShortMixed(s, a, n - 1);
    if p < 2 * n - 2 {
      ShortMixedDiffers(s, a, b, p, n - 1);
      forall k | i <= k < i + 4 ensures WordAt(a, k) == WordAt(b, k) {
        WordsOutside(a, b, p, k);
      }
      RoundStates(x, ShortMixed(s, b, n - 1), WordAt(a, i), WordAt(a, i + 1), WordAt(a, i + 2), WordAt(a, i + 3));
    } else {
      SameBefore(a, b, 16 * p, 0, 32 * n - 32);
      ShortMixedSame(s, a, b, n - 1);
      RoundDiffers(x, a, b, p, i);
    }
  }

  lemma RoundDiffers(s: Short4, a: seq<byte>, b: seq<byte>, p: nat, i: nat)
    requires AgreeBut(a, b, 16 * p, 16 * p + 16) && a != b && 8 * i + 32 <= |a| && (i == 2 * p || i + 2 == 2 * p)
    ensures ShortRound(s, WordAt(a, i), WordAt(a, i + 1), WordAt(a, i + 2), WordAt(a, i + 3))
         != ShortRound(s, WordAt(b, i), WordAt(b, i + 1), WordAt(b, i + 2), WordAt(b, i + 3))
  {
    hide WordAt, ShortRound;
    Parts(a, b, 16 * p, 16 * p + 16);
    PieceWords(a, b, p);
    hide *;
    if i == 2 * p {
      WordsOutside(a, b, p, i + 2);
      WordsOutside(a, b, p, i + 3);
      RoundFirst(s, WordAt(a, i), WordAt(a, i + 1), WordAt(b, i), WordAt(b, i + 1), WordAt(a, i + 2), WordAt(a, i + 3));
    } else {
      WordsOutside(a, b, p, i);
      WordsOutside(a, b, p, i + 1);
      RoundLast(s, WordAt(a, i), WordAt(a, i + 1), WordAt(a, i + 2), WordAt(a, i + 3), WordAt(b, i + 2), WordAt(b, i + 3));
    }
  }

  function LowAdded(rest: seq<byte>): bv64 {
    if rest == [] then SC_CONST else if |rest| < 8 then Word64(rest) else Word64(rest[..8])
  }

  function HighAdded(rest: seq<byte>): bv64 {
    if rest == [] || |rest| < 8 then SC_CONST else Word64(rest[8..])
  }

  lemma ShortTailIs(s: Short4, rest: seq<byte>, length: nat)
    requires |rest| < 16
    ensures ShortTail(s, rest, length).a == s.a && ShortTail(s, rest, length).b == s.b
    ensures ShortTail(s, rest, length).c == Add64(s.c, LowAdded(rest))
    ensures 0 < |rest| < 8 ==> ShortTail(s, rest, length).d == Add64(s.d, LengthWord(length))
    ensures |rest| == 0 || |rest| >= 8 ==> ShortTail(s, rest, length).d == Add64(Add64(s.d, LengthWord(length)), HighAdded(rest))
  {
    hide Add64, Word64, LengthWord, SC_CONST;
  }

  lemma ShortTailStates(s: Short4, t: Short4, rest: seq<byte>, length: nat)
    requires |rest| < 16 && s != t
    ensures ShortTail(s, rest, length) != ShortTail(t, rest, length)
  {
    hide *;
    var l := LengthWord(length);
    ShortTailIs(s, rest, length);
    ShortTailIs(t, rest, length);
    if ShortTail(s, rest, length) == ShortTail(t, rest, length) {
      AddBack(s.c, t.c, LowAdded(rest));
      if !(0 < |rest| < 8) {
        AddBack(Add64(s.d, l), Add64(t.d, l), HighAdded(rest));
      }
      AddBack(s.d, t.d, l);
    }
  }

  lemma AddedBack(a: seq<byte>, b: seq<byte>)
    requires |a| == |b| < 16 && LowAdded(a) == LowAdded(b) && (|a| >= 8 ==> HighAdded(a) == HighAdded(b))
    ensures a == b
  {
    hide Word64, SC_CONST;
    if 0 < |a| < 8 {
      WordBack(a, b);
    } else if |a| >= 8 {
      WordBack(a[..8], b[..8]);
      WordBack(a[8..], b[8..]);
      assert a == a[..8] + a[8..] && b == b[..8] + b[8..];
    }
  }

  lemma ShortTailBytes(s: Short4, a: seq<byte>, b: seq<byte>, length: nat)
    requires |a| == |b| < 16 && a != b
    ensures ShortTail(s, a, length) != ShortTail(s, b, length)
  {
    hide *;
    ShortTailIs(s, a, length);
    ShortTailIs(s, b, length);
    if ShortTail(s, a, length) == ShortTail(s, b, length) {
      AddBackRight(LowAdded(a), LowAdded(b), s.c);
      if |a| >= 8 {
        AddBackRight(HighAdded(a), HighAdded(b), Add64(s.d, LengthWord(length)));
      }
      AddedBack(a, b);
    }
  }

  /** The last 0 to 31 bytes, and the end. */
  function Ended(s: Short4, rest: seq<byte>, length: nat): Short4
    requires |rest| < 32
  {
    var t := if |rest| >= 16 then ShortHalf(s, WordAt(rest, 0), WordAt(rest, 1)) else s;
    ShortEnd(ShortTail(t, if |rest| >= 16 then rest[16..] else rest, length), 11)
  }

  lemma EndedStates(s: Short4, t: Short4, rest: seq<byte>, length: nat)
    requires |rest| < 32 && s != t
    ensures Ended(s, rest, length) != Ended(t, rest, length)
  {
    hide ShortHalf, ShortTail, ShortEnd, WordAt;
    var x, y := s, t;
    if |rest| >= 16 {
      x, y := ShortHalf(s, WordAt(rest, 0), WordAt(rest, 1)), ShortHalf(t, WordAt(rest, 0), WordAt(rest, 1));
      ShortHalfStates(s, t, WordAt(rest, 0), WordAt(rest, 1));
    }
    var tail := if |rest| >= 16 then rest[16..] else rest;
    ShortTailStates(x, y, tail, length);
    if Ended(s, rest, length) == Ended(t, rest, length) {
      ShortEndBack(ShortTail(x, tail, length), ShortTail(y, tail, length), 11);
    }
  }

  lemma EndedBytes(s: Short4, a: seq<byte>, b: seq<byte>, length: nat)
    requires |a| == |b| < 32 && a != b && (|a| >= 16 ==> a[..16] == b[..16] || a[16..] == b[16..])
    ensures Ended(s, a, length) != Ended(s, b, length)
  {
    hide ShortHalf, ShortTail, ShortEnd, WordAt;
    var x, y := s, s;
    var at, bt := if |a| >= 16 then a[16..] else a, if |a| >= 16 then b[16..] else b;
    if |a| >= 16 {
      x, y := ShortHalf(s, WordAt(a, 0), WordAt(a, 1)), ShortHalf(s, WordAt(b, 0), WordAt(b, 1));
      assert a == a[..16] + at && b == b[..16] + bt;
      if a[..16] != b[..16] {
        assert a[..16] == a[0..16] && b[..16] == b[0..16];
        PieceWords(a, b, 0);
        ShortHalfWords(s, WordAt(a, 0), WordAt(a, 1), WordAt(b, 0), WordAt(b, 1));
        ShortTailStates(x, y, at, length);
      } else {
        WordAtSame(a, b, 0, 16, 0);
        WordAtSame(a, b, 0, 16, 1);
        ShortTailBytes(x, at, bt, length);
      }
    } else {
      ShortTailBytes(s, at, bt, length);
    }
    if Ended(s, a, length) == Ended(s, b, length) {
      ShortEndBack(ShortTail(x, at, length), ShortTail(y, bt, length), 11);
    }
  }

  lemma ShortStateIs(a: seq<byte>, seed1: bv64, seed2: bv64)
    ensures ShortState(a, seed1, seed2)
         == Ended(ShortMixed(Short4(seed1, seed2, SC_CONST, SC_CONST), a, |a| / 32), a[32 * (|a| / 32)..], |a|)
  {
    hide ShortHalf, ShortTail, ShortEnd, WordAt, ShortMixed;
  }

  lemma RestDiffers(s: Short4, a: seq<byte>, b: seq<byte>, p: nat, length: nat)
    requires |a| < 32 && p < 2 && a != b && AgreeBut(a, b, 16 * p, if 16 * p + 16 <= |a| then 16 * p + 16 else |a|)
    ensures Ended(s, a, length) != Ended(s, b, length)
  {
    hide Ended;
    EndedBytes(s, a, b, length);
  }

  lemma RestsAgree(a: seq<byte>, b: seq<byte>, p: nat, n: nat)
    requires a != b && AgreeBut(a, b, 16 * p, if 16 * p + 16 <= |a| then 16 * p + 16 else |a|) && n == |a| / 32 && p >= 2 * n
    ensures p < 2 * n + 2 && a[32 * n..] != b[32 * n..]
    ensures var x, y, q := a[32 * n..], b[32 * n..], 16 * (p - 2 * n);
      AgreeBut(x, y, q, if q + 16 <= |x| then q + 16 else |x|)
  {
    SameBefore(a, b, 16 * p, 0, 32 * n);
    SameBefore(a, b, 16 * p, 32 * n, 16 * p);
    assert a[32 * n..16 * p] == a[32 * n..][..16 * p - 32 * n] && b[32 * n..16 * p] == b[32 * n..][..16 * p - 32 * n];
    assert a == a[0..32 * n] + a[32 * n..] && b == b[0..32 * n] + b[32 * n..];
    var to := if 16 * p + 16 <= |a| then 16 * p + 16 else |a|;
    assert a[32 * n..][to - 32 * n..] == a[to..] && b[32 * n..][to - 32 * n..] == b[to..];
  }

  lemma ShortSets(s: Short4, a: seq<byte>, b: seq<byte>, p: nat, n: nat)
    requires a != b && AgreeBut(a, b, 16 * p, 16 * p + 16) && p < 2 * n && n == |a| / 32
    ensures Ended(ShortMixed(s, a, n), a[32 * n..], |a|) != Ended(ShortMixed(s, b, n), b[32 * n..], |a|)
  {
    hide Ended, ShortMixed;
    ShortMixedDiffers(s, a, b, p, n);
    SameAfter(a, b, 16 * p + 16, 32 * n, |a|);
    assert a[32 * n..] == a[32 * n..|a|] && b[32 * n..] == b[32 * n..|a|];
    EndedStates(ShortMixed(s, a, n), ShortMixed(s, b, n), a[32 * n..], |a|);
  }

  lemma ShortRests(s: Short4, a: seq<byte>, b: seq<byte>, p: nat, n: nat)
    requires a != b && AgreeBut(a, b, 16 * p, if 16 * p + 16 <= |a| then 16 * p + 16 else |a|)
    requires p >= 2 * n && n == |a| / 32
    ensures Ended(ShortMixed(s, a, n), a[32 * n..], |a|) != Ended(ShortMixed(s, b, n), b[32 * n..], |a|)
  {
    hide Ended, ShortMixed;
    SameBefore(a, b, 16 * p, 0, 32 * n);
    assert a[..32 * n] == a[0..32 * n] && b[..32 * n] == b[0..32 * n];
    ShortMixedSame(s, a, b, n);
    RestsAgree(a, b, p, n);
    RestDiffers(ShortMixed(s, a, n), a[32 * n..], b[32 * n..], p - 2 * n, |a|);
  }

  /** Messages of one length that differ within sixteen bytes, counted from the start, leave different states. */
  lemma ShortPieces(a: seq<byte>, b: seq<byte>, p: nat, seed1: bv64, seed2: bv64)
    requires a != b && AgreeBut(a, b, 16 * p, if 16 * p + 16 <= |a| then 16 * p + 16 else |a|)
    ensures ShortState(a, seed1, seed2) != ShortState(b, seed1, seed2)
  {
    hide Ended, ShortMixed, ShortState;
    ShortStateIs(a, seed1, seed2);
    ShortStateIs(b, seed1, seed2);
    var n, s := |a| / 32, Short4(seed1, seed2, SC_CONST, SC_CONST);
    if p < 2 * n {
      ShortSets(s, a, b, p, n);
    } else {
      ShortRests(s, a, b, p, n);
    }
  }

  lemma ShortSeeds(a: seq<byte>, seed1: bv64, seed2: bv64, other1: bv64, other2: bv64)
    requires seed1 != other1 || seed2 != other2
    ensures ShortState(a, seed1, seed2) != ShortState(a, other1, other2)
  {
    hide Ended, ShortMixed, ShortState;
    ShortStateIs(a, seed1, seed2);
    ShortStateIs(a, other1, other2);
    var n, s, t := |a| / 32, Short4(seed1, seed2, SC_CONST, SC_CONST), Short4(other1, other2, SC_CONST, SC_CONST);
    ShortMixedStates(s, t, a, n);
    EndedStates(ShortMixed(s, a, n), ShortMixed(t, a, n), a[32 * n..], |a|);
  }

  // ---- The hash

  /** The hash is the first two words of the state at the end. */
  lemma HashIsState(a: seq<byte>, seed1: bv64, seed2: bv64)
    ensures |a| < 192 ==> HashOf(a, seed1, seed2) == Hash(ShortState(a, seed1, seed2).a, ShortState(a, seed1, seed2).b)
    ensures |a| >= 192 ==> HashOf(a, seed1, seed2) == Hash(LongState(a, seed1, seed2)[0], LongState(a, seed1, seed2)[1])
  {
    hide ShortState, Mixed, Start, End, Words, Padded;
  }

  /** No byte is ignored: changing any one changes the state at the end. */
  lemma NoByteIgnored(a: seq<byte>, j: nat, x: byte, seed1: bv64, seed2: bv64)
    requires j < |a| && a[j] != x
    ensures |a| < 192 ==> ShortState(a, seed1, seed2) != ShortState(a[j := x], seed1, seed2)
    ensures |a| >= 192 ==> LongState(a, seed1, seed2) != LongState(a[j := x], seed1, seed2)
  {
    hide ShortState, LongState;
    var b := a[j := x];
    assert a[j] != b[j];
    if |a| < 192 {
      ShortPieces(a, b, j / 16, seed1, seed2);
    } else if j / 96 < |a| / 96 {
      var p := j / 96;
      if j % 96 < 8 {
        assert a[96 * p + 8..96 * p + 96] == b[96 * p + 8..96 * p + 96];
      } else {
        assert a[96 * p..96 * p + 8] == b[96 * p..96 * p + 8];
      }
      LongBlocks(a, b, p, seed1, seed2);
    } else {
      LongTails(a, b, |a| / 96, seed1, seed2);
    }
  }

  /** Nor is a seed. */
  lemma NoSeedIgnored(a: seq<byte>, seed1: bv64, seed2: bv64, other1: bv64, other2: bv64)
    requires seed1 != other1 || seed2 != other2
    ensures ShortState(a, seed1, seed2) != ShortState(a, other1, other2)
    ensures LongState(a, seed1, seed2) != LongState(a, other1, other2)
  {
    hide ShortState, LongState;
    ShortSeeds(a, seed1, seed2, other1, other2);
    LongSeeds(a, seed1, seed2, other1, other2);
  }
}

/** The approximate logarithm is the exact one, rounded to eighths of a bit. */
module Logarithm {
  import opened Bits
  import opened BlockChoice

  /** x to the sixteenth power. */
  function Power16(x: nat): nat {
    Square(Square(Square(Square(x))))
  }

  function Square(x: nat): nat {
    x * x
  }

  lemma SquareGrows(x: nat, y: nat)
    requires x <= y
    ensures Square(x) <= Square(y)
  {
    assert y * y - x * x == (y - x) * (y + x);
  }

  lemma PowerGrows(x: nat, y: nat)
    requires x <= y
    ensures Power16(x) <= Power16(y)
  {
    hide Square;
    SquareGrows(x, y);
    SquareGrows(Square(x), Square(y));
    SquareGrows(Square(Square(x)), Square(Square(y)));
    SquareGrows(Square(Square(Square(x))), Square(Square(Square(y))));
  }

  lemma SquareScales(x: nat, n: nat)
    ensures Square(x * Pow2(n)) == Square(x) * Pow2(2 * n)
  {
    hide *;
    PowSum(n, n);
    Regroup(x, Pow2(n));
  }

  lemma Regroup(x: nat, p: nat)
    ensures Square(x * p) == Square(x) * (p * p)
  {
    assert (x * p) * (x * p) == (x * x) * (p * p);
  }

  lemma PowerScales(x: nat, n: nat)
    ensures Power16(x * Pow2(n)) == Power16(x) * Pow2(16 * n)
  {
    hide Square, Pow2;
    SquareScales(x, n);
    SquareScales(Square(x), 2 * n);
    SquareScales(Square(Square(x)), 4 * n);
    SquareScales(Square(Square(Square(x))), 8 * n);
  }

  lemma BigPowers()
    ensures Pow2(31) == 0x8000_0000 && Pow2(62) == 0x4000000000000000
    ensures Pow2(124) == 0x1000000000000000_0000000000000000
  {
    assert Pow2(4) == 16 && Pow2(3) == 8;
    hide Pow2;
    PowSum(4, 3);
    PowSum(4, 4);
    PowSum(8, 8);
    PowSum(16, 8);
    PowSum(24, 7);
    PowSum(31, 31);
    PowSum(62, 62);
  }

  lemma BiggerPowers()
    ensures Pow2(248) == 0x100000000000000_0000000000000000_0000000000000000_0000000000000000
    ensures Pow2(496)
         == 0x1000000000000_0000000000000000_0000000000000000_0000000000000000_0000000000000000_0000000000000000_0000000000000000_0000000000000000
  {
    BigPowers();
    hide Pow2;
    PowSum(124, 124);
    PowSum(248, 248);
  }

  lemma SmallPowers()
    ensures Pow2(1) == 2 && Pow2(3) == 8 && Pow2(5) == 32 && Pow2(7) == 128
    ensures Pow2(9) == 512 && Pow2(11) == 2048 && Pow2(13) == 8192 && Pow2(15) == 32768
  {
    assert Pow2(1) == 2 && Pow2(3) == 8;
    assert Pow2(5) == 32 && Pow2(7) == 128;
    assert Pow2(9) == 512 && Pow2(11) == 2048;
    assert Pow2(13) == 8192;
  }

  lemma Odd(e: nat)
    ensures Pow2(496 + 2 * e + 1) == Pow2(496) * Pow2(2 * e + 1)
  {
    PowSum(496, 2 * e + 1);
  }

  lemma Threshold0()
    ensures Power16(0x85AAC367) < Pow2(497) < Power16(0x85AAC368)
  {
    BiggerPowers();
    Odd(0);
    SmallPowers();
    hide Pow2;
    assert Square(Square(0x85AAC367)) == 0x1306FE09BD65C386_641EE060211DF7E1;
    assert Square(Square(0x85AAC368)) == 0x1306FE0A4F2996F9_15A0C2D86C711000;
  }

  lemma Threshold1()
    ensures Power16(0x91C3D373) < Pow2(499) < Power16(0x91C3D374)
  {
    BiggerPowers();
    Odd(1);
    SmallPowers();
    hide Pow2;
    assert Square(Square(0x91C3D373)) == 0x1AE89F98DC81CA5B_980844E3DFCD8991;
    assert Square(Square(0x91C3D374)) == 0x1AE89F99998A6DFA_48848C49BA09D100;
  }

  lemma Threshold2()
    ensures Power16(0x9EF53260) < Pow2(501) < Power16(0x9EF53261)
  {
    BiggerPowers();
    Odd(2);
    SmallPowers();
    hide Pow2;
    assert Square(Square(0x9EF53260)) == 0x260DFC13D7F9B102_2BED1C51F1100000;
    assert Square(Square(0x9EF53261)) == 0x260DFC14CD1F2E16_FEE398A90574A181;
  }

  lemma Threshold3()
    ensures Power16(0xAD583EEA) < Pow2(503) < Power16(0xAD583EEB)
  {
    BiggerPowers();
    Odd(3);
    SmallPowers();
    hide Pow2;
    assert Square(Square(0xAD583EEA)) == 0x35D13F3262E89F7E_15DF54EA7D69F310;
    assert Square(Square(0xAD583EEB)) == 0x35D13F33A0D30440_8ACA2A77EDDCABB1;
  }

  lemma Threshold4()
    ensures Power16(0xBD08A39F) < Pow2(505) < Power16(0xBD08A3A0)
  {
    BiggerPowers();
    Odd(4);
    SmallPowers();
    hide Pow2;
    assert Square(Square(0xBD08A39F)) == 0x4C1BF828390F88D1_E609E78E7BE24981;
    assert Square(Square(0xBD08A3A0)) == 0x4C1BF829D558A0FD_2A7BCA72ED100000;
  }

  lemma Threshold5()
    ensures Power16(0xCE248C15) < Pow2(507) < Power16(0xCE248C16)
  {
    BiggerPowers();
    Odd(5);
    SmallPowers();
    hide Pow2;
    assert Square(Square(0xCE248C15)) == 0x6BA27E65297B416F_65F40FEE18D567B1;
    assert Square(Square(0xCE248C16)) == 0x6BA27E6740264F11_85D1B09882001310;
  }

  lemma Threshold6()
    ensures Power16(0xE0CCDEEC) < Pow2(509) < Power16(0xE0CCDEED)
  {
    BiggerPowers();
    Odd(6);
    SmallPowers();
    hide Pow2;
    assert Square(Square(0xE0CCDEEC)) == 0x9837F0511A63827B_D42DAF77687F7100;
    assert Square(Square(0xE0CCDEED)) == 0x9837F053CFC47E27_F5191DDB098CA911;
  }

  lemma Threshold7()
    ensures Power16(0xF5257D15) < Pow2(511) < Power16(0xF5257D16)
  {
    BiggerPowers();
    Odd(7);
    SmallPowers();
    hide Pow2;
    assert Square(Square(0xF5257D15)) == 0xD744FCCA5650B373_7A4AFA13DFB4DBB1;
    assert Square(Square(0xF5257D16)) == 0xD744FCCDD9842F28_1332868403387310;
  }

  lemma EighthsBottom(n: nat)
    ensures Eighths(n) <= 8 && 0x1_0000_0000 == 2 * 0x8000_0000
  {
  }

  /** An eighth above or below the middle between two. */
  lemma EighthsRound(n: nat)
    requires 0x8000_0000 <= n < 0x1_0000_0000
    ensures Power16(n) < Pow2(496 + 2 * Eighths(n) + 1)
    ensures Pow2(495 + 2 * Eighths(n)) < Power16(n)
  {
    hide *;
    var e := Eighths(n);
    EighthsBottom(n);
    if e < 8 {
      Above(n, e);
    } else {
      Top(n);
    }
    if e > 0 {
      Below(n, e);
    } else {
      Bottom(n);
    }
  }

  /** The largest number with e eighths. */
  function Largest(e: nat): nat {
    if e == 0 then 0x85AAC367 else if e == 1 then 0x91C3D373 else if e == 2 then 0x9EF53260 else if e == 3 then 0xAD583EEA
    else if e == 4 then 0xBD08A39F else if e == 5 then 0xCE248C15 else if e == 6 then 0xE0CCDEEC else 0xF5257D15
  }

  lemma Limits(n: nat, e: nat)
    requires e < 8
    ensures Eighths(n) == e ==> n <= Largest(e)
    ensures Eighths(n) == e + 1 ==> n >= Largest(e) + 1
  {
  }

  lemma Threshold(e: nat)
    requires e < 8
    ensures Power16(Largest(e)) < Pow2(497 + 2 * e) < Power16(Largest(e) + 1)
  {
    hide Power16, Pow2;
    if e == 0 {
      Threshold0();
    } else if e == 1 {
      Threshold1();
    } else if e == 2 {
      Threshold2();
    } else if e == 3 {
      Threshold3();
    } else if e == 4 {
      Threshold4();
    } else if e == 5 {
      Threshold5();
    } else if e == 6 {
      Threshold6();
    } else {
      Threshold7();
    }
  }

  lemma Above(n: nat, e: nat)
    requires e == Eighths(n) < 8
    ensures Power16(n) < Pow2(497 + 2 * e)
  {
    hide Power16, Pow2, Eighths, Largest;
    Limits(n, e);
    Threshold(e);
    PowerGrows(n, Largest(e));
  }

  lemma Below(n: nat, e: nat)
    requires 0 < e == Eighths(n)
    ensures Pow2(495 + 2 * e) < Power16(n)
  {
    hide Power16, Pow2, Eighths, Largest;
    Limits(n, e - 1);
    Threshold(e - 1);
    PowerGrows(Largest(e - 1) + 1, n);
  }

  lemma Top(n: nat)
    requires n < 0x1_0000_0000
    ensures Power16(n) < Pow2(513)
  {
    BigPowers();
    assert Pow2(32) == 0x1_0000_0000 && Pow2(513) == 2 * Pow2(512) && Pow2(512) > 0;
    hide Power16, Pow2;
    PowerGrows(n, 1 * Pow2(32));
    PowerScales(1, 32);
    One();
  }

  lemma Bottom(n: nat)
    requires n >= 0x8000_0000
    ensures Pow2(495) < Power16(n)
  {
    BigPowers();
    assert Pow2(496) == 2 * Pow2(495) && Pow2(495) > 0;
    hide Power16, Pow2;
    PowerGrows(1 * Pow2(31), n);
    PowerScales(1, 31);
    One();
  }

  lemma One()
    ensures Power16(1) == 1
  {
  }

  lemma Cancel(a: nat, b: nat, p: nat)
    requires p > 0
    ensures a * p < b * p ==> a < b
  {
    if a >= b {
      assert a * p - b * p == (a - b) * p;
    }
  }

  lemma Divided(a: nat, m: nat, k: nat)
    ensures a * Pow2(k) < Pow2(m + k) ==> a < Pow2(m)
    ensures Pow2(m + k) < a * Pow2(k) ==> Pow2(m) < a
  {
    PowSum(m, k);
    hide Pow2;
    Cancel(a, Pow2(m), Pow2(k));
    Cancel(Pow2(m), a, Pow2(k));
  }

  lemma LogIs(x: nat)
    ensures ApproxLog2(x) == 248 - 8 * Shift(x) + Eighths(Normal5(x))
  {
    hide Shift, Normal5, Eighths;
  }

  /** With r for the result, log2 x lies between (2r - 1)/16 and (2r + 1)/16: it is r eighths, to the nearest. */
  lemma LogIsRounded(x: nat)
    requires 0 < x < 0x1_0000_0000
    ensures Power16(x) < Pow2(2 * ApproxLog2(x) + 1)
    ensures ApproxLog2(x) > 0 ==> Pow2(2 * ApproxLog2(x) - 1) < Power16(x)
  {
    var s, n, e, r := Shift(x), Normal5(x), Eighths(Normal5(x)), ApproxLog2(x);
    hide *;
    LogIs(x);
    Normalised(x);
    EighthsRound(n);
    PowerScales(x, s);
    Divided(Power16(x), 2 * r + 1, 16 * s);
    if r > 0 {
      Divided(Power16(x), 2 * r - 1, 16 * s);
    }
  }
}

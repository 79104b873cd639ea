/** The generator has an even number of terms, so the CRC sees every odd number of flipped bits. */
module CrcParity {
  import opened Bits16
  import opened CrcRegister
  import opened Crc16

  /** Exclusive-or, in the top place, of the upper `n` bits. */
  function UpperParity(x: bv16, n: nat): bv16
    decreases n
  {
    if n == 0 then 0 else Xor(Top(x), UpperParity(Up(x), n - 1))
  }

  function Parity(x: bv16): bv16 { UpperParity(x, 16) }

  /** Number of ones among the upper `n` bits, and in a byte. */
  function Ones(x: bv16, n: nat): nat
    decreases n
  {
    if n == 0 then 0 else (if Top(x) != 0 then 1 else 0) + Ones(Up(x), n - 1)
  }

  function Weight(b: Byte): nat { Ones(High(b), 16) }

  /** Number of bits in which two byte strings of one length differ. */
  function FlippedBits(x: Bytes, y: Bytes): nat
    requires |x| == |y|
  {
    if x == [] then 0
    else FlippedBits(x[..|x| - 1], y[..|y| - 1]) + Weight(x[|x| - 1] ^ y[|y| - 1])
  }

  lemma {:induction false} UpperParityIsLinear(a: bv16, b: bv16, n: nat)
    ensures UpperParity(Xor(a, b), n) == Xor(UpperParity(a, n), UpperParity(b, n))
    decreases n
  {
    hide Xor, Up, Top;
    if n == 0 {
      XorSelf(0);
    } else {
      TopIsLinear(a, b);
      UpIsLinear(a, b);
      UpperParityIsLinear(Up(a), Up(b), n - 1);
      XorReorders();
      Exchange(Xor, Top(a), Top(b), UpperParity(Up(a), n - 1), UpperParity(Up(b), n - 1));
    }
  }

  lemma {:induction false} UpperParityGrows(x: bv16, n: nat)
    ensures UpperParity(x, n + 1) == Xor(UpperParity(x, n), Top(Ups(x, n)))
    decreases n
  {
    hide Xor, Up, Top;
    if n == 0 {
      assert UpperParity(x, 1) == Xor(Top(x), UpperParity(Up(x), 0));
      XorSelf(Top(x));
    } else {
      UpperParityGrows(Up(x), n - 1);
      assert UpperParity(x, n + 1) == Xor(Top(x), UpperParity(Up(x), n));
      XorAssociates(Top(x), UpperParity(Up(x), n - 1), Top(Ups(x, n)));
    }
  }

  lemma ParityOfUp(x: bv16)
    ensures Parity(x) == Xor(Top(x), Parity(Up(x)))
  {
    hide Xor, Up, Top, FourUp;
    UpsClear(x);
    UpperParityGrows(Up(x), 15);
    TopOfZero();
    XorSelf(UpperParity(Up(x), 15));
  }

  /** Moving a value up without losing a bit keeps its parity. */
  lemma ParityOfFourUp(x: bv16)
    requires FourFree(x)
    ensures Parity(FourUp(x)) == Parity(x)
  {
    hide Xor, Up, Parity, Top, FourFree;
    TopsOfFree(x);
    ParityOfUp(x);
    ParityOfUp(Up(x));
    ParityOfUp(Up(Up(x)));
    ParityOfUp(Up(Up(Up(x))));
    XorSelf(Parity(Up(x)));
    XorSelf(Parity(Up(Up(x))));
    XorSelf(Parity(Up(Up(Up(x)))));
    XorSelf(Parity(FourUp(x)));
  }

  lemma TopsOfFree(x: bv16)
    requires FourFree(x)
    ensures Top(x) == 0 && Top(Up(x)) == 0 && Top(Up(Up(x))) == 0 && Top(Up(Up(Up(x)))) == 0
  {
  }

  lemma TapConstants()
    ensures FourUp(0x0001) == 0x0010 && FourUp(0x0010) == 0x0100 && FourUp(0x0100) == 0x1000
    ensures FourUp(0x0020) == 0x0200 && FourUp(0x0200) == 0x2000
    ensures FourFree(0x0001) && FourFree(0x0010) && FourFree(0x0100) && FourFree(0x0020) && FourFree(0x0200)
    ensures Up(0x1000) == 0x2000 && Up(0x2000) == 0x4000 && Up(0x4000) == 0x8000 && Up(0x8000) == 0
    ensures Top(0x1000) == 0 && Top(0x2000) == 0 && Top(0x4000) == 0 && Top(0x8000) == 0x8000
    ensures Up(0) == 0
  {
  }

  /** A single one, wherever it stands among the taps, has odd parity. */
  lemma ParityOfTaps()
    ensures Parity(0x0001) == 0x8000 && Parity(0x0020) == 0x8000 && Parity(0x1000) == 0x8000
    ensures Parity(0x8000) == 0x8000 && Parity(0) == 0
  {
    hide Xor, Up, Parity, Top, FourFree, FourUp;
    TapConstants();
    ParityOfZero();
    ParityOfUp(0x8000);
    XorSelf(0x8000);
    ParityOfUp(0x4000);
    ParityOfUp(0x2000);
    ParityOfUp(0x1000);
    ParityOfFourUp(0x0100);
    ParityOfFourUp(0x0010);
    ParityOfFourUp(0x0001);
    ParityOfFourUp(0x0200);
    ParityOfFourUp(0x0020);
  }

  lemma ParityOfZero()
    ensures Parity(0) == 0
  {
    UpperParityOfZero(16);
  }

  lemma {:induction false} UpperParityOfZero(n: nat)
    ensures UpperParity(0, n) == 0
  {
    hide Xor, Up, Top;
    if n > 0 {
      TapConstants();
      TopOfZero();
      UpperParityOfZero(n - 1);
      XorSelf(0);
    }
  }

  lemma TapsAreSingleBits(a: bv16)
    ensures Top(a) == 0 || Top(a) == 0x8000
    ensures Top(a) == 0 ==> Tap0(a) == 0 && Tap5(a) == 0 && Tap12(a) == 0
    ensures Top(a) == 0x8000 ==> Tap0(a) == 0x0001 && Tap5(a) == 0x0020 && Tap12(a) == 0x1000
  {
  }

  /** The generator has an even number of terms, so a step keeps the parity of the register. */
  lemma ShiftKeepsParity(a: bv16)
    ensures Parity(Shift(a)) == Parity(a)
  {
    hide Xor, Up, Top, Tap0, Tap5, Tap12, UpperParity;
    TapsAreSingleBits(a);
    ParityOfTaps();
    ParityOfUp(a);
    var low := Xor(Tap5(a), Tap0(a));
    UpperParityIsLinear(Tap5(a), Tap0(a), 16);
    UpperParityIsLinear(Tap12(a), low, 16);
    UpperParityIsLinear(Up(a), Xor(Tap12(a), low), 16);
    XorSelf(0);
    XorSelf(0x8000);
    XorSelf(Parity(Up(a)));
    XorCommutes(Parity(Up(a)), Top(a));
  }

  lemma {:induction false} ShiftsKeepParity(a: bv16, n: nat)
    ensures Parity(Shifts(a, n)) == Parity(a)
  {
    hide Shift, Parity;
    if n > 0 {
      ShiftsKeepParity(a, n - 1);
      ShiftKeepsParity(Shifts(a, n - 1));
    }
  }

  /** Parity of a natural number, in the top place. */
  function OddBit(n: nat): bv16 { if n % 2 == 1 then 0x8000 else 0 }

  lemma OddBitAdds(m: nat, n: nat)
    ensures OddBit(m + n) == Xor(OddBit(m), OddBit(n))
  {
    hide Xor;
    XorSelf(0);
    XorSelf(0x8000);
  }

  lemma {:induction false} ParityCountsOnes(x: bv16, n: nat)
    ensures UpperParity(x, n) == OddBit(Ones(x, n))
    decreases n
  {
    hide Xor, Up, Top, OddBit;
    OddBitOfBit();
    if n > 0 {
      ParityCountsOnes(Up(x), n - 1);
      TapsAreSingleBits(x);
      OddBitAdds(if Top(x) != 0 then 1 else 0, Ones(Up(x), n - 1));
    }
  }

  lemma OddBitOfBit()
    ensures OddBit(0) == 0 && OddBit(1) == 0x8000
  {
  }

  /** One more byte on either side adds the parity of the bits that differ. */
  lemma ParityStep(cx: bv16, cy: bv16, a: Byte, b: Byte)
    ensures Parity(Xor(Absorb(cx, a), Absorb(cy, b))) == Xor(Parity(Xor(cx, cy)), OddBit(Weight(a ^ b)))
  {
    hide Xor, Shifts, High, Parity, OddBit, Weight;
    var d := Xor(Xor(cx, cy), High(a ^ b));
    assert Xor(Absorb(cx, a), Absorb(cy, b)) == Shifts(d, 8) by {
      ShiftsAreLinear(Xor(cx, High(a)), Xor(cy, High(b)), 8);
      XorReorders();
      Exchange(Xor, cx, High(a), cy, High(b));
      HighIsLinear(a, b);
    }
    ShiftsKeepParity(d, 8);
    ParityIsLinear(Xor(cx, cy), High(a ^ b));
    ParityOfByte(a ^ b);
  }

  /** The parity of the checksum registers of two strings differs by the parity of the bits flipped between them. */
  lemma {:induction false} CrcParity(c: bv16, x: Bytes, y: Bytes)
    requires |x| == |y|
    ensures Parity(Xor(CrcFrom(c, x), CrcFrom(c, y))) == OddBit(FlippedBits(x, y))
  {
    hide Xor, Shifts, High, Parity, OddBit, Weight;
    if x == [] {
      XorSelf(c);
      ParityOfZero();
      OddBitOfBit();
    } else {
      var x', y', a, b := x[..|x| - 1], y[..|y| - 1], x[|x| - 1], y[|y| - 1];
      var cx, cy := CrcFrom(c, x'), CrcFrom(c, y');
      CrcParity(c, x', y');
      ParityStep(cx, cy, a, b);
      OddBitAdds(FlippedBits(x', y'), Weight(a ^ b));
    }
  }

  lemma ParityIsLinear(a: bv16, b: bv16)
    ensures Parity(Xor(a, b)) == Xor(Parity(a), Parity(b))
  {
    hide Xor, UpperParity;
    UpperParityIsLinear(a, b, 16);
  }

  lemma ParityOfByte(b: Byte)
    ensures Parity(High(b)) == OddBit(Weight(b))
  {
    hide Xor, High, OddBit, UpperParity, Ones;
    ParityCountsOnes(High(b), 16);
  }

  /** Any odd number of flipped bits changes the checksum. */
  lemma OddFlipsChangeCrc(c: bv16, x: Bytes, y: Bytes)
    requires |x| == |y| && FlippedBits(x, y) % 2 == 1
    ensures CrcFrom(c, x) != CrcFrom(c, y)
  {
    hide Xor, Parity, CrcFrom, FlippedBits;
    CrcParity(c, x, y);
    XorSelf(CrcFrom(c, x));
    ParityOfZero();
  }
}

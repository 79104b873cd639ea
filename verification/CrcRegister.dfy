/** The feedback register of the CRC: one step, `n` steps, and their laws: linear, and losing nothing. */
module CrcRegister {
  import opened Bits16

  /** One step of the feedback register of the generator x^16 + x^12 + x^5 + 1. */
  function Shift(crc: bv16): bv16 {
    Xor(Up(crc), Xor(Tap12(crc), Xor(Tap5(crc), Tap0(crc))))
  }

  /** `n` steps. */
  function Shifts(crc: bv16, n: nat): bv16 {
    if n == 0 then crc else Shift(Shifts(crc, n - 1))
  }

  /** The source writes a step as a branch on the top bit. */
  lemma ShiftAsBranch(crc: bv16)
    ensures crc & 0x8000 != 0 ==> (crc << 1) ^ 0x1021 == Shift(crc)
    ensures crc & 0x8000 == 0 ==> crc << 1 == Shift(crc)
  {
    var top := crc & 0x8000;
    assert top == 0 || top == 0x8000;
    if top == 0 {
      assert Xor(Tap12(crc), Xor(Tap5(crc), Tap0(crc))) == 0;
    } else {
      assert Xor(Tap12(crc), Xor(Tap5(crc), Tap0(crc))) == 0x1021;
    }
  }

  /** The generator has a constant term, so a step loses nothing. */
  lemma ShiftLosesNothing(a: bv16)
    requires Shift(a) == 0
    ensures a == 0
  {
    ShiftAsBranch(a);
  }

  /** A step that loses no bit just moves the register up. */
  lemma ShiftOfSmall(x: bv16)
    requires x & 0x8000 == 0
    ensures Shift(x) == Up(x)
  {
    ShiftAsBranch(x);
  }

  lemma ShiftIsLinear(a: bv16, b: bv16)
    ensures Shift(Xor(a, b)) == Xor(Shift(a), Shift(b))
  {
    hide Xor, Up, Tap0, Tap5, Tap12;
    UpIsLinear(a, b);
    Tap0IsLinear(a, b);
    Tap5IsLinear(a, b);
    Tap12IsLinear(a, b);
    var low_a, low_b := Xor(Tap5(a), Tap0(a)), Xor(Tap5(b), Tap0(b));
    XorReorders();
    Exchange(Xor, Tap5(a), Tap5(b), Tap0(a), Tap0(b));
    Exchange(Xor, Tap12(a), Tap12(b), low_a, low_b);
    Exchange(Xor, Up(a), Up(b), Xor(Tap12(a), low_a), Xor(Tap12(b), low_b));
  }

  lemma {:induction false} ShiftsAreLinear(a: bv16, b: bv16, n: nat)
    ensures Shifts(Xor(a, b), n) == Xor(Shifts(a, n), Shifts(b, n))
  {
    hide Xor, Shift;
    if n > 0 {
      ShiftsAreLinear(a, b, n - 1);
      ShiftIsLinear(Shifts(a, n - 1), Shifts(b, n - 1));
    }
  }

  lemma {:induction false} ShiftsLoseNothing(a: bv16, n: nat)
    requires Shifts(a, n) == 0
    ensures a == 0
  {
    hide Xor, Shift;
    if n > 0 {
      ShiftLosesNothing(Shifts(a, n - 1));
      ShiftsLoseNothing(a, n - 1);
    }
  }

  lemma ShiftsAreInjective(a: bv16, b: bv16, n: nat)
    requires a != b
    ensures Shifts(a, n) != Shifts(b, n)
  {
    hide Xor, Shifts;
    ShiftsAreLinear(a, b, n);
    XorIsZeroOnEqual(a, b);
    XorIsZeroOnEqual(Shifts(a, n), Shifts(b, n));
    if Shifts(a, n) == Shifts(b, n) {
      ShiftsLoseNothing(Xor(a, b), n);
    }
  }

  lemma {:induction false} ShiftsCompose(a: bv16, m: nat, n: nat)
    ensures Shifts(Shifts(a, m), n) == Shifts(a, m + n)
  {
    hide Shift;
    if n > 0 {
      ShiftsCompose(a, m, n - 1);
    }
  }

  /** Eight steps move a byte from the bottom to the top without touching the generator. */
  lemma LowByteMovesUp(b: Byte)
    ensures Shifts(Low(b), 8) == High(b)
  {
    hide Shift, Up, Low, High, FourFree;
    LowByteHasRoom(b);
    FourUps(Low(b), 0, Low(b));
    var mid := Up(Up(Up(Up(Low(b)))));
    FourUps(Low(b), 4, mid);
  }

  lemma LowByteHasRoom(b: Byte)
    ensures FourFree(Low(b))
    ensures var mid := Up(Up(Up(Up(Low(b)))));
      FourFree(mid) && Up(Up(Up(Up(mid)))) == High(b)
  {
  }

  /** Four steps from here lose no bit. */
  predicate FourFree(v: bv16) {
    v & 0x8000 == 0 && Up(v) & 0x8000 == 0 && Up(Up(v)) & 0x8000 == 0 && Up(Up(Up(v))) & 0x8000 == 0
  }

  lemma FourUps(x: bv16, n: nat, v: bv16)
    requires Shifts(x, n) == v && FourFree(v)
    ensures Shifts(x, n + 4) == Up(Up(Up(Up(v))))
  {
    hide Shift, Up;
    ShiftOfSmall(v);
    ShiftOfSmall(Up(v));
    ShiftOfSmall(Up(Up(v)));
    ShiftOfSmall(Up(Up(Up(v))));
    assert Shifts(x, n + 1) == Up(v);
    assert Shifts(x, n + 2) == Up(Up(v));
    assert Shifts(x, n + 3) == Up(Up(Up(v)));
  }

  // --- steps that lose no bit --------------------------------------------------------------------

  /** `n` moves up. */
  function Ups(x: bv16, n: nat): bv16
    decreases n
  {
    if n == 0 then x else Ups(Up(x), n - 1)
  }

  /** The next `n` steps from here lose no bit. */
  predicate HasRoom(x: bv16, n: nat)
    decreases n
  {
    n == 0 || (x & 0x8000 == 0 && HasRoom(Up(x), n - 1))
  }

  lemma {:induction false} ShiftsAreUps(x: bv16, n: nat)
    requires HasRoom(x, n)
    ensures Shifts(x, n) == Ups(x, n)
    decreases n
  {
    hide Shift, Up;
    if n > 0 {
      ShiftOfSmall(x);
      ShiftsAreUps(Up(x), n - 1);
      assert Shifts(x, 0) == x && Shifts(x, 1) == Shift(x);
      ShiftsCompose(x, 1, n - 1);
    }
  }

  lemma {:induction false} UpsNext(x: bv16, n: nat)
    ensures Ups(x, n + 1) == Up(Ups(x, n))
    ensures HasRoom(x, n + 1) <==> HasRoom(x, n) && Ups(x, n) & 0x8000 == 0
    decreases n
  {
    hide Up;
    if n > 0 {
      UpsNext(Up(x), n - 1);
    } else {
      assert HasRoom(Up(x), 0) && Ups(Up(x), 0) == Up(x);
    }
  }

  lemma UpOfShifted(x: bv16)
    ensures Up(x) == x << 1 && Up(x << 1) == x << 2 && Up(x << 2) == x << 3 && Up(x << 3) == x << 4
    ensures Up(x << 4) == x << 5 && Up(x << 5) == x << 6 && Up(x << 6) == x << 7 && Up(x << 7) == x << 8
  {
  }

  lemma UpsOnBits(x: bv16)
    ensures Ups(x, 0) == x && Ups(x, 1) == x << 1 && Ups(x, 2) == x << 2 && Ups(x, 3) == x << 3 && Ups(x, 4) == x << 4
    ensures Ups(x, 5) == x << 5 && Ups(x, 6) == x << 6 && Ups(x, 7) == x << 7 && Ups(x, 8) == x << 8
  {
    hide Up, Ups, HasRoom;
    UpOfShifted(x);
    NoUps(x);
    UpsNext(x, 0);
    UpsNext(x, 1);
    UpsNext(x, 2);
    UpsNext(x, 3);
    UpsNext(x, 4);
    UpsNext(x, 5);
    UpsNext(x, 6);
    UpsNext(x, 7);
  }

  lemma NoUps(x: bv16)
    ensures Ups(x, 0) == x && HasRoom(x, 0)
  {
  }

  /** Room for `n` steps is that the upper `n` bits are clear. */
  lemma RoomOnBits(x: bv16)
    ensures HasRoom(x, 1) <==> x & 0x8000 == 0
    ensures HasRoom(x, 2) <==> x & 0xC000 == 0
    ensures HasRoom(x, 3) <==> x & 0xE000 == 0
    ensures HasRoom(x, 4) <==> x & 0xF000 == 0
    ensures HasRoom(x, 5) <==> x & 0xF800 == 0
    ensures HasRoom(x, 6) <==> x & 0xFC00 == 0
    ensures HasRoom(x, 7) <==> x & 0xFE00 == 0
    ensures HasRoom(x, 8) <==> x & 0xFF00 == 0
  {
    hide Up, Ups, HasRoom;
    UpsOnBits(x);
    NoUps(x);
    UpsNext(x, 0);
    UpsNext(x, 1);
    UpsNext(x, 2);
    UpsNext(x, 3);
    UpsNext(x, 4);
    UpsNext(x, 5);
    UpsNext(x, 6);
    UpsNext(x, 7);
    TopMasks(x);
  }

  lemma TopMasks(x: bv16)
    ensures x & 0xC000 == 0 <==> x & 0x8000 == 0 && (x << 1) & 0x8000 == 0
    ensures x & 0xE000 == 0 <==> x & 0xC000 == 0 && (x << 2) & 0x8000 == 0
    ensures x & 0xF000 == 0 <==> x & 0xE000 == 0 && (x << 3) & 0x8000 == 0
    ensures x & 0xF800 == 0 <==> x & 0xF000 == 0 && (x << 4) & 0x8000 == 0
    ensures x & 0xFC00 == 0 <==> x & 0xF800 == 0 && (x << 5) & 0x8000 == 0
    ensures x & 0xFE00 == 0 <==> x & 0xFC00 == 0 && (x << 6) & 0x8000 == 0
    ensures x & 0xFF00 == 0 <==> x & 0xFE00 == 0 && (x << 7) & 0x8000 == 0
  {
  }

  // --- sixteen moves clear the register ----------------------------------------------------------

  function FourUp(x: bv16): bv16 { Up(Up(Up(Up(x)))) }

  lemma UpsByFour(x: bv16, n: nat)
    ensures Ups(x, n + 4) == Ups(FourUp(x), n)
  {
    hide Up;
    assert Ups(x, n + 4) == Ups(Up(x), n + 3);
    assert Ups(Up(x), n + 3) == Ups(Up(Up(x)), n + 2);
    assert Ups(Up(Up(x)), n + 2) == Ups(Up(Up(Up(x))), n + 1);
  }

  lemma SixteenUpsClear(x: bv16)
    ensures FourUp(FourUp(FourUp(FourUp(x)))) == 0
  {
  }

  lemma UpsClear(x: bv16)
    ensures Ups(x, 16) == 0
  {
    hide Up, FourUp;
    UpsByFour(x, 12);
    UpsByFour(FourUp(x), 8);
    UpsByFour(FourUp(FourUp(x)), 4);
    UpsByFour(FourUp(FourUp(FourUp(x))), 0);
    SixteenUpsClear(x);
  }

  lemma TopOfZero()
    ensures Top(0) == 0
  {
  }
}

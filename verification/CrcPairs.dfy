/** The checksum detects any two flipped bits of a frame, however far apart: within a frame the register does not come
    back to where one bit left it. */
module CrcPairs {
  import opened Bits16
  import opened CrcRegister
  import opened Crc16
  import opened CrcDetection
  import opened CrcParity

  /** The longest string considered, a whole frame. */
  const LONGEST: nat := 16

  // --- one bit in the register -------------------------------------------------------------------

  /** A step, as the branch of the source. */
  function Branch(v: bv16): bv16 { if v & 0x8000 != 0 then (v << 1) ^ 0x1021 else v << 1 }

  lemma ShiftIsBranch(v: bv16)
    ensures Shift(v) == Branch(v)
  {
    hide Shift;
    ShiftAsBranch(v);
  }

  function FourBranches(v: bv16): bv16 { Branch(Branch(Branch(Branch(v)))) }

  lemma FourShifts(v: bv16)
    ensures Shifts(v, 4) == FourBranches(v)
  {
    hide Shift, Branch;
    ShiftIsBranch(v);
    ShiftIsBranch(Branch(v));
    ShiftIsBranch(Branch(Branch(v)));
    ShiftIsBranch(Branch(Branch(Branch(v))));
    assert Shifts(v, 1) == Branch(v);
    assert Shifts(v, 2) == Branch(Branch(v));
    assert Shifts(v, 3) == Branch(Branch(Branch(v)));
  }

  function EightBranches(v: bv16): bv16 { FourBranches(FourBranches(v)) }

  lemma EightShifts(x: bv16, n: nat)
    ensures Shifts(x, n + 8) == EightBranches(Shifts(x, n))
  {
    hide Shifts, FourBranches;
    FourShifts(Shifts(x, n));
    FourShifts(FourBranches(Shifts(x, n)));
    ShiftsCompose(x, n, 4);
    ShiftsCompose(x, n + 4, 4);
  }

  lemma EarlySteps()
    ensures EightBranches(0x0001) == 0x0100 && EightBranches(0x0100) == 0x1021
    ensures EightBranches(0x1021) == 0x3331 && EightBranches(0x3331) == 0x3730
    ensures EightBranches(0x3730) == 0x76B4 && EightBranches(0x76B4) == 0xAA51
    ensures EightBranches(0xAA51) == 0x45A0 && EightBranches(0x45A0) == 0xB861
  {
  }

  lemma LateSteps()
    ensures EightBranches(0xB861) == 0x47D3 && EightBranches(0x47D3) == 0xEB23
    ensures EightBranches(0xEB23) == 0x6F45 && EightBranches(0x6F45) == 0xD849
    ensures EightBranches(0xD849) == 0x0375 && EightBranches(0x0375) == 0x4563
    ensures EightBranches(0x4563) == 0x7B61 && EightBranches(0x7B61) == 0xAEFC
  {
  }

  /** What one bit has become after every eight steps: never a low bit alone. */
  lemma AfterBytes(q: nat)
    requires 0 < q <= LONGEST
    ensures Shifts(1, 8 * q) > 0x80
  {
    hide Shifts, EightBranches;
    EarlySteps();
    LateSteps();
    assert Shifts(1, 0) == 1 by { ShiftsNone(1); }
    EightShifts(1, 0);
    EightShifts(1, 8);
    EightShifts(1, 16);
    EightShifts(1, 24);
    EightShifts(1, 32);
    EightShifts(1, 40);
    EightShifts(1, 48);
    EightShifts(1, 56);
    EightShifts(1, 64);
    EightShifts(1, 72);
    EightShifts(1, 80);
    EightShifts(1, 88);
    EightShifts(1, 96);
    EightShifts(1, 104);
    EightShifts(1, 112);
    EightShifts(1, 120);
  }

  lemma ShiftsNone(x: bv16)
    ensures Shifts(x, 0) == x
  {
  }

  /** The low eight bits, one by one. */
  function LowBit(t: nat): bv16
    requires t < 8
  {
    match t
    case 0 => 0x01
    case 1 => 0x02
    case 2 => 0x04
    case 3 => 0x08
    case 4 => 0x10
    case 5 => 0x20
    case 6 => 0x40
    case 7 => 0x80
  }

  lemma LowBits(t: nat)
    requires t < 8
    ensures Shifts(1, t) == LowBit(t) && LowBit(t) <= 0x80
  {
    hide Shifts, Ups, HasRoom;
    UpsOnBits(1);
    RoomOnBits(1);
    NoUps(1);
    ShiftsAreUps(1, t);
  }

  /** Within a frame the register does not come back. */
  lemma OneBitDoesNotReturn(n: nat)
    requires 0 < n < 8 * LONGEST
    ensures Shifts(1, n) != 1
  {
    hide Shifts, LowBit;
    var q, r := n / 8, n % 8;
    if r == 0 {
      AfterBytes(q);
    } else if Shifts(1, n) == 1 {
      AfterBytes(q + 1);
      ShiftsCompose(1, n, 8 - r);
      LowBits(8 - r);
    }
  }

  lemma OneBitDoesNotMeetItself(m: nat, n: nat)
    requires m < n < m + 8 * LONGEST
    ensures Shifts(1, m) != Shifts(1, n)
  {
    hide Shifts;
    OneBitDoesNotReturn(n - m);
    ShiftsCompose(1, n - m, m);
    ShiftsAreInjective(1, Shifts(1, n - m), m);
  }

  // --- bytes with one bit set --------------------------------------------------------------------

  lemma {:induction false} OnesFromTop(x: bv16, n: nat)
    ensures Ones(x, n + 1) == Ones(x, n) + TopBit(Ups(x, n))
    decreases n
  {
    hide Top, Up;
    if n > 0 {
      OnesFromTop(Up(x), n - 1);
    } else {
      assert Ones(Up(x), 0) == 0;
    }
  }

  lemma {:induction false} NoOnesInZero(n: nat)
    ensures Ones(0, n) == 0
    decreases n
  {
    hide Up;
    if n > 0 {
      TapConstants();
      NoOnesInZero(n - 1);
    }
  }

  lemma {:induction false} OnesInParts(x: bv16, m: nat, n: nat)
    ensures Ones(x, m + n) == Ones(x, m) + Ones(Ups(x, m), n)
    decreases m
  {
    hide Top, Up;
    if m > 0 {
      OnesInParts(Up(x), m - 1, n);
    }
  }

  function Bit(b: Byte): nat { if b != 0 then 1 else 0 }

  function SumOfBits(b: Byte): nat {
    Bit(b & 0x80) + Bit(b & 0x40) + Bit(b & 0x20) + Bit(b & 0x10) +
    Bit(b & 0x08) + Bit(b & 0x04) + Bit(b & 0x02) + Bit(b & 0x01)
  }

  lemma BitsOfHigh(b: Byte)
    ensures var x := High(b);
      && (Top(x) != 0 <==> b & 0x80 != 0) && (Top(x << 1) != 0 <==> b & 0x40 != 0)
      && (Top(x << 2) != 0 <==> b & 0x20 != 0) && (Top(x << 3) != 0 <==> b & 0x10 != 0)
      && (Top(x << 4) != 0 <==> b & 0x08 != 0) && (Top(x << 5) != 0 <==> b & 0x04 != 0)
      && (Top(x << 6) != 0 <==> b & 0x02 != 0) && (Top(x << 7) != 0 <==> b & 0x01 != 0)
      && x << 8 == 0
  {
  }

  function TopBit(x: bv16): nat { if Top(x) != 0 then 1 else 0 }

  lemma OnesOfEight(x: bv16)
    ensures Ones(x, 8) ==
      TopBit(x) + TopBit(x << 1) + TopBit(x << 2) + TopBit(x << 3) +
      TopBit(x << 4) + TopBit(x << 5) + TopBit(x << 6) + TopBit(x << 7)
  {
    hide Ones, Ups, TopBit;
    UpsOnBits(x);
    NoOnes(x);
    OnesFromTop(x, 0);
    OnesFromTop(x, 1);
    OnesFromTop(x, 2);
    OnesFromTop(x, 3);
    OnesFromTop(x, 4);
    OnesFromTop(x, 5);
    OnesFromTop(x, 6);
    OnesFromTop(x, 7);
  }

  lemma WeightOfUpper(b: Byte)
    ensures Weight(b) == Ones(High(b), 8)
  {
    hide High, Ones, Ups;
    OnesInParts(High(b), 8, 8);
    UpsOnBits(High(b));
    BitsOfHigh(b);
    NoOnesInZero(8);
  }

  lemma WeightIsSumOfBits(b: Byte)
    ensures Weight(b) == SumOfBits(b)
  {
    hide High, Ones, Weight, Top;
    OnesOfEight(High(b));
    WeightOfUpper(b);
    BitsOfHigh(b);
  }

  lemma NoOnes(x: bv16)
    ensures Ones(x, 0) == 0
  {
  }

  /** A byte with one bit set is that bit, moved to the top of the register by eight steps and its own place. */
  lemma OneBitByte(e: Byte) returns (t: nat)
    requires Weight(e) == 1
    ensures t < 8 && High(e) == Shifts(1, 8 + t)
  {
    hide Shifts, Weight, High, Low;
    WeightIsSumOfBits(e);
    t := PlaceOf(e);
    LowBits(t);
    LowByteMovesUp(e);
    ShiftsCompose(1, t, 8);
  }

  lemma PlaceOf(e: Byte) returns (t: nat)
    requires SumOfBits(e) == 1
    ensures t < 8 && Low(e) == LowBit(t)
  {
    t := if e & 0x80 != 0 then 7 else if e & 0x40 != 0 then 6 else if e & 0x20 != 0 then 5
         else if e & 0x10 != 0 then 4 else if e & 0x08 != 0 then 3 else if e & 0x04 != 0 then 2
         else if e & 0x02 != 0 then 1 else 0;
  }

  lemma NoBits(e: Byte)
    ensures Weight(e) == 0 <==> e == 0
  {
    hide Weight;
    WeightIsSumOfBits(e);
  }

  // --- flips in a string -------------------------------------------------------------------------

  function Difference(c: bv16, x: Bytes, y: Bytes): bv16 { Xor(CrcFrom(c, x), CrcFrom(c, y)) }

  /** How one more byte on either side moves the difference. */
  lemma DifferenceNext(c: bv16, x: Bytes, y: Bytes)
    requires |x| == |y| > 0
    ensures Difference(c, x, y) == Shifts(
      Xor(Difference(c, x[..|x| - 1], y[..|y| - 1]), High(x[|x| - 1] ^ y[|y| - 1])), 8)
  {
    hide Xor, Shifts, High;
    var cx, cy, a, b := CrcFrom(c, x[..|x| - 1]), CrcFrom(c, y[..|y| - 1]), x[|x| - 1], y[|y| - 1];
    ShiftsAreLinear(Xor(cx, High(a)), Xor(cy, High(b)), 8);
    XorReorders();
    Exchange(Xor, cx, High(a), cy, High(b));
    HighIsLinear(a, b);
  }

  lemma ZeroByte()
    ensures High(0) == 0
  {
  }

  lemma {:induction false} NoFlip(c: bv16, x: Bytes, y: Bytes)
    requires |x| == |y| && FlippedBits(x, y) == 0
    ensures Difference(c, x, y) == 0
  {
    hide Xor, Shifts, High, Weight, CrcFrom;
    if x == [] {
      XorSelf(CrcFrom(c, x));
    } else {
      NoFlip(c, x[..|x| - 1], y[..|y| - 1]);
      NoBits(x[|x| - 1] ^ y[|y| - 1]);
      DifferenceNext(c, x, y);
      ZeroByte();
      XorSelf(0);
      ShiftsOfZero(8);
    }
  }

  /** One flipped bit leaves one bit in the register, moved on as far as it stood from the end. */
  lemma {:induction false} OneFlip(c: bv16, x: Bytes, y: Bytes) returns (k: nat)
    requires |x| == |y| && FlippedBits(x, y) == 1
    ensures 16 <= k < 16 + 8 * |x| && Difference(c, x, y) == Shifts(1, k)
  {
    hide Xor, Shifts, High, Weight, Difference;
    var x', y', e := x[..|x| - 1], y[..|y| - 1], x[|x| - 1] ^ y[|y| - 1];
    DifferenceNext(c, x, y);
    if Weight(e) == 0 {
      k := OneFlip(c, x', y');
      NoBits(e);
      ZeroByte();
      XorSelf(Shifts(1, k));
      ShiftsCompose(1, k, 8);
      k := k + 8;
    } else {
      var t := OneBitByte(e);
      NoFlip(c, x', y');
      XorSelf(High(e));
      ShiftsCompose(1, 8 + t, 8);
      k := 16 + t;
    }
  }

  lemma {:induction false} TwoFlips(c: bv16, x: Bytes, y: Bytes)
    requires |x| == |y| <= LONGEST && FlippedBits(x, y) == 2
    ensures Difference(c, x, y) != 0
  {
    hide Xor, Shifts, High, Weight, Difference;
    var x', y', e := x[..|x| - 1], y[..|y| - 1], x[|x| - 1] ^ y[|y| - 1];
    DifferenceNext(c, x, y);
    var before := Xor(Difference(c, x', y'), High(e));
    assert before != 0 by {
      NoBits(e);
      ZeroByte();
      if Weight(e) == 0 {
        TwoFlips(c, x', y');
        XorSelf(Difference(c, x', y'));
      } else if Weight(e) == 1 {
        var k := OneFlip(c, x', y');
        var t := OneBitByte(e);
        OneBitDoesNotMeetItself(8 + t, k);
        XorIsZeroOnEqual(Difference(c, x', y'), High(e));
      } else {
        NoFlip(c, x', y');
        XorSelf(High(e));
        HighOfSome(e);
      }
    }
    if Shifts(before, 8) == 0 {
      ShiftsLoseNothing(before, 8);
    }
  }

  lemma HighOfSome(e: Byte)
    requires e != 0
    ensures High(e) != 0
  {
  }

  /** Any two flipped bits of a string no longer than a frame change the checksum. */
  lemma TwoFlipsChangeCrc(c: bv16, x: Bytes, y: Bytes)
    requires |x| == |y| <= LONGEST && FlippedBits(x, y) == 2
    ensures CrcFrom(c, x) != CrcFrom(c, y)
  {
    hide Xor, CrcFrom, FlippedBits;
    TwoFlips(c, x, y);
    XorIsZeroOnEqual(CrcFrom(c, x), CrcFrom(c, y));
  }
}

/** What a CRC is: the remainder of a polynomial over GF(2), by long division on its coefficients, highest first. */
module CrcDivision {
  import opened Bits16
  import opened CrcRegister

  /** The exponents of the generator x^16 + x^12 + x^5 + 1. */
  const GENERATOR: set<int> := {16, 12, 5, 0}

  /** Coefficient i of a register, counted from the highest: what stands at the top after i moves up. */
  predicate Digit(x: bv16, i: nat) { Top(Ups(x, i)) != 0 }

  /** A byte moved up i times, and its coefficient i. */
  function ByteUps(b: Byte, i: nat): Byte
    decreases i
  {
    if i == 0 then b else ByteUps(b << 1, i - 1)
  }

  predicate ByteDigit(b: Byte, i: nat) { ByteUps(b, i) & 0x80 != 0 }

  function Digits(x: bv16): (r: seq<bool>)
    ensures |r| == 16
  {
    seq(16, i requires 0 <= i < 16 => Digit(x, i))
  }

  function ByteDigits(b: Byte): (r: seq<bool>)
    ensures |r| == 8
  {
    seq(8, i requires 0 <= i < 8 => ByteDigit(b, i))
  }

  /** One step of the division: the generator, moved up to the highest coefficient, is taken off if that is one. */
  function Reduce(p: seq<bool>): (r: seq<bool>)
    requires |p| > 16
    ensures |r| == |p| - 1
  {
    seq(|p| - 1, i requires 0 <= i < |p| - 1 => p[i + 1] != (p[0] && 15 - i in GENERATOR))
  }

  /** What long division leaves. */
  function Remainder(p: seq<bool>): (r: seq<bool>)
    requires |p| >= 16
    ensures |r| == 16
    decreases |p|
  {
    if |p| == 16 then p else Remainder(Reduce(p))
  }

  /** The coefficients of a message, first byte highest. */
  function Message(data: Bytes): (r: seq<bool>)
    ensures |r| == 8 * |data|
  {
    if data == [] then [] else Message(data[..|data| - 1]) + ByteDigits(data[|data| - 1])
  }

  /** The message moved up by sixteen places, plus sixteen ones moved up by its length. */
  function Dividend(data: Bytes): (r: seq<bool>)
    ensures |r| == 8 * |data| + 16
  {
    var n := 8 * |data|;
    seq(n + 16, k requires 0 <= k < n + 16 => (k < 16) != (k < n && Message(data)[k]))
  }

  // --- laws of the division ----------------------------------------------------------------------

  /** Sum of two polynomials of one length. */
  function Sum(p: seq<bool>, q: seq<bool>): (r: seq<bool>)
    requires |p| == |q|
    ensures |r| == |p|
  {
    seq(|p|, i requires 0 <= i < |p| => p[i] != q[i])
  }

  function Zeros(n: nat): (r: seq<bool>)
    ensures |r| == n
  {
    seq(n, i => false)
  }

  /** What is added below the sixteenth place is added to the remainder. */
  lemma {:induction false} RemainderOfSum(p: seq<bool>, q: seq<bool>)
    requires |p| >= 16 && |q| == 16
    ensures Remainder(Sum(p, Zeros(|p| - 16) + q)) == Sum(Remainder(p), q)
    decreases |p|
  {
    if |p| == 16 {
      assert Zeros(0) + q == q;
    } else {
      RemainderOfSum(Reduce(p), q);
      assert Reduce(Sum(p, Zeros(|p| - 16) + q)) == Sum(Reduce(p), Zeros(|p| - 17) + q);
    }
  }

  /** One more place at the end is one more step on the remainder. */
  lemma {:induction false} RemainderMovedUp(p: seq<bool>)
    requires |p| >= 16
    ensures Remainder(p + [false]) == Reduce(Remainder(p) + [false])
    decreases |p|
  {
    if |p| == 16 {
      assert Remainder(p + [false]) == Remainder(Reduce(p + [false]));
    } else {
      RemainderMovedUp(Reduce(p));
      assert Reduce(p + [false]) == Reduce(p) + [false];
    }
  }

  // --- the register ------------------------------------------------------------------------------

  /** A step of the register is a step of the division. */
  lemma DigitsOfShift(x: bv16)
    ensures Digits(Shift(x)) == Reduce(Digits(x) + [false])
  {
    hide Shift, Digit, Xor;
    ShiftIsUp(x);
    var d := Digits(x) + [false];
    assert d[0] <==> x & 0x8000 != 0 by { TopDigit(x); }
    forall i | 0 <= i < 16
      ensures Digit(Shift(x), i) == (d[i + 1] != (d[0] && 15 - i in GENERATOR))
    {
      DigitMovedUp(x, i);
      DigitOfXor(Up(x), 0x1021, i);
      DigitOfTaps(i);
    }
  }

  lemma ShiftIsUp(x: bv16)
    ensures Shift(x) == if x & 0x8000 != 0 then Xor(Up(x), 0x1021) else Up(x)
  {
    hide Shift;
    ShiftAsBranch(x);
  }

  lemma TopDigit(x: bv16)
    ensures Digit(x, 0) <==> x & 0x8000 != 0
  {
  }

  lemma DigitMovedUp(x: bv16, i: nat)
    requires i < 16
    ensures Digit(Up(x), i) <==> i < 15 && Digit(x, i + 1)
  {
    hide Up, Top;
    assert Ups(x, i + 1) == Ups(Up(x), i);
    if i == 15 {
      UpsClear(x);
      TopOfZero();
    }
  }

  lemma {:induction false} UpsAreLinear(a: bv16, b: bv16, n: nat)
    ensures Ups(Xor(a, b), n) == Xor(Ups(a, n), Ups(b, n))
    decreases n
  {
    hide Xor, Up;
    if n > 0 {
      UpIsLinear(a, b);
      UpsAreLinear(Up(a), Up(b), n - 1);
    }
  }

  lemma DigitOfXor(a: bv16, b: bv16, i: nat)
    ensures Digit(Xor(a, b), i) <==> Digit(a, i) != Digit(b, i)
  {
    hide Xor, Ups, Top;
    UpsAreLinear(a, b, i);
    TopIsLinear(Ups(a, i), Ups(b, i));
    TopsDiffer(Ups(a, i), Ups(b, i));
  }

  lemma TopsDiffer(a: bv16, b: bv16)
    ensures Xor(Top(a), Top(b)) != 0 <==> (Top(a) != 0) != (Top(b) != 0)
  {
  }

  /** 0x1021, moved up place by place. */
  lemma UpsOfTaps()
    ensures Up(0x1021) == 0x2042 && Up(0x2042) == 0x4084 && Up(0x4084) == 0x8108 && Up(0x8108) == 0x0210
    ensures Up(0x0210) == 0x0420 && Up(0x0420) == 0x0840 && Up(0x0840) == 0x1080 && Up(0x1080) == 0x2100
    ensures Up(0x2100) == 0x4200 && Up(0x4200) == 0x8400 && Up(0x8400) == 0x0800 && Up(0x0800) == 0x1000
    ensures Up(0x1000) == 0x2000 && Up(0x2000) == 0x4000 && Up(0x4000) == 0x8000 && Up(0x8000) == 0x0000
  {
  }

  /** Sixteen ones, moved up place by place. */
  lemma UpsOfOnes()
    ensures Up(0xFFFF) == 0xFFFE && Up(0xFFFE) == 0xFFFC && Up(0xFFFC) == 0xFFF8 && Up(0xFFF8) == 0xFFF0
    ensures Up(0xFFF0) == 0xFFE0 && Up(0xFFE0) == 0xFFC0 && Up(0xFFC0) == 0xFF80 && Up(0xFF80) == 0xFF00
    ensures Up(0xFF00) == 0xFE00 && Up(0xFE00) == 0xFC00 && Up(0xFC00) == 0xF800 && Up(0xF800) == 0xF000
    ensures Up(0xF000) == 0xE000 && Up(0xE000) == 0xC000 && Up(0xC000) == 0x8000 && Up(0x8000) == 0x0000
  {
  }

  /** The digits of a value whose moves up are listed. */
  lemma {:induction false} DigitsByMoves(moves: seq<bv16>, n: nat)
    requires n < |moves| && forall i :: 0 <= i < |moves| - 1 ==> Up(moves[i]) == moves[i + 1]
    ensures Ups(moves[0], n) == moves[n]
    decreases n
  {
    hide Up;
    NoUps(moves[0]);
    if n > 0 {
      DigitsByMoves(moves, n - 1);
      UpsNext(moves[0], n - 1);
    }
  }

  lemma DigitOfTaps(i: nat)
    requires i < 16
    ensures Digit(0x1021, i) <==> 15 - i in GENERATOR
  {
    hide Up, Ups, Top;
    UpsOfTaps();
    TopsOfTaps();
    DigitsByMoves([0x1021, 0x2042, 0x4084, 0x8108, 0x0210, 0x0420, 0x0840, 0x1080,
                   0x2100, 0x4200, 0x8400, 0x0800, 0x1000, 0x2000, 0x4000, 0x8000], i);
  }

  lemma TopsOfTaps()
    ensures Top(0x1021) == 0 && Top(0x2042) == 0 && Top(0x4084) == 0 && Top(0x8108) != 0
    ensures Top(0x0210) == 0 && Top(0x0420) == 0 && Top(0x0840) == 0 && Top(0x1080) == 0
    ensures Top(0x2100) == 0 && Top(0x4200) == 0 && Top(0x8400) != 0 && Top(0x0800) == 0
    ensures Top(0x1000) == 0 && Top(0x2000) == 0 && Top(0x4000) == 0 && Top(0x8000) != 0
  {
  }

  lemma DigitOfOnes(i: nat)
    requires i < 16
    ensures Digit(0xFFFF, i)
  {
    hide Up, Ups, Top;
    UpsOfOnes();
    TopsOfOnes();
    DigitsByMoves([0xFFFF, 0xFFFE, 0xFFFC, 0xFFF8, 0xFFF0, 0xFFE0, 0xFFC0, 0xFF80,
                   0xFF00, 0xFE00, 0xFC00, 0xF800, 0xF000, 0xE000, 0xC000, 0x8000], i);
  }

  lemma TopsOfOnes()
    ensures Top(0xFFFF) != 0 && Top(0xFFFE) != 0 && Top(0xFFFC) != 0 && Top(0xFFF8) != 0
    ensures Top(0xFFF0) != 0 && Top(0xFFE0) != 0 && Top(0xFFC0) != 0 && Top(0xFF80) != 0
    ensures Top(0xFF00) != 0 && Top(0xFE00) != 0 && Top(0xFC00) != 0 && Top(0xF800) != 0
    ensures Top(0xF000) != 0 && Top(0xE000) != 0 && Top(0xC000) != 0 && Top(0x8000) != 0
  {
  }

  /** A byte taken in at the top of the register. */
  lemma DigitsOfXor(x: bv16, b: Byte)
    ensures Digits(Xor(x, High(b))) == Sum(Digits(x), ByteDigits(b) + Zeros(8))
  {
    hide Digit, ByteDigit, Xor, High;
    forall i | 0 <= i < 16
      ensures Digit(Xor(x, High(b)), i) == (Digit(x, i) != (ByteDigits(b) + Zeros(8))[i])
    {
      DigitOfXor(x, High(b), i);
      DigitOfHigh(b, i);
    }
  }

  lemma {:induction false} UpsOfHigh(b: Byte, n: nat)
    ensures Ups(High(b), n) == High(ByteUps(b, n))
    decreases n
  {
    hide Up, High;
    if n > 0 {
      UpOfHigh(b);
      UpsOfHigh(b << 1, n - 1);
    }
  }

  lemma UpOfHigh(b: Byte)
    ensures Up(High(b)) == High(b << 1)
    ensures Top(High(b)) != 0 <==> b & 0x80 != 0
  {
  }

  lemma DigitOfHigh(b: Byte, i: nat)
    ensures Digit(High(b), i) <==> i < 8 && ByteDigit(b, i)
  {
    hide Ups, High, ByteUps, Top;
    UpsOfHigh(b, i);
    UpOfHigh(ByteUps(b, i));
    if i >= 8 {
      EightMovesClear(b, i);
    }
  }

  lemma {:induction false} EightMovesClear(b: Byte, i: nat)
    requires i >= 8
    ensures ByteUps(b, i) == 0
    decreases i
  {
    MovesInTwo(b, 4, i - 4);
    MovesInTwo(ByteUps(b, 4), 4, i - 8);
    FourMoves(b);
    FourMoves(ByteUps(b, 4));
    EightIsAll(b);
    ZeroStays(i - 8);
  }

  lemma {:induction false} MovesInTwo(b: Byte, m: nat, n: nat)
    ensures ByteUps(b, m + n) == ByteUps(ByteUps(b, m), n)
    decreases m
  {
    if m > 0 {
      MovesInTwo(b << 1, m - 1, n);
    }
  }

  lemma FourMoves(b: Byte)
    ensures ByteUps(b, 4) == (((b << 1) << 1) << 1) << 1
  {
  }

  lemma EightIsAll(b: Byte)
    ensures var mid := (((b << 1) << 1) << 1) << 1; (((mid << 1) << 1) << 1) << 1 == 0
  {
  }

  lemma {:induction false} ZeroStays(n: nat)
    ensures ByteUps(0, n) == 0
    decreases n
  {
    if n > 0 {
      ZeroStays(n - 1);
    }
  }

  /** `n` steps of the register are `n` places at the end of the dividend. */
  lemma {:induction false} DigitsOfShifts(p: seq<bool>, x: bv16, n: nat)
    requires |p| >= 16 && Remainder(p) == Digits(x)
    ensures Remainder(p + Zeros(n)) == Digits(Shifts(x, n))
    decreases n
  {
    hide Shift, Digits, Remainder, Reduce;
    if n == 0 {
      assert p + Zeros(0) == p;
    } else {
      DigitsOfShifts(p, x, n - 1);
      assert p + Zeros(n) == (p + Zeros(n - 1)) + [false];
      RemainderMovedUp(p + Zeros(n - 1));
      DigitsOfShift(Shifts(x, n - 1));
    }
  }

  /** One more byte of the message. */
  lemma DividendGrows(data: Bytes)
    requires data != []
    ensures var init, b := data[..|data| - 1], data[|data| - 1];
      Dividend(data) == Sum(Dividend(init), Zeros(8 * |init|) + (ByteDigits(b) + Zeros(8))) + Zeros(8)
  {
    hide ByteDigits;
    var init, b := data[..|data| - 1], data[|data| - 1];
    var n := 8 * |init|;
    var sum := Sum(Dividend(init), Zeros(n) + (ByteDigits(b) + Zeros(8))) + Zeros(8);
    forall k | 0 <= k < n + 24
      ensures Dividend(data)[k] == sum[k]
    {
      if k < n {
        assert Message(data)[k] == Message(init)[k];
      } else if k < n + 8 {
        assert Message(data)[k] == ByteDigits(b)[k - n];
      }
    }
  }

  /** A register without ones, and so without steps that take the generator off, is zero. */
  lemma NoOnesIsZero(x: bv16)
    requires forall i :: 0 <= i < 16 ==> !Digit(x, i)
    ensures x == 0
  {
    hide Ups, Shifts, HasRoom;
    RoomWithoutOnes(x, 16);
    ShiftsAreUps(x, 16);
    UpsClear(x);
    ShiftsLoseNothing(x, 16);
  }

  lemma {:induction false} RoomWithoutOnes(x: bv16, n: nat)
    requires forall i :: 0 <= i < n ==> !Digit(x, i)
    ensures HasRoom(x, n)
  {
    hide Ups, HasRoom;
    NoUps(x);
    if n > 0 {
      RoomWithoutOnes(x, n - 1);
      UpsNext(x, n - 1);
      assert !Digit(x, n - 1);
    }
  }

  /** A register is known by its coefficients. */
  lemma DigitsTell(a: bv16, b: bv16)
    requires Digits(a) == Digits(b)
    ensures a == b
  {
    hide Xor, Digit;
    forall i | 0 <= i < 16
      ensures !Digit(Xor(a, b), i)
    {
      assert Digits(a)[i] == Digits(b)[i];
      DigitOfXor(a, b, i);
    }
    NoOnesIsZero(Xor(a, b));
    XorIsZeroOnEqual(a, b);
  }
}

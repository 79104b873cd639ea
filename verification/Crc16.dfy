/** CRC-16/CCITT-FALSE (polynomial 0x1021, preset 0xFFFF), bit by bit as the codec computes it.

    The bit operators are named functions, each with its laws; the lemmas here hide the operators they build on and
    reason by those laws alone. */
module Crc16 {
  import opened Bits16
  import opened CrcRegister
  import opened CrcDivision

  const PRESET: bv16 := 0xFFFF

  /** Fold one byte into the register. */
  function Absorb(crc: bv16, b: Byte): bv16 { Shifts(Xor(crc, High(b)), 8) }

  /** Fold a byte string into the register, last byte last. */
  function CrcFrom(crc: bv16, data: Bytes): bv16 {
    if data == [] then crc else Absorb(CrcFrom(crc, data[..|data| - 1]), data[|data| - 1])
  }

  function Crc(data: Bytes): bv16 { CrcFrom(PRESET, data) }

  /** The register after a message is the remainder of the message, moved up by sixteen places, plus sixteen ones moved
      up by its length, on division by x^16 + x^12 + x^5 + 1. */
  lemma {:induction false} CrcIsRemainder(data: Bytes)
    ensures Digits(Crc(data)) == Remainder(Dividend(data))
  {
    hide Shifts, Xor, High, Digits, ByteDigits, Remainder, Dividend;
    if data == [] {
      NoMessage();
    } else {
      var init, b := data[..|data| - 1], data[|data| - 1];
      CrcIsRemainder(init);
      var p := Sum(Dividend(init), Zeros(8 * |init|) + (ByteDigits(b) + Zeros(8)));
      RemainderOfSum(Dividend(init), ByteDigits(b) + Zeros(8));
      DigitsOfXor(Crc(init), b);
      DigitsOfShifts(p, Xor(Crc(init), High(b)), 8);
      DividendGrows(data);
    }
  }

  lemma NoMessage()
    ensures Digits(PRESET) == Remainder(Dividend([]))
  {
    hide Digit;
    forall i | 0 <= i < 16
      ensures Digit(PRESET, i)
    {
      DigitOfOnes(i);
    }
    assert Dividend([]) == Digits(PRESET);
  }

  /** A number of sixteen bits whose bits are the remainder of a byte string. */
  predicate IsChecksum(crc: nat, data: Bytes) {
    crc < 0x1_0000 && Digits(crc as bv16) == Remainder(Dividend(data))
  }

  lemma CrcIsChecksum(data: Bytes)
    ensures IsChecksum(Crc(data) as nat, data)
  {
    hide Crc, Digits, Remainder, Dividend;
    CrcIsRemainder(data);
    var x := Crc(data);
    assert (x as nat) as bv16 == x;
  }

  /** The two nested loops of the source, on a sixteen-bit register. */
  method Crc16CcittFalse(data: Bytes) returns (crc: nat)
    ensures crc == Crc(data) as nat
    ensures IsChecksum(crc, data)
  {
    hide Shift, Xor, High, IsChecksum;
    CrcIsChecksum(data);
    var register := PRESET;
    for i := 0 to |data|
      invariant register == CrcFrom(PRESET, data[..i])
    {
      register := Xor(register, High(data[i]));
      ghost var start := register;
      for k := 0 to 8
        invariant register == Shifts(start, k)
      {
        ShiftAsBranch(register);
        if register & 0x8000 != 0 {
          register := (register << 1) ^ 0x1021;
        } else {
          register := register << 1;
        }
      }
      assert data[..i + 1][..i] == data[..i];
    }
    assert data[..|data|] == data;
    return register as nat;
  }
}

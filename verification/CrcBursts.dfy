/** The checksum detects every burst: any damage confined to sixteen consecutive bits, wherever it starts. */
module CrcBursts {
  import opened Bits16
  import opened CrcRegister
  import opened Crc16
  import opened CrcDetection

  /** The upper, and the lower, `n` bits of a byte. */
  function UpperBits(n: nat): Byte {
    match n
    case 0 => 0x00
    case 1 => 0x80
    case 2 => 0xC0
    case 3 => 0xE0
    case 4 => 0xF0
    case 5 => 0xF8
    case 6 => 0xFC
    case 7 => 0xFE
    case _ => 0xFF
  }

  function LowerBits(n: nat): Byte {
    match n
    case 0 => 0x00
    case 1 => 0x01
    case 2 => 0x03
    case 3 => 0x07
    case 4 => 0x0F
    case 5 => 0x1F
    case 6 => 0x3F
    case 7 => 0x7F
    case _ => 0xFF
  }

  /** Three bytes whose ones lie within the sixteen consecutive bits that start `8 - j` bits after the first bit. */
  predicate IsBurst(e0: Byte, e2: Byte, j: nat) {
    j <= 8 && e0 & UpperBits(8 - j) == 0 && e2 & LowerBits(j) == 0
  }

  // --- the bits of a burst -----------------------------------------------------------------------

  /** Where the last byte of a burst stands `j` steps before its place. */
  function Earlier(e2: Byte, j: nat): bv16 {
    match j
    case 0 => (e2 as bv16)
    case 1 => (e2 as bv16) >> 1
    case 2 => (e2 as bv16) >> 2
    case 3 => (e2 as bv16) >> 3
    case 4 => (e2 as bv16) >> 4
    case 5 => (e2 as bv16) >> 5
    case 6 => (e2 as bv16) >> 6
    case 7 => (e2 as bv16) >> 7
    case _ => (e2 as bv16) >> 8
  }

  lemma FirstBytesHaveRoom(e0: Byte, e1: Byte, e2: Byte, j: nat)
    requires IsBurst(e0, e2, j)
    ensures HasRoom(Xor(High(e0), Low(e1)), 8 - j)
  {
    hide HasRoom;
    var u := Xor(High(e0), Low(e1));
    RoomOnBits(u);
    NoUps(u);
  }

  lemma LastByteHasRoom(e0: Byte, e2: Byte, j: nat)
    requires IsBurst(e0, e2, j)
    ensures HasRoom(Earlier(e2, j), j) && Ups(Earlier(e2, j), j) == Low(e2)
  {
    hide HasRoom, Ups;
    RoomOnBits(Earlier(e2, j));
    UpsOnBits(Earlier(e2, j));
    NoUps(Earlier(e2, j));
  }

  /** The two parts of a burst occupy different places, so they agree only if there is nothing in them. */
  lemma PartsDiffer(e0: Byte, e1: Byte, e2: Byte, j: nat)
    requires IsBurst(e0, e2, j) && Ups(Xor(High(e0), Low(e1)), 8 - j) == Earlier(e2, j)
    ensures e0 == 0 && e1 == 0 && e2 == 0
  {
    hide Ups;
    UpsOnBits(Xor(High(e0), Low(e1)));
  }

  // --- bursts in the register --------------------------------------------------------------------

  /** A burst that is not empty does not vanish in the register. */
  lemma BurstDoesNotVanish(e0: Byte, e1: Byte, e2: Byte, j: nat)
    requires IsBurst(e0, e2, j) && (e0 != 0 || e1 != 0 || e2 != 0)
    ensures Shifts(Xor(High(e0), Low(e1)), 8) != Low(e2)
  {
    hide Xor, High, Low, Shifts, Ups, HasRoom, Earlier, IsBurst;
    assert j <= 8 by { BurstStarts(e0, e2, j); }
    var u, v := Xor(High(e0), Low(e1)), Earlier(e2, j);
    FirstBytesHaveRoom(e0, e1, e2, j);
    LastByteHasRoom(e0, e2, j);
    ShiftsAreUps(u, 8 - j);
    ShiftsAreUps(v, j);
    ShiftsCompose(u, 8 - j, j);
    if Shifts(u, 8) == Low(e2) {
      if Ups(u, 8 - j) != v {
        ShiftsAreInjective(Ups(u, 8 - j), v, j);
      }
      PartsDiffer(e0, e1, e2, j);
    }
  }

  lemma BurstStarts(e0: Byte, e2: Byte, j: nat)
    requires IsBurst(e0, e2, j)
    ensures j <= 8
  {
  }

  /** Three bytes absorbed one after the other. */
  lemma AbsorbThree(c: bv16, a0: Byte, a1: Byte, a2: Byte)
    ensures Absorb(Absorb(Absorb(c, a0), a1), a2)
         == Shifts(Xor(Shifts(Xor(c, Xor(High(a0), Low(a1))), 8), Low(a2)), 16)
  {
    hide Xor, Shifts, High, Low;
    var x := Xor(c, Xor(High(a0), Low(a1)));
    AbsorbTwo(c, a0, a1);
    calc {
      Absorb(Absorb(Absorb(c, a0), a1), a2);
      Shifts(Xor(Shifts(x, 16), High(a2)), 8);
      { ShiftsCompose(x, 8, 8); LowByteMovesUp(a2); }
      Shifts(Xor(Shifts(Shifts(x, 8), 8), Shifts(Low(a2), 8)), 8);
      { ShiftsAreLinear(Shifts(x, 8), Low(a2), 8); }
      Shifts(Shifts(Xor(Shifts(x, 8), Low(a2)), 8), 8);
      { ShiftsCompose(Xor(Shifts(x, 8), Low(a2)), 8, 8); }
      Shifts(Xor(Shifts(x, 8), Low(a2)), 16);
    }
  }

  lemma LowIsLinear(a: Byte, b: Byte)
    ensures Low(a ^ b) == Xor(Low(a), Low(b))
  {
  }

  /** Equal values on both sides of an exclusive-or, rearranged. */
  lemma XorMoves(a: bv16, b: bv16, p: bv16, q: bv16)
    requires Xor(a, p) == Xor(b, q)
    ensures Xor(a, b) == Xor(p, q)
  {
    hide Xor;
    XorReorders();
    Exchange(Xor, a, p, b, q);
    XorSelf(Xor(a, p));
    XorIsZeroOnEqual(Xor(a, b), Xor(p, q));
  }

  /** Two starts of three bytes, exclusive-ored, are the start of their differences. */
  lemma StartsDiffer(c: bv16, a0: Byte, a1: Byte, b0: Byte, b1: Byte)
    ensures Xor(Xor(c, Xor(High(a0), Low(a1))), Xor(c, Xor(High(b0), Low(b1)))) == Xor(High(a0 ^ b0), Low(a1 ^ b1))
  {
    hide Xor, High, Low;
    XorReorders();
    Exchange(Xor, c, Xor(High(a0), Low(a1)), c, Xor(High(b0), Low(b1)));
    XorSelf(c);
    XorSelf(Xor(Xor(High(a0), Low(a1)), Xor(High(b0), Low(b1))));
    Exchange(Xor, High(a0), Low(a1), High(b0), Low(b1));
    HighIsLinear(a0, b0);
    LowIsLinear(a1, b1);
  }

  lemma BurstChangesRegister(c: bv16, a0: Byte, a1: Byte, a2: Byte, b0: Byte, b1: Byte, b2: Byte, j: nat)
    requires IsBurst(a0 ^ b0, a2 ^ b2, j) && (a0 ^ b0 != 0 || a1 ^ b1 != 0 || a2 ^ b2 != 0)
    ensures Absorb(Absorb(Absorb(c, a0), a1), a2) != Absorb(Absorb(Absorb(c, b0), b1), b2)
  {
    hide Xor, Shifts, High, Low, Absorb, IsBurst;
    var x, y := Xor(c, Xor(High(a0), Low(a1))), Xor(c, Xor(High(b0), Low(b1)));
    AbsorbThree(c, a0, a1, a2);
    AbsorbThree(c, b0, b1, b2);
    var p, q := Xor(Shifts(x, 8), Low(a2)), Xor(Shifts(y, 8), Low(b2));
    if p == q {
      XorMoves(Shifts(x, 8), Shifts(y, 8), Low(a2), Low(b2));
      ShiftsAreLinear(x, y, 8);
      StartsDiffer(c, a0, a1, b0, b1);
      LowIsLinear(a2, b2);
      BurstDoesNotVanish(a0 ^ b0, a1 ^ b1, a2 ^ b2, j);
    } else {
      ShiftsAreInjective(p, q, 16);
    }
  }

  lemma CrcOfThree(c: bv16, a: Byte, b: Byte, d: Byte)
    ensures CrcFrom(c, [a, b, d]) == Absorb(Absorb(Absorb(c, a), b), d)
  {
    hide Absorb;
    assert [a, b, d][..2] == [a, b];
    CrcOfTwo(c, a, b);
  }

  lemma EqualBytes(a: Byte, b: Byte)
    ensures a ^ b == 0 <==> a == b
  {
  }

  /** A change confined to sixteen consecutive bits always changes the checksum, whatever stands around it. */
  lemma BurstChangesCrc(
      c: bv16, p: Bytes, a0: Byte, a1: Byte, a2: Byte, b0: Byte, b1: Byte, b2: Byte, s: Bytes, j: nat)
    requires IsBurst(a0 ^ b0, a2 ^ b2, j) && (a0 != b0 || a1 != b1 || a2 != b2)
    ensures CrcFrom(c, p + [a0, a1, a2] + s) != CrcFrom(c, p + [b0, b1, b2] + s)
  {
    hide Absorb, CrcFrom, IsBurst;
    EqualBytes(a0, b0);
    EqualBytes(a1, b1);
    EqualBytes(a2, b2);
    var reg := CrcFrom(c, p);
    CrcOfConcat(c, p, [a0, a1, a2]);
    CrcOfConcat(c, p, [b0, b1, b2]);
    CrcOfConcat(c, p + [a0, a1, a2], s);
    CrcOfConcat(c, p + [b0, b1, b2], s);
    CrcOfThree(reg, a0, a1, a2);
    CrcOfThree(reg, b0, b1, b2);
    BurstChangesRegister(reg, a0, a1, a2, b0, b1, b2, j);
    CommonTailKeepsDifference(CrcFrom(reg, [a0, a1, a2]), CrcFrom(reg, [b0, b1, b2]), s);
  }
}

/** What the checksum of a frame detects: damage to two adjacent bytes; and only the right checksum passes. */
module CrcDetection {
  import opened Bits16
  import opened CrcRegister
  import opened Crc16

  lemma {:induction false} CrcOfConcat(c: bv16, p: Bytes, s: Bytes)
    ensures CrcFrom(c, p + s) == CrcFrom(CrcFrom(c, p), s)
  {
    hide Absorb;
    if s == [] {
      assert p + s == p;
    } else {
      assert (p + s)[..|p + s| - 1] == p + s[..|s| - 1];
      CrcOfConcat(c, p, s[..|s| - 1]);
    }
  }

  lemma CrcOfTwo(c: bv16, a: Byte, b: Byte)
    ensures CrcFrom(c, [a, b]) == Absorb(Absorb(c, a), b)
  {
    hide Absorb;
    assert [a, b][..1] == [a];
    assert [a][..0] == [];
    assert CrcFrom(c, [a]) == Absorb(c, a);
  }

  /** Two bytes absorbed one after the other are sixteen steps over the two bytes side by side. */
  lemma AbsorbTwo(c: bv16, a: Byte, b: Byte)
    ensures Absorb(Absorb(c, a), b) == Shifts(Xor(c, Xor(High(a), Low(b))), 16)
  {
    hide Xor, Shifts, High, Low;
    var hi := Xor(c, High(a));
    calc {
      Absorb(Absorb(c, a), b);
      Shifts(Xor(Shifts(hi, 8), High(b)), 8);
      { LowByteMovesUp(b); ShiftsAreLinear(hi, Low(b), 8); }
      Shifts(Shifts(Xor(hi, Low(b)), 8), 8);
      { ShiftsCompose(Xor(hi, Low(b)), 8, 8); XorAssociates(c, High(a), Low(b)); }
      Shifts(Xor(c, Xor(High(a), Low(b))), 16);
    }
  }

  /** A linear fact used below: adding the same value keeps values apart. */
  lemma XorKeepsApart(c: bv16, x: bv16, y: bv16)
    requires x != y
    ensures Xor(c, x) != Xor(c, y) && Xor(x, c) != Xor(y, c)
  {
  }

  /** A difference in the register survives any common tail. */
  lemma {:induction false} CommonTailKeepsDifference(c: bv16, d: bv16, s: Bytes)
    requires c != d
    ensures CrcFrom(c, s) != CrcFrom(d, s)
  {
    hide Xor, Shifts, High;
    if s != [] {
      var b, init := s[|s| - 1], s[..|s| - 1];
      CommonTailKeepsDifference(c, d, init);
      XorKeepsApart(High(b), CrcFrom(c, init), CrcFrom(d, init));
      ShiftsAreInjective(Xor(CrcFrom(c, init), High(b)), Xor(CrcFrom(d, init), High(b)), 8);
    }
  }

  /** A change confined to two adjacent bytes always changes the checksum, whatever stands around it. */
  lemma TwoByteBurstChangesCrc(c: bv16, p: Bytes, a0: Byte, a1: Byte, b0: Byte, b1: Byte, s: Bytes)
    requires a0 != b0 || a1 != b1
    ensures CrcFrom(c, p + [a0, a1] + s) != CrcFrom(c, p + [b0, b1] + s)
  {
    hide Xor, Shifts, High, Low, Absorb, CrcFrom;
    var reg := CrcFrom(c, p);
    CrcOfConcat(c, p, [a0, a1]);
    CrcOfConcat(c, p, [b0, b1]);
    CrcOfConcat(c, p + [a0, a1], s);
    CrcOfConcat(c, p + [b0, b1], s);
    CrcOfTwo(reg, a0, a1);
    CrcOfTwo(reg, b0, b1);
    AbsorbTwo(reg, a0, a1);
    AbsorbTwo(reg, b0, b1);
    SideBySideIsInjective(a0, a1, b0, b1);
    var x, y := Xor(High(a0), Low(a1)), Xor(High(b0), Low(b1));
    XorKeepsApart(reg, x, y);
    ShiftsAreInjective(Xor(reg, x), Xor(reg, y), 16);
    CommonTailKeepsDifference(Absorb(Absorb(reg, a0), a1), Absorb(Absorb(reg, b0), b1), s);
  }

  lemma {:induction false} ShiftsOfZero(n: nat)
    ensures Shifts(0, n) == 0
  {
    hide Xor, Shift;
    if n > 0 {
      ShiftsOfZero(n - 1);
      ShiftOfSmall(0);
    }
  }

  /** Appending the checksum, high byte first, drives the register to zero, and nothing else does. */
  lemma ZeroResidue(c: bv16, body: Bytes, hi: Byte, lo: Byte)
    ensures CrcFrom(c, body + [hi, lo]) == 0 <==> CrcFrom(c, body) == Xor(High(hi), Low(lo))
  {
    hide Xor, Shifts, High, Low, Absorb, CrcFrom;
    var reg, sum := CrcFrom(c, body), Xor(High(hi), Low(lo));
    CrcOfConcat(c, body, [hi, lo]);
    CrcOfTwo(reg, hi, lo);
    AbsorbTwo(reg, hi, lo);
    XorIsZeroOnEqual(reg, sum);
    ShiftsOfZero(16);
    if reg != sum {
      ShiftsAreInjective(Xor(reg, sum), 0, 16);
    }
  }
}

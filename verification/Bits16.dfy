/** Sixteen-bit registers: the operators of the CRC, each a named function, and their laws, proved on bits. */
module Bits16 {

  type Byte = bv8
  type Bytes = seq<Byte>

  function Xor(a: bv16, b: bv16): bv16 { a ^ b }

  /** The register moved up by one place. */
  function Up(crc: bv16): bv16 { crc << 1 }

  /** The bit that falls out at the top, delivered to places 0, 5 and 12. */
  function Tap0(crc: bv16): bv16 { (crc & 0x8000) >> 15 }

  function Tap5(crc: bv16): bv16 { (crc & 0x8000) >> 10 }

  function Tap12(crc: bv16): bv16 { (crc & 0x8000) >> 3 }

  /** A byte at the top of the register, and at the bottom. */
  function High(b: Byte): bv16 { (b as bv16) << 8 }

  function Low(b: Byte): bv16 { b as bv16 }

  /** The top bit. */
  function Top(x: bv16): bv16 { x & 0x8000 }

  // --- laws of the operators, on bits ------------------------------------------------------------

  lemma XorAssociates(a: bv16, b: bv16, c: bv16)
    ensures Xor(Xor(a, b), c) == Xor(a, Xor(b, c))
  {
  }

  lemma XorCommutes(a: bv16, b: bv16)
    ensures Xor(a, b) == Xor(b, a)
  {
  }

  lemma XorSelf(a: bv16)
    ensures Xor(a, a) == 0 && Xor(a, 0) == a && Xor(0, a) == a
  {
  }

  lemma XorIsZeroOnEqual(a: bv16, b: bv16)
    ensures Xor(a, b) == 0 <==> a == b
  {
    hide Xor;
    XorSelf(a);
    XorSelf(b);
    if Xor(a, b) == 0 {
      XorAssociates(a, b, b);
    }
  }

  ghost predicate Associative<T(!new)>(f: (T, T) -> T) { forall a, b, c :: f(f(a, b), c) == f(a, f(b, c)) }

  ghost predicate Commutative<T(!new)>(f: (T, T) -> T) { forall a, b :: f(a, b) == f(b, a) }

  /** Two pairs may exchange their inner members under any associative and commutative operation. */
  lemma Exchange<T(!new)>(f: (T, T) -> T, a: T, b: T, c: T, d: T)
    requires Associative(f) && Commutative(f)
    ensures f(f(a, b), f(c, d)) == f(f(a, c), f(b, d))
  {
    assert f(f(a, b), f(c, d)) == f(a, f(b, f(c, d)));
    assert f(b, f(c, d)) == f(f(b, c), d) == f(f(c, b), d) == f(c, f(b, d));
  }

  lemma XorReorders()
    ensures Associative(Xor) && Commutative(Xor)
  {
    hide Xor;
    forall x: bv16, y: bv16 ensures Xor(x, y) == Xor(y, x) { XorCommutes(x, y); }
    forall x: bv16, y: bv16, z: bv16 ensures Xor(Xor(x, y), z) == Xor(x, Xor(y, z)) { XorAssociates(x, y, z); }
  }

  lemma HighIsLinear(a: Byte, b: Byte)
    ensures High(a ^ b) == Xor(High(a), High(b))
  {
  }

  lemma SideBySideIsInjective(a0: Byte, a1: Byte, b0: Byte, b1: Byte)
    requires a0 != b0 || a1 != b1
    ensures Xor(High(a0), Low(a1)) != Xor(High(b0), Low(b1))
  {
  }

  lemma UpIsLinear(a: bv16, b: bv16)
    ensures Up(Xor(a, b)) == Xor(Up(a), Up(b))
  {
  }

  lemma Tap0IsLinear(a: bv16, b: bv16)
    ensures Tap0(Xor(a, b)) == Xor(Tap0(a), Tap0(b))
  {
  }

  lemma Tap5IsLinear(a: bv16, b: bv16)
    ensures Tap5(Xor(a, b)) == Xor(Tap5(a), Tap5(b))
  {
  }

  lemma Tap12IsLinear(a: bv16, b: bv16)
    ensures Tap12(Xor(a, b)) == Xor(Tap12(a), Tap12(b))
  {
  }

  lemma TopIsLinear(a: bv16, b: bv16)
    ensures Top(Xor(a, b)) == Xor(Top(a), Top(b))
  {
  }
}

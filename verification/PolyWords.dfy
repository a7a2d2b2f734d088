/** 32-bit words as polynomials of degree below 32, bit k being the coefficient of X^k,
    modulo the X^32 + irrpoly of samples/dedup/rabin.c. */
module PolyWords {
  import opened Gf2

  function Word(b: bv8): bv32 { b as bv32 }

  function Xor(a: bv32, b: bv32): bv32 { a ^ b }

  function Shl(a: bv32): bv32 { a << 1 }

  function Top(a: bv32): bool { a >> 31 != 0 }

  const P: Poly<bv32> := Poly(0, (a, b) => Xor(a, b), a => Shl(a), a => Top(a), 0x45c2b6a1, b => Word(b))

  // Facts about bits, apart from the functions they are about.
  lemma XorBits(a: bv32, b: bv32, c: bv32, ab: bv32, bc: bv32, zero: bv32)
    requires ab == a ^ b && bc == b ^ c && zero == 0
    ensures ab == b ^ a && ab ^ c == a ^ bc && a ^ zero == a && a ^ a == zero
  {
  }

  lemma XorLaws(a: bv32, b: bv32, c: bv32)
    ensures Xor(a, b) == Xor(b, a) && Xor(Xor(a, b), c) == Xor(a, Xor(b, c))
    ensures Xor(a, 0) == a && Xor(a, a) == 0
  {
    XorBits(a, b, c, Xor(a, b), Xor(b, c), 0);
  }

  lemma ShlBits(a: bv32, b: bv32)
    ensures (a ^ b) << 1 == (a << 1) ^ (b << 1)
  {
  }

  lemma TopBits(a: bv32, b: bv32)
    ensures (a ^ b) >> 31 != 0 <==> ((a >> 31 != 0) != (b >> 31 != 0))
  {
  }

  lemma PGroup(a: bv32, b: bv32, c: bv32)
    ensures GroupAt(P, a, b, c)
  {
    XorLaws(a, b, c);
  }

  lemma PLinear(a: bv32, b: bv32)
    ensures LinearAt(P, a, b)
  {
    ShlBits(a, b);
    TopBits(a, b);
  }

  lemma PLawful()
    ensures Lawful(P)
  {
    forall a: bv32, b: bv32, c: bv32 ensures GroupAt(P, a, b, c) { PGroup(a, b, c); }
    forall a: bv32, b: bv32 ensures LinearAt(P, a, b) { PLinear(a, b); }
  }

  lemma ShiftBits(x: bv32, x1: bv32, x2: bv32, x3: bv32, x4: bv32, x5: bv32, x6: bv32, x7: bv32, x8: bv32)
    requires x >> 24 == 0
    requires x1 == x << 1 && x2 == x1 << 1 && x3 == x2 << 1 && x4 == x3 << 1
    requires x5 == x4 << 1 && x6 == x5 << 1 && x7 == x6 << 1 && x8 == x7 << 1
    ensures x >> 31 == 0 && x1 >> 31 == 0 && x2 >> 31 == 0 && x3 >> 31 == 0
    ensures x4 >> 31 == 0 && x5 >> 31 == 0 && x6 >> 31 == 0 && x7 >> 31 == 0
    ensures x8 == x << 8
  {
  }

  lemma TimesXSmall(x: bv32, y: bv32, k: nat, z: bv32)
    requires x >> 31 == 0 && y == x << 1 && Times(P, z, k) == x
    ensures Times(P, z, k + 1) == y
  {
  }

  lemma Times8Small(x: bv32)
    requires x >> 24 == 0
    ensures Times(P, x, BYTE) == x << 8
  {
    var x1 := x << 1;
    var x2 := x1 << 1;
    var x3 := x2 << 1;
    var x4 := x3 << 1;
    var x5 := x4 << 1;
    var x6 := x5 << 1;
    var x7 := x6 << 1;
    var x8 := x7 << 1;
    ShiftBits(x, x1, x2, x3, x4, x5, x6, x7, x8);
    TimesXSmall(x, x1, 0, x);
    TimesXSmall(x1, x2, 1, x);
    TimesXSmall(x2, x3, 2, x);
    TimesXSmall(x3, x4, 3, x);
    TimesXSmall(x4, x5, 4, x);
    TimesXSmall(x5, x6, 5, x);
    TimesXSmall(x6, x7, 6, x);
    TimesXSmall(x7, x8, 7, x);
  }
}

/** 32-bit words and the 64-bit registers that carry them: the word operations of sections
    2.2.2, 3.2, 4.1.1 and 4.2.1 of FIPS 180-4, and the macros of
    samples/dedup/openssl/sha_locl.h and md32_common.h. */
module WordArithmetic {
  import opened Bytes

  function Add32(x: bv32, y: bv32): bv32 { x + y }

  function Xor32(x: bv32, y: bv32): bv32 { x ^ y }

  function RotL1(x: bv32): bv32 { (x << 1) | (x >> 31) }

  function RotL5(x: bv32): bv32 { (x << 5) | (x >> 27) }

  function RotL30(x: bv32): bv32 { (x << 30) | (x >> 2) }

  function Ch(x: bv32, y: bv32, z: bv32): bv32 { (x & y) ^ (!x & z) }

  function Parity(x: bv32, y: bv32, z: bv32): bv32 { x ^ y ^ z }

  function Maj(x: bv32, y: bv32, z: bv32): bv32 { (x & y) ^ (x & z) ^ (y & z) }

  function K(t: nat): bv32 {
    if t < 20 then 0x5a827999 else if t < 40 then 0x6ed9eba1
    else if t < 60 then 0x8f1bbcdc else 0xca62c1d6
  }

  function Add64(x: bv64, y: bv64): bv64 { x + y }

  function Xor64(x: bv64, y: bv64): bv64 { x ^ y }

  // ROTATE on a wide register, for the three amounts used
  function Rotate1(a: bv64): bv64 { (a << 1) | ((a & 0xffffffff) >> 31) }

  function Rotate5(a: bv64): bv64 { (a << 5) | ((a & 0xffffffff) >> 27) }

  function Rotate30(a: bv64): bv64 { (a << 30) | ((a & 0xffffffff) >> 2) }

  function F_00_19(b: bv64, c: bv64, d: bv64): bv64 { ((c ^ d) & b) ^ d }

  function F_20_39(b: bv64, c: bv64, d: bv64): bv64 { b ^ c ^ d }

  function F_40_59(b: bv64, c: bv64, d: bv64): bv64 { (b & c) | ((b | c) & d) }

  function F_60_79(b: bv64, c: bv64, d: bv64): bv64 { F_20_39(b, c, d) }

  const K_00_19: bv64 := 0x5a827999
  const K_20_39: bv64 := 0x6ed9eba1
  const K_40_59: bv64 := 0x8f1bbcdc
  const K_60_79: bv64 := 0xca62c1d6

  // HOST_c2l
  function HostC2l(a: byte, b: byte, c: byte, d: byte): bv64 {
    Collect(a as bv8, b as bv8, c as bv8, d as bv8)
  }

  function Collect(a: bv8, b: bv8, c: bv8, d: bv8): bv64 {
    ((((a as bv64) << 24) | ((b as bv64) << 16)) | ((c as bv64) << 8)) | (d as bv64)
  }

  // HOST_l2c
  function HostL2c(l: bv32): seq<byte> {
    [((l >> 24) & 0xff) as byte, ((l >> 16) & 0xff) as byte, ((l >> 8) & 0xff) as byte, (l & 0xff) as byte]
  }

  // Section 3.1: the most significant byte of a word comes first.
  function BigEndian(a: bv8, b: bv8, c: bv8, d: bv8): bv32 {
    ((a as bv32) << 24) + ((b as bv32) << 16) + ((c as bv32) << 8) + (d as bv32)
  }

  // Register x carries word a in its low half; the high half may be anything.
  predicate Holds(x: bv64, a: bv32) { (x & 0xffffffff) as bv32 == a }

  lemma LowAdd(x: bv64, y: bv64)
    ensures ((x + y) & 0xffffffff) as bv32 == ((x & 0xffffffff) as bv32) + ((y & 0xffffffff) as bv32)
  {
  }

  lemma LowAddOf(x: bv64, y: bv64, a: bv32, b: bv32)
    requires (x & 0xffffffff) as bv32 == a && (y & 0xffffffff) as bv32 == b
    ensures ((x + y) & 0xffffffff) as bv32 == a + b
  {
    LowAdd(x, y);
  }

  lemma HoldsSum(x: bv64, y: bv64, a: bv32, b: bv32)
    requires Holds(x, a) && Holds(y, b)
    ensures Holds(x + y, a + b)
  {
    LowAddOf(x, y, a, b);
  }

  lemma HoldsAdd(x: bv64, y: bv64, a: bv32, b: bv32)
    requires Holds(x, a) && Holds(y, b)
    ensures Holds(Add64(x, y), Add32(a, b))
  {
    HoldsSum(x, y, a, b);
  }

  lemma Adds(x: bv32, y: bv32)
    ensures Add32(x, y) == x + y
  {
  }

  lemma Xors(x: bv32, y: bv32)
    ensures Xor32(x, y) == x ^ y
  {
  }

  lemma HoldsXor(x: bv64, y: bv64, a: bv32, b: bv32)
    requires Holds(x, a) && Holds(y, b)
    ensures Holds(Xor64(x, y), Xor32(a, b))
  {
  }

  lemma LowRotate1(x: bv64, a: bv32)
    requires (x & 0xffffffff) as bv32 == a
    ensures (((x << 1) | ((x & 0xffffffff) >> 31)) & 0xffffffff) as bv32 == (a << 1) | (a >> 31)
  {
  }

  lemma HoldsRotate1(x: bv64, a: bv32)
    requires Holds(x, a)
    ensures Holds(Rotate1(x), RotL1(a))
  {
    LowRotate1(x, a);
  }

  lemma LowRotate5(x: bv64, a: bv32)
    requires (x & 0xffffffff) as bv32 == a
    ensures (((x << 5) | ((x & 0xffffffff) >> 27)) & 0xffffffff) as bv32 == (a << 5) | (a >> 27)
  {
  }

  lemma HoldsRotate5(x: bv64, a: bv32)
    requires Holds(x, a)
    ensures Holds(Rotate5(x), RotL5(a))
  {
    LowRotate5(x, a);
  }

  lemma LowRotate30(x: bv64, a: bv32)
    requires (x & 0xffffffff) as bv32 == a
    ensures (((x << 30) | ((x & 0xffffffff) >> 2)) & 0xffffffff) as bv32 == (a << 30) | (a >> 2)
  {
  }

  lemma HoldsRotate30(x: bv64, a: bv32)
    requires Holds(x, a)
    ensures Holds(Rotate30(x), RotL30(a))
  {
    LowRotate30(x, a);
  }

  lemma HoldsCh(x: bv64, y: bv64, z: bv64, a: bv32, b: bv32, c: bv32)
    requires Holds(x, a) && Holds(y, b) && Holds(z, c)
    ensures Holds(F_00_19(x, y, z), Ch(a, b, c))
  {
  }

  lemma HoldsParity(x: bv64, y: bv64, z: bv64, a: bv32, b: bv32, c: bv32)
    requires Holds(x, a) && Holds(y, b) && Holds(z, c)
    ensures Holds(F_20_39(x, y, z), Parity(a, b, c))
  {
  }

  lemma HoldsParityLast(x: bv64, y: bv64, z: bv64, a: bv32, b: bv32, c: bv32)
    requires Holds(x, a) && Holds(y, b) && Holds(z, c)
    ensures Holds(F_60_79(x, y, z), Parity(a, b, c))
  {
    HoldsParity(x, y, z, a, b, c);
  }

  lemma HoldsConstant(t: nat)
    ensures t < 20 ==> Holds(K_00_19, K(t))
    ensures 20 <= t < 40 ==> Holds(K_20_39, K(t))
    ensures 40 <= t < 60 ==> Holds(K_40_59, K(t))
    ensures 60 <= t ==> Holds(K_60_79, K(t))
  {
  }

  lemma HoldsCollect(a: bv8, b: bv8, c: bv8, d: bv8)
    ensures Holds(Collect(a, b, c, d), BigEndian(a, b, c, d))
  {
  }

  lemma HoldsMaj(x: bv64, y: bv64, z: bv64, a: bv32, b: bv32, c: bv32)
    requires Holds(x, a) && Holds(y, b) && Holds(z, c)
    ensures Holds(F_40_59(x, y, z), Maj(a, b, c))
  {
  }

  function Widen(a: bv32): bv64 { a as bv64 }

  function Narrow(x: bv64): bv32 { (x & 0xffffffff) as bv32 }

  lemma HoldsWiden(a: bv32)
    ensures Holds(Widen(a), a)
  {
  }

  // The five terms of a round, in the orders the macros add them.
  lemma AddOrder(r: bv32, f: bv32, e: bv32, k: bv32, x: bv32)
    ensures x + e + k + r + f == r + f + e + k + x
    ensures x + (e + k + r + f) == r + f + e + k + x
    ensures r + (e + k + f) + x == r + f + e + k + x
    ensures r + (x + (e + k + f)) == r + f + e + k + x
  {
  }

  lemma AddOrder32(r: bv32, f: bv32, e: bv32, k: bv32, x: bv32)
    ensures var sum := Add32(Add32(Add32(Add32(r, f), e), k), x);
      && Add32(Add32(Add32(Add32(x, e), k), r), f) == sum
      && Add32(x, Add32(Add32(Add32(e, k), r), f)) == sum
      && Add32(Add32(r, Add32(Add32(e, k), f)), x) == sum
      && Add32(r, Add32(x, Add32(Add32(e, k), f))) == sum
  {
    AddOrder(r, f, e, k, x);
    Adds(r, f); Adds(r + f, e); Adds(r + f + e, k); Adds(r + f + e + k, x);
    Adds(x, e); Adds(x + e, k); Adds(x + e + k, r); Adds(x + e + k + r, f);
    Adds(e, k); Adds(e + k, r); Adds(e + k + r, f); Adds(x, e + k + r + f);
    Adds(e + k, f); Adds(r, e + k + f); Adds(r + (e + k + f), x);
    Adds(x, e + k + f); Adds(r, x + (e + k + f));
  }

  lemma XorOrder(a: bv32, b: bv32, c: bv32, d: bv32)
    ensures a ^ b ^ c ^ d == d ^ c ^ b ^ a
  {
  }

  lemma XorOrder32(a: bv32, b: bv32, c: bv32, d: bv32)
    ensures Xor32(Xor32(Xor32(a, b), c), d) == Xor32(Xor32(Xor32(d, c), b), a)
  {
    XorOrder(a, b, c, d);
    Xors(a, b); Xors(a ^ b, c); Xors(a ^ b ^ c, d);
    Xors(d, c); Xors(d ^ c, b); Xors(d ^ c ^ b, a);
  }
}

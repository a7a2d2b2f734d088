/** SHA-1 itself: the standard's words, and the machine of the code. */
module Sha1 {
  import opened Bytes
  import opened Sha1Spec
  import opened Sha1Block
  import opened WordArithmetic
  import Sha1Stream

  const WORDS: Words<bv32> := Words(Add32, Xor32, RotL1, RotL5, RotL30, Ch, Parity, Maj, K)

  const REGISTERS: Registers<bv64> :=
    Registers(Add64, Xor64, Rotate1, Rotate5, Rotate30, F_00_19, F_20_39, F_40_59, F_60_79,
              K_00_19, K_20_39, K_40_59, K_60_79)

  // INIT_DATA_h0 to INIT_DATA_h4
  const INIT: Hash<bv32> := Hash(0x67452301, 0xefcdab89, 0x98badcfe, 0x10325476, 0xc3d2e1f0)

  const MACHINE: Machine<bv64, bv32> := Machine(REGISTERS, WORDS, Widen, Narrow, Holds, INIT, HostC2l, HostL2c)

  function Load(a: byte, b: byte, c: byte, d: byte): bv32 {
    BigEndian(a as bv8, b as bv8, c as bv8, d as bv8)
  }

  function Store(x: bv32): seq<byte> {
    [(x >> 24) as byte, ((x >> 16) & 0xff) as byte, ((x >> 8) & 0xff) as byte, (x & 0xff) as byte]
  }

  // Section 5.3.1 gives the initial value.
  const SHA1: Sha<bv32> :=
    Sha(WORDS, Hash(0x67452301, 0xefcdab89, 0x98badcfe, 0x10325476, 0xc3d2e1f0), Load, Store)

  lemma MachineSimulates()
    ensures Simulates(MACHINE)
  {
    forall x, a ensures NarrowAt(MACHINE, x, a) {}
    forall a ensures WidenAt(MACHINE, a) { HoldsWiden(a); }
    forall t ensures ConstantAt(MACHINE, t) { HoldsConstant(t); }
    forall x, y, a, b ensures AddAt(MACHINE, x, y, a, b) { Add(x, y, a, b); }
    forall x, y, a, b ensures XorAt(MACHINE, x, y, a, b) { Xor(x, y, a, b); }
    forall x, a ensures RotateAt(MACHINE, x, a) { Rotate(x, a); }
    forall x, y, z, a, b, c ensures MixAt(MACHINE, x, y, z, a, b, c) { Mix(x, y, z, a, b, c); }
  }

  lemma Add(x: bv64, y: bv64, a: bv32, b: bv32)
    ensures AddAt(MACHINE, x, y, a, b)
  {
    if Holds(x, a) && Holds(y, b) { HoldsAdd(x, y, a, b); }
  }

  lemma Xor(x: bv64, y: bv64, a: bv32, b: bv32)
    ensures XorAt(MACHINE, x, y, a, b)
  {
    if Holds(x, a) && Holds(y, b) { HoldsXor(x, y, a, b); }
  }

  lemma Rotate(x: bv64, a: bv32)
    ensures RotateAt(MACHINE, x, a)
  {
    if Holds(x, a) {
      HoldsRotate1(x, a);
      HoldsRotate5(x, a);
      HoldsRotate30(x, a);
    }
  }

  lemma Mix(x: bv64, y: bv64, z: bv64, a: bv32, b: bv32, c: bv32)
    ensures MixAt(MACHINE, x, y, z, a, b, c)
  {
    if Holds(x, a) && Holds(y, b) && Holds(z, c) {
      HoldsCh(x, y, z, a, b, c);
      HoldsParity(x, y, z, a, b, c);
      HoldsMaj(x, y, z, a, b, c);
      HoldsParityLast(x, y, z, a, b, c);
    }
  }

  lemma AddOrder(r: bv32, f: bv32, e: bv32, k: bv32, x: bv32)
    ensures AddOrderAt(WORDS, r, f, e, k, x)
  {
    AddOrder32(r, f, e, k, x);
  }

  lemma XorOrder(a: bv32, b: bv32, c: bv32, d: bv32)
    ensures XorOrderAt(WORDS, a, b, c, d)
  {
    XorOrder32(a, b, c, d);
  }

  /** Registers whose high halves are never cleaned between rounds still compute SHA-1. */
  lemma MachineLawful()
    ensures Lawful(MACHINE)
  {
    MachineSimulates();
    forall r, f, e, k, x ensures AddOrderAt(WORDS, r, f, e, k, x) { AddOrder(r, f, e, k, x); }
    forall a, b, c, d ensures XorOrderAt(WORDS, a, b, c, d) { XorOrder(a, b, c, d); }
  }

  lemma LoadIs(a: byte, b: byte, c: byte, d: byte)
    ensures LoadAt(MACHINE, SHA1, a, b, c, d)
  {
    HoldsCollect(a as bv8, b as bv8, c as bv8, d as bv8);
  }

  /** The machine of the code is one for SHA-1. */
  lemma MachineImplements()
    ensures Implements(MACHINE, SHA1)
  {
    MachineLawful();
    forall a, b, c, d ensures LoadAt(MACHINE, SHA1, a, b, c, d) { LoadIs(a, b, c, d); }
    forall w ensures StoreAt(MACHINE, SHA1, w) {}
  }

  /** SHA1_Digest of samples/dedup/sha.c computes the SHA-1 of FIPS 180-4, in every version. */
  method Digest(data: seq<byte>, version: Sha1Stream.Version) returns (digest: seq<byte>)
    requires |data| < TWO_64
    ensures digest == Sha1Spec.Digest(SHA1, data)
  {
    MachineImplements();
    Sha1Stream.AbsorbAbsorbs(SHA1);
    var c := new Sha1Stream.Context(MACHINE, SHA1, version, Absorb(SHA1));
    c.Update(data);
    assert [] + data == data;
    digest := c.Final();
  }
}

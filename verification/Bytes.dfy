/** Bytes and the fixed-width integers the code stores them in. */
module Bytes {
  type byte = x: int | 0 <= x < 256

  const TWO_32: nat := 0x1_0000_0000
  const TWO_64: nat := 0x1_0000_0000_0000_0000
  const INT_BOUND: nat := 0x8000_0000

  function Zeros(n: nat): seq<byte> {
    seq(n, _ => 0)
  }

  // The conversion to a 32-bit int.
  function AsInt(n: int): (i: int)
    ensures -0x8000_0000 <= i < 0x8000_0000 && (n - i) % 0x1_0000_0000 == 0
    ensures 0 <= n < INT_BOUND ==> i == n
    ensures n >= 0 ==> i <= n
  {
    var low := n % TWO_32;
    if low < INT_BOUND then low else low - TWO_32
  }

  // A 32-bit value, most significant byte first.
  function Be32(v: nat): (b: seq<byte>)
    ensures |b| == 4
  {
    [v / 0x100_0000 % 256, v / 0x1_0000 % 256, v / 0x100 % 256, v % 256]
  }

  function Be64(v: nat): (b: seq<byte>)
    ensures |b| == 8
  {
    Be32(v / TWO_32) + Be32(v % TWO_32)
  }
}

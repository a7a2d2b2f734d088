/** SHA-1 as sections 4.1.1, 4.2.1, 5.2.1, 6.1.1 and 6.1.2 of FIPS 180-4 define it, over any
    algebra of words.  The 32-bit words of the standard and the wider machine registers of
    the code are two such algebras (module Sha1). */
module Sha1Spec {
  import opened Bytes

  datatype Words<!W> = Words(
    add: (W, W) -> W,
    xor: (W, W) -> W,
    rotl1: W -> W,
    rotl5: W -> W,
    rotl30: W -> W,
    ch: (W, W, W) -> W,
    parity: (W, W, W) -> W,
    maj: (W, W, W) -> W,
    k: nat -> W)

  // The working variables, and the hash value H0..H4.
  datatype Hash<W> = Hash(a: W, b: W, c: W, d: W, e: W)

  // The words of a hash function, its initial value and the byte order of its words.
  datatype Sha<!W> = Sha(words: Words<W>, initial: Hash<W>, load: (byte, byte, byte, byte) -> W, store: W -> seq<byte>)

  const ROUNDS: nat := 80

  function F<W>(w: Words<W>, t: nat, x: W, y: W, z: W): W {
    if t < 20 then w.ch(x, y, z) else if t < 40 then w.parity(x, y, z)
    else if t < 60 then w.maj(x, y, z) else w.parity(x, y, z)
  }

  // The message schedule.
  function Schedule<W>(w: Words<W>, block: seq<W>, t: nat): W
    requires |block| == 16
  {
    if t < 16 then block[t] else
      w.rotl1(w.xor(w.xor(w.xor(Schedule(w, block, t - 3), Schedule(w, block, t - 8)),
                          Schedule(w, block, t - 14)), Schedule(w, block, t - 16)))
  }

  function Round<W>(w: Words<W>, s: Hash<W>, t: nat, m: W): Hash<W> {
    Hash(w.add(w.add(w.add(w.add(w.rotl5(s.a), F(w, t, s.b, s.c, s.d)), s.e), w.k(t)), m),
         s.a, w.rotl30(s.b), s.c, s.d)
  }

  // The working variables after the first n rounds.
  function Rounds<W>(w: Words<W>, h: Hash<W>, block: seq<W>, n: nat): Hash<W>
    requires |block| == 16
  {
    if n == 0 then h else Round(w, Rounds(w, h, block, n - 1), n - 1, Schedule(w, block, n - 1))
  }

  function Sum<W>(w: Words<W>, h: Hash<W>, s: Hash<W>): Hash<W> {
    Hash(w.add(h.a, s.a), w.add(h.b, s.b), w.add(h.c, s.c), w.add(h.d, s.d), w.add(h.e, s.e))
  }

  function Compress<W>(w: Words<W>, h: Hash<W>, block: seq<W>): Hash<W>
    requires |block| == 16
  {
    Sum(w, h, Rounds(w, h, block, ROUNDS))
  }

  // Section 5.2.1: 64 bytes are sixteen words.
  function BlockOf<W>(sha: Sha<W>, data: seq<byte>): (block: seq<W>)
    requires |data| == 64
    ensures |block| == 16
  {
    seq(16, i requires 0 <= i < 16 => sha.load(data[4 * i], data[4 * i + 1], data[4 * i + 2], data[4 * i + 3]))
  }

  // The state after the first n 64-byte blocks of data have been absorbed, one after another.
  function FoldBlocks<S>(step: (S, seq<byte>) -> S, s: S, data: seq<byte>, n: nat): S
    requires 64 * n <= |data|
  {
    if n == 0 then s else step(FoldBlocks(step, s, data, n - 1), data[64 * (n - 1)..64 * n])
  }

  function Absorb<W>(sha: Sha<W>): (Hash<W>, seq<byte>) -> Hash<W> {
    (h: Hash<W>, block: seq<byte>) =>
      if |block| == 64 then Compress(sha.words, h, BlockOf(sha, block)) else h
  }

  // The hash value after the first n blocks.
  function Fold<W>(sha: Sha<W>, h: Hash<W>, data: seq<byte>, n: nat): Hash<W>
    requires 64 * n <= |data|
  {
    FoldBlocks(Absorb(sha), h, data, n)
  }

  // Section 5.1.1: a one bit, the fewest zeros that leave room for the length, and the
  // length in bits as a 64-bit number.
  function Padded(msg: seq<byte>): seq<byte> {
    msg + [0x80] + Zeros((55 - |msg|) % 64) + Be64(8 * |msg| % TWO_64)
  }

  // The hash value after all the whole blocks of a message.
  function Absorbed<W>(sha: Sha<W>, msg: seq<byte>): Hash<W> {
    Fold(sha, sha.initial, msg, |msg| / 64)
  }

  // The padded message is a whole number of blocks (lemma PaddedLength).
  function Digest<W>(sha: Sha<W>, msg: seq<byte>): seq<byte> {
    HashBytes(sha, Absorbed(sha, Padded(msg)))
  }

  lemma PaddedLength(msg: seq<byte>)
    ensures |Padded(msg)| == 64 * ((|msg| + 8) / 64 + 1)
  {
    PadArithmetic(|msg|);
  }

  lemma PadArithmetic(n: nat)
    ensures n + 1 + (55 - n) % 64 + 8 == 64 * ((n + 8) / 64 + 1)
  {
    var q, r, k := (n + 8) / 64, (n + 8) % 64, (55 - n) / 64;
    assert 55 - n == 64 * (-q) + (63 - r);
    assert 55 - n == 64 * k + (55 - n) % 64;
    assert 64 * (k + q) == (63 - r) - (55 - n) % 64;
  }

  function HashBytes<W>(sha: Sha<W>, h: Hash<W>): seq<byte> {
    sha.store(h.a) + sha.store(h.b) + sha.store(h.c) + sha.store(h.d) + sha.store(h.e)
  }
}

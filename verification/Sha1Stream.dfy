/** HASH_UPDATE and HASH_FINAL of samples/dedup/openssl/md32_common.h for SHA-1. */
module Sha1Stream {
  import opened Bytes
  import opened Sha1Spec
  import opened Sha1Block
  import Sha1Unrolled

  lemma {:induction false} FoldPrefix<S>(step: (S, seq<byte>) -> S, s: S, a: seq<byte>, b: seq<byte>, n: nat)
    requires 64 * n <= |a| && a <= b
    ensures FoldBlocks(step, s, a, n) == FoldBlocks(step, s, b, n)
  {
    if n > 0 {
      FoldPrefix(step, s, a, b, n - 1);
      assert a[64 * (n - 1)..64 * n] == b[64 * (n - 1)..64 * n];
    }
  }

  lemma {:induction false} FoldAppend<S>(
    step: (S, seq<byte>) -> S, s: S, a: seq<byte>, k: nat, b: seq<byte>, n: nat)
    requires |a| == 64 * k && 64 * n <= |b|
    ensures FoldBlocks(step, s, a + b, k + n) == FoldBlocks(step, FoldBlocks(step, s, a, k), b, n)
  {
    if n == 0 {
      FoldPrefix(step, s, a, a + b, k);
    } else {
      FoldAppend(step, s, a, k, b, n - 1);
      assert (a + b)[64 * (k + n - 1)..64 * (k + n)] == b[64 * (n - 1)..64 * n];
    }
  }

  lemma FoldNext<S>(step: (S, seq<byte>) -> S, s: S, data: seq<byte>, i: nat)
    requires 64 * (i + 1) <= |data|
    ensures FoldBlocks(step, s, data, i + 1) == step(FoldBlocks(step, s, data, i), data[64 * i..64 * (i + 1)])
  {
  }

  // The versions of the block function: OPENSSL_SMALL_FOOTPRINT, the unrolled one with its
  // schedule in registers, and with MD32_XARRAY.
  datatype Version = Small | Unrolled | UnrolledArray

  // Sixteen times HOST_c2l.
  method LoadBlock<R(!new), W(!new)>(m: Machine<R, W>, sha: Sha<W>, p: seq<byte>) returns (block: seq<W>)
    requires Implements(m, sha) && |p| == 64
    ensures block == BlockOf(sha, p)
  {
    block := [];
    for i := 0 to 16
      invariant |block| == i && block == BlockOf(sha, p)[..i]
    {
      var l := m.c2l(p[4 * i], p[4 * i + 1], p[4 * i + 2], p[4 * i + 3]);
      Loaded(m, sha, p[4 * i], p[4 * i + 1], p[4 * i + 2], p[4 * i + 3]);
      block := block + [m.narrow(l)];
    }
  }

  lemma Loaded<R(!new), W(!new)>(m: Machine<R, W>, sha: Sha<W>, a: byte, b: byte, c: byte, d: byte)
    requires Implements(m, sha)
    ensures m.narrow(m.c2l(a, b, c, d)) == sha.load(a, b, c, d)
  {
    assert LoadAt(m, sha, a, b, c, d) && NarrowAt(m, m.c2l(a, b, c, d), sha.load(a, b, c, d));
  }

  // HASH_MAKE_STRING
  function MakeString<R, W>(m: Machine<R, W>, h: Hash<W>): seq<byte> {
    m.l2c(h.a) + m.l2c(h.b) + m.l2c(h.c) + m.l2c(h.d) + m.l2c(h.e)
  }

  lemma MakeStringIs<R(!new), W(!new)>(m: Machine<R, W>, sha: Sha<W>, h: Hash<W>)
    requires Implements(m, sha)
    ensures MakeString(m, h) == HashBytes(sha, h)
  {
    assert StoreAt(m, sha, h.a) && StoreAt(m, sha, h.b) && StoreAt(m, sha, h.c) && StoreAt(m, sha, h.d);
    assert StoreAt(m, sha, h.e);
  }

  /** One block, in the version chosen at compile time. */
  method AbsorbBlock<R(!new), W(!new)>(m: Machine<R, W>, sha: Sha<W>, version: Version, h: Hash<W>, p: seq<byte>)
    returns (h': Hash<W>)
    requires Implements(m, sha) && |p| == 64
    ensures h' == Absorb(sha)(h, p)
  {
    var block := LoadBlock(m, sha, p);
    match version
    case Small => h' := CompressSmall(m, h, block);
    case Unrolled => h' := Sha1Unrolled.CompressUnrolled(m, false, h, block);
    case UnrolledArray => h' := Sha1Unrolled.CompressUnrolled(m, true, h, block);
  }

  // `step` absorbs a block; stated one block at a time.
  ghost predicate StepAt<W>(step: (Hash<W>, seq<byte>) -> Hash<W>, sha: Sha<W>, h: Hash<W>, p: seq<byte>) {
    step(h, p) == Absorb(sha)(h, p)
  }

  ghost predicate Absorbs<W(!new)>(step: (Hash<W>, seq<byte>) -> Hash<W>, sha: Sha<W>) {
    forall h, p :: StepAt(step, sha, h, p)
  }

  // Block i of p.
  method AbsorbStep<R(!new), W(!new)>(
    m: Machine<R, W>, sha: Sha<W>, version: Version, ghost step: (Hash<W>, seq<byte>) -> Hash<W>, ghost h0: Hash<W>,
    p: seq<byte>, i: nat, h: Hash<W>)
    returns (h': Hash<W>)
    requires Implements(m, sha) && 64 * (i + 1) <= |p| && Absorbs(step, sha)
    requires h == FoldBlocks(step, h0, p, i)
    ensures h' == FoldBlocks(step, h0, p, i + 1)
  {
    var block := p[64 * i..64 * (i + 1)];
    h' := AbsorbBlock(m, sha, version, h, block);
    assert StepAt(step, sha, h, block);
    FoldNext(step, h0, p, i);
  }

  /** HASH_BLOCK_DATA_ORDER(c, p, num). */
  method BlockDataOrder<R(!new), W(!new)>(
    m: Machine<R, W>, sha: Sha<W>, version: Version, ghost step: (Hash<W>, seq<byte>) -> Hash<W>,
    h: Hash<W>, p: seq<byte>, num: nat)
    returns (h': Hash<W>)
    requires Implements(m, sha) && num >= 1 && 64 * num <= |p| && Absorbs(step, sha)
    ensures h' == FoldBlocks(step, h, p, num)
  {
    h' := h;
    for i := 0 to num
      invariant h' == FoldBlocks(step, h, p, i)
    {
      h' := AbsorbStep(m, sha, version, step, h, p, i, h');
    }
  }

  lemma AbsorbAbsorbs<W(!new)>(sha: Sha<W>)
    ensures Absorbs(Absorb(sha), sha)
  {
    forall h: Hash<W>, p: seq<byte> ensures StepAt(Absorb(sha), sha, h, p) {
    }
  }

  // The state after all the whole blocks of msg; what is left of msg is buffered.
  function AbsorbedBy<S>(step: (S, seq<byte>) -> S, s: S, msg: seq<byte>): S {
    FoldBlocks(step, s, msg, |msg| / 64)
  }

  function Pending(msg: seq<byte>): seq<byte> {
    msg[64 * (|msg| / 64)..]
  }

  // Absorbing the whole blocks of what is pending together with more data.
  lemma AbsorbMore<S>(step: (S, seq<byte>) -> S, s: S, msg: seq<byte>, more: seq<byte>)
    ensures var p := Pending(msg) + more;
      && AbsorbedBy(step, s, msg + more) == FoldBlocks(step, AbsorbedBy(step, s, msg), p, |p| / 64)
      && Pending(msg + more) == p[64 * (|p| / 64)..]
  {
    var k := |msg| / 64;
    var whole, p := msg[..64 * k], Pending(msg) + more;
    assert msg + more == whole + p;
    assert |msg + more| == 64 * k + |p|;
    assert |msg + more| / 64 == k + |p| / 64;
    FoldAppend(step, s, whole, k, p, |p| / 64);
    FoldPrefix(step, s, whole, msg, k);
  }

  // The two words nh:nl are the number of bits in total bytes, modulo 2^64.
  ghost predicate Counts(nl: nat, nh: nat, total: nat) {
    nl < TWO_32 && nh < TWO_32 && nh * TWO_32 + nl == 8 * total % TWO_64
  }

  // Nh after the carry test, where l is the new Nl.
  function HighWord(nl: nat, nh: nat, l: nat, len: nat): nat {
    ((if l < nl then (nh + 1) % TWO_32 else nh) + len / 0x2000_0000) % TWO_32
  }

  /** The truncating shift, the carry test and the high word together add 8 len modulo 2^64. */
  lemma CountAdvances(nl: nat, nh: nat, len: nat)
    requires nl < TWO_32 && nh < TWO_32
    ensures var l := (nl + len * 8 % TWO_32) % TWO_32;
      HighWord(nl, nh, l, len) * TWO_32 + l == (nh * TWO_32 + nl + 8 * len) % TWO_64
  {
    var low, high := len * 8 % TWO_32, len / 0x2000_0000;
    assert len * 8 == high * TWO_32 + low;
    var l := (nl + low) % TWO_32;
    var carry := if l < nl then 1 else 0;
    assert nl + low == carry * TWO_32 + l;
    assert nh * TWO_32 + nl + 8 * len == (nh + carry + high) * TWO_32 + l;
    TwoWords(nh + carry + high, l);
    HighWordIs(nh, carry, high);
  }

  // The high word is truncated after either addition.
  lemma HighWordIs(nh: nat, carry: nat, high: nat)
    requires nh < TWO_32 && carry <= 1
    ensures ((if carry == 1 then (nh + 1) % TWO_32 else nh) + high) % TWO_32 == (nh + carry + high) % TWO_32
  {
    if carry == 1 && nh + 1 == TWO_32 {
      assert nh + 1 + high == TWO_32 + high;
    }
  }

  lemma CountsNothing(nl: nat, nh: nat, total: nat)
    requires nl == 0 && nh == 0 && total == 0
    ensures Counts(nl, nh, total)
  {
  }

  lemma TwoWords(h: nat, l: nat)
    requires l < TWO_32
    ensures (h * TWO_32 + l) % TWO_64 == (h % TWO_32) * TWO_32 + l
  {
    assert h * TWO_32 + l == (h / TWO_32) * TWO_64 + (h % TWO_32) * TWO_32 + l;
  }

  lemma ModAdd(a: nat, b: nat)
    ensures (a % TWO_64 + b) % TWO_64 == (a + b) % TWO_64
  {
  }

  lemma CountKept(nl: nat, nh: nat, len: nat, total: nat)
    requires Counts(nl, nh, total)
    ensures var l := (nl + len * 8 % TWO_32) % TWO_32; Counts(l, HighWord(nl, nh, l, len), total + len)
  {
    CountAdvances(nl, nh, len);
    ModAdd(8 * total, 8 * len);
  }

  /** The hash context SHA_CTX, updated in place. */
  class Context<R(!new), W(!new)> {
    const m: Machine<R, W>
    const sha: Sha<W>
    const version: Version
    var h: Hash<W>
    var Nl: nat
    var Nh: nat
    const data: array<byte>
    var num: nat
    ghost const step: (Hash<W>, seq<byte>) -> Hash<W> // what absorbing a block does
    ghost var msg: seq<byte> // everything hashed so far

    // The blocks absorbed and the bytes buffered, without the bit count.
    ghost predicate Holds(m: seq<byte>)
      reads this`num, this`h, data
    {
      && data.Length == 64 && num == |m| % 64 && data[..num] == Pending(m) && h == AbsorbedBy(step, sha.initial, m)
    }

    ghost predicate Valid()
      reads this, data
    {
      && Absorbs(step, sha)
      && Holds(msg)
      && Counts(Nl, Nh, |msg|)
    }

    // HASH_INIT
    constructor (m: Machine<R, W>, sha: Sha<W>, version: Version, ghost step: (Hash<W>, seq<byte>) -> Hash<W>)
      requires Implements(m, sha) && Absorbs(step, sha)
      ensures Valid() && msg == [] && fresh(data)
      ensures this.m == m && this.sha == sha && this.version == version && this.step == step
    {
      this.m, this.sha, this.version, this.step := m, sha, version, step;
      h := m.init;
      Nl, Nh, num := 0, 0, 0;
      data := new byte[64](_ => 0);
      msg := [];
      new;
      Initial();
    }

    lemma Initial()
      requires Absorbs(step, sha) && data.Length == 64
      requires h == sha.initial && Nl == 0 && Nh == 0 && num == 0 && |msg| == 0
      ensures Valid()
    {
      NothingAbsorbed(step, sha.initial, msg);
      CountsNothing(Nl, Nh, |msg|);
    }

    // The statements that advance Nl and Nh; size_t is 64 bits wide, HASH_LONG 32.
    method Count(len: nat, ghost before: seq<byte>, ghost after: seq<byte>)
      requires Counts(Nl, Nh, |before|) && len < TWO_64 && |after| == |before| + len
      modifies this`Nl, this`Nh
      ensures Counts(Nl, Nh, |after|)
    {
      CountKept(Nl, Nh, len, |before|);
      ghost var nh := HighWord(Nl, Nh, (Nl + len * 8 % TWO_32) % TWO_32, len);
      var l := (Nl + len * 8 % TWO_32) % TWO_32;
      if l < Nl {
        Nh := (Nh + 1) % TWO_32;
      }
      Nh := (Nh + len / 0x2000_0000) % TWO_32;
      assert Nh == nh;
      Nl := l;
    }

    // memcpy(p + n, d, |d|)
    method Copy(n: nat, d: seq<byte>)
      requires n + |d| <= data.Length
      modifies data
      ensures data[..n + |d|] == old(data[..n]) + d
    {
      forall i | 0 <= i < |d| { data[n + i] := d[i]; }
    }

    // The buffer is not empty and d does not complete it.
    method Buffer(d: seq<byte>, ghost before: seq<byte>)
      requires Holds(before) && num + |d| < 64
      modifies this`num, data
      ensures Holds(before + d)
    {
      ghost var p := Pending(before) + d;
      AbsorbMore(step, sha.initial, before, d);
      Copy(num, d);
      num := num + |d|;
      FoldNothing(step, h, p);
    }

    // The buffer is completed and absorbed.
    method Complete(d: seq<byte>, ghost before: seq<byte>)
      requires Implements(m, sha) && Absorbs(step, sha) && Holds(before) && num + |d| == 64
      modifies this`num, this`h, data
      ensures Holds(before + d) && num == 0
      ensures forall i :: 0 <= i < 64 ==> data[i] == 0
    {
      ghost var p := Pending(before) + d;
      AbsorbMore(step, sha.initial, before, d);
      Copy(num, d);
      assert data[..] == p;
      h := BlockDataOrder(m, sha, version, step, h, data[..], 1);
      num := 0;
      forall i | 0 <= i < 64 { data[i] := 0; }
    }

    // The buffer is empty: absorb the whole blocks of d from where they are, buffer the rest.
    method Bulk(d: seq<byte>, ghost before: seq<byte>)
      requires Implements(m, sha) && Absorbs(step, sha) && Holds(before) && num == 0
      modifies this`num, this`h, data
      ensures Holds(before + d)
    {
      AbsorbMore(step, sha.initial, before, d);
      assert Pending(before) + d == d;
      var n := |d| / 64;
      if n > 0 {
        h := BlockDataOrder(m, sha, version, step, h, d, n);
      }
      var rest := d[64 * n..];
      if |rest| != 0 {
        num := |rest|;
        Copy(0, rest);
      }
    }

    // The first n bytes of d complete the buffer, the rest follows.
    method CompleteAndBulk(d: seq<byte>, n: nat, ghost before: seq<byte>)
      requires Implements(m, sha) && Absorbs(step, sha) && Holds(before)
      requires n <= |d| && num + n == 64
      modifies this`num, this`h, data
      ensures Holds(before + d)
    {
      Complete(d[..n], before);
      Bulk(d[n..], before + d[..n]);
      assert (before + d[..n]) + d[n..] == before + d;
    }

    // HASH_UPDATE after the count
    method Take(d: seq<byte>, ghost before: seq<byte>)
      requires Implements(m, sha) && Absorbs(step, sha) && Holds(before)
      modifies this`num, this`h, data
      ensures Holds(before + d)
    {
      var n := num;
      if n != 0 {
        if |d| >= 64 || |d| + n >= 64 {
          n := 64 - n;
          CompleteAndBulk(d, n, before);
        } else {
          Buffer(d, before);
        }
      } else {
        Bulk(d, before);
      }
    }

    // HASH_UPDATE
    method Update(d: seq<byte>)
      requires Implements(m, sha) && Valid() && |d| < TWO_64
      modifies this, data
      ensures Valid() && msg == old(msg) + d
    {
      if |d| == 0 {
        assert msg + d == msg;
        return;
      }
      Count(|d|, msg, msg + d);
      Take(d, msg);
      msg := msg + d;
    }

    // No room for the length: the buffer up to n is zero-filled and absorbed.
    method Spill(n: nat)
      requires Implements(m, sha) && Absorbs(step, sha) && data.Length == 64 && n <= 64
      modifies this`h, data
      ensures h == FoldBlocks(step, old(h), old(data[..n]) + Zeros(64 - n), 1)
    {
      ghost var p := data[..n];
      Copy(n, Zeros(64 - n));
      assert data[..] == p + Zeros(64 - n);
      h := BlockDataOrder(m, sha, version, step, h, data[..], 1);
    }

    // The buffer up to n is zero-filled up to the length, which is the last thing absorbed.
    method Last(n: nat)
      requires Implements(m, sha) && Absorbs(step, sha) && data.Length == 64 && n <= 56
      modifies this`h, data
      ensures h == FoldBlocks(step, old(h), old(data[..n]) + Zeros(56 - n) + (Be32(Nh) + Be32(Nl)), 1)
    {
      ghost var p := data[..n];
      Copy(n, Zeros(56 - n));
      Copy(56, Be32(Nh));
      Copy(60, Be32(Nl));
      assert data[..] == p + Zeros(56 - n) + (Be32(Nh) + Be32(Nl));
      h := BlockDataOrder(m, sha, version, step, h, data[..], 1);
    }

    method LastAlone()
      requires Implements(m, sha) && Absorbs(step, sha) && data.Length == 64
      modifies this`h, data
      ensures h == FoldBlocks(step, old(h), Zeros(56) + (Be32(Nh) + Be32(Nl)), 1)
    {
      assert data[..0] + Zeros(56) == Zeros(56);
      Last(0);
    }

    method SpillAndLast(n: nat, ghost p: seq<byte>)
      requires Implements(m, sha) && Absorbs(step, sha) && data.Length == 64
      requires 56 < n <= 64 && data[..n] == p
      modifies this`h, data
      ensures h == Finished(step, old(h), p, Be32(Nh) + Be32(Nl))
    {
      Spill(n);
      LastAlone();
    }

    // The rest of HASH_FINAL, the buffer up to n being p.
    method Finish(n: nat, ghost p: seq<byte>)
      requires Implements(m, sha) && Absorbs(step, sha) && data.Length == 64 && 1 <= n <= 64 && data[..n] == p
      modifies this`h, data
      ensures h == Finished(step, old(h), p, Be32(Nh) + Be32(Nl))
    {
      if n > 56 {
        SpillAndLast(n, p);
      } else {
        Last(n);
      }
    }

    // HASH_FINAL
    method Final() returns (md: seq<byte>)
      requires Implements(m, sha) && Valid()
      modifies this, data
      ensures md == DigestBy(step, sha, old(msg))
      ensures num == 0 && forall i :: 0 <= i < data.Length ==> data[i] == 0
    {
      LengthBytes(Nl, Nh, |msg|);
      DigestByTail(step, sha, msg);
      ghost var p := Pending(msg) + [0x80];
      Copy(num, [0x80]);
      var n := num + 1;
      Finish(n, p);
      num := 0;
      forall i | 0 <= i < 64 { data[i] := 0; }
      MakeStringIs(m, sha, h);
      md := MakeString(m, h);
    }
  }

  // What HASH_FINAL absorbs after p, the pending bytes and the pad byte: one block when the
  // length l fits behind them, else two.
  ghost function Finished<S>(step: (S, seq<byte>) -> S, h: S, p: seq<byte>, l: seq<byte>): S
    requires 1 <= |p| <= 64 && |l| == 8
  {
    if |p| <= 56 then FoldBlocks(step, h, p + Zeros(56 - |p|) + l, 1)
    else FoldBlocks(step, FoldBlocks(step, h, p + Zeros(64 - |p|), 1), Zeros(56) + l, 1)
  }

  // The digest, the padded message being absorbed by `step`.
  function DigestBy<W>(step: (Hash<W>, seq<byte>) -> Hash<W>, sha: Sha<W>, msg: seq<byte>): seq<byte> {
    HashBytes(sha, AbsorbedBy(step, sha.initial, Padded(msg)))
  }

  lemma DigestByTail<W>(step: (Hash<W>, seq<byte>) -> Hash<W>, sha: Sha<W>, msg: seq<byte>)
    ensures |Pending(msg) + [0x80]| <= 64
    ensures DigestBy(step, sha, msg) == HashBytes(sha,
              Finished(step, AbsorbedBy(step, sha.initial, msg), Pending(msg) + [0x80], Be64(8 * |msg| % TWO_64)))
  {
    var l, z := Be64(8 * |msg| % TWO_64), Zeros((55 - |msg|) % 64);
    AbsorbMore(step, sha.initial, msg, [0x80] + z + l);
    PaddedTail(msg, z, l);
    FinishedIsFold(step, AbsorbedBy(step, sha.initial, msg), Pending(msg) + [0x80], z, l);
  }

  lemma PaddedTail(msg: seq<byte>, z: seq<byte>, l: seq<byte>)
    requires z == Zeros((55 - |msg|) % 64) && l == Be64(8 * |msg| % TWO_64)
    ensures msg + ([0x80] + z + l) == Padded(msg)
    ensures var p := Pending(msg) + [0x80];
      && Pending(msg) + ([0x80] + z + l) == p + z + l
      && |p| <= 64 && z == Zeros(if |p| <= 56 then 56 - |p| else 120 - |p|)
  {
    PadZeros(|msg|);
  }

  lemma FinishedIsFold<S>(step: (S, seq<byte>) -> S, h: S, p: seq<byte>, z: seq<byte>, l: seq<byte>)
    requires 1 <= |p| <= 64 && |l| == 8
    requires z == Zeros(if |p| <= 56 then 56 - |p| else 120 - |p|)
    ensures FoldBlocks(step, h, p + z + l, |p + z + l| / 64) == Finished(step, h, p, l)
  {
    if |p| > 56 {
      var a, b := p + Zeros(64 - |p|), Zeros(56) + l;
      assert p + z + l == a + b;
      FoldAppend(step, h, a, 1, b, 1);
    }
  }

  lemma PadZeros(n: nat)
    ensures (55 - n) % 64 == if n % 64 < 56 then 55 - n % 64 else 119 - n % 64
  {
    var k := (55 - n) / 64;
    assert 55 - n == 64 * k + (55 - n) % 64;
    assert 64 * (k + n / 64) == 55 - n % 64 - (55 - n) % 64;
  }

  lemma LengthBytes(nl: nat, nh: nat, total: nat)
    requires Counts(nl, nh, total)
    ensures Be64(8 * total % TWO_64) == Be32(nh) + Be32(nl)
  {
    assert (nh * TWO_32 + nl) / TWO_32 == nh && (nh * TWO_32 + nl) % TWO_32 == nl;
  }

  lemma NothingAbsorbed<S>(step: (S, seq<byte>) -> S, s: S, msg: seq<byte>)
    requires |msg| == 0
    ensures AbsorbedBy(step, s, msg) == s && |Pending(msg)| == 0
  {
    assert |msg| / 64 == 0;
  }

  lemma FoldNothing<S>(step: (S, seq<byte>) -> S, s: S, p: seq<byte>)
    ensures FoldBlocks(step, s, p, 0) == s
  {
  }

  function Joined(pieces: seq<seq<byte>>): seq<byte> {
    if pieces == [] then [] else Joined(pieces[..|pieces| - 1]) + pieces[|pieces| - 1]
  }

  lemma JoinedNext(before: seq<byte>, pieces: seq<seq<byte>>, i: nat)
    requires i < |pieces|
    ensures before + Joined(pieces[..i + 1]) == (before + Joined(pieces[..i])) + pieces[i]
  {
    assert pieces[..i + 1][..i] == pieces[..i];
  }

  lemma JoinedStart(before: seq<byte>, pieces: seq<seq<byte>>)
    requires |pieces| == 0
    ensures before + Joined(pieces) == before
  {
  }

  method UpdatePiece<R(!new), W(!new)>(c: Context<R, W>, pieces: seq<seq<byte>>, i: nat, ghost before: seq<byte>)
    requires Implements(c.m, c.sha) && c.Valid() && i < |pieces| && |pieces[i]| < TWO_64
    requires c.msg == before + Joined(pieces[..i])
    modifies c, c.data
    ensures c.Valid() && c.msg == before + Joined(pieces[..i + 1])
  {
    JoinedNext(before, pieces, i);
    c.Update(pieces[i]);
  }

  // One Update call for each piece.
  method UpdateAll<R(!new), W(!new)>(c: Context<R, W>, pieces: seq<seq<byte>>)
    requires Implements(c.m, c.sha) && c.Valid()
    requires forall i :: 0 <= i < |pieces| ==> |pieces[i]| < TWO_64
    modifies c, c.data
    ensures c.Valid() && c.msg == old(c.msg) + Joined(pieces)
  {
    JoinedStart(c.msg, pieces[..0]);
    for i := 0 to |pieces|
      invariant c.Valid() && c.msg == old(c.msg) + Joined(pieces[..i])
    {
      UpdatePiece(c, pieces, i, old(c.msg));
    }
    assert pieces[..|pieces|] == pieces;
  }

  /** However a message is cut into Update calls, the digest is that of the whole message. */
  method DigestOfPieces<R(!new), W(!new)>(m: Machine<R, W>, sha: Sha<W>, version: Version, pieces: seq<seq<byte>>)
    returns (md: seq<byte>)
    requires Implements(m, sha)
    requires forall i :: 0 <= i < |pieces| ==> |pieces[i]| < TWO_64
    ensures md == Digest(sha, Joined(pieces))
  {
    AbsorbAbsorbs(sha);
    var c := new Context(m, sha, version, Absorb(sha));
    UpdateAll(c, pieces);
    assert [] + Joined(pieces) == Joined(pieces);
    md := c.Final();
  }
}

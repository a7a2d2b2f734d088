/** The dedup file format: records written by samples/dedup/encoder.c and read back by
    samples/dedup/decoder.c.  A record is a type byte, an 8-byte little-endian length and
    the content; the lengths pass through variables of type int on both sides. */
module DedupRecords {
  import opened Bytes

  const SHA1_LEN: nat := 20
  const TYPE_FINGERPRINT: byte := 0
  const TYPE_COMPRESS: byte := 1
  const LEN_SIZE: nat := 8

  datatype Record = Fingerprint(sha1: seq<byte>) | Data(content: seq<byte>)

  datatype Error =
    | IncompleteChunk | IncorrectSha1Size | IllegalSize | ReadFails | UnknownType
    | UncompressFails | MissingUnique | WriteFails

  datatype Result<T> = Ok(value: T) | Err(error: Error)

  datatype Reading = Eof | Got(record: Record, rest: seq<byte>) | Bad(error: Error)

  function Le(v: nat, k: nat): (b: seq<byte>)
    ensures |b| == k
  {
    if k == 0 then [] else [v % 256] + Le(v / 256, k - 1)
  }

  function FromLe(b: seq<byte>): nat {
    if b == [] then 0 else b[0] + 256 * FromLe(b[1..])
  }

  function Pow256(k: nat): nat {
    if k == 0 then 1 else 256 * Pow256(k - 1)
  }

  lemma {:induction false} LeRoundTrip(v: nat, k: nat)
    requires v < Pow256(k)
    ensures FromLe(Le(v, k)) == v
  {
    if k > 0 {
      LeRoundTrip(v / 256, k - 1);
    }
  }

  /** The length field is little-endian: its i-th byte is the digit of 256^i. */
  lemma {:induction false} LeDigit(v: nat, k: nat, i: nat)
    requires i < k
    ensures Pow256(i) > 0 && Le(v, k)[i] == v / Pow256(i) % 256
  {
    if i > 0 {
      LeDigit(v / 256, k - 1, i - 1);
      QuotientTwice(v, Pow256(i - 1));
    }
  }

  lemma QuotientTwice(v: nat, n: nat)
    requires n > 0
    ensures v / 256 / n == v / (256 * n)
  {
    var q, r := v / 256, v % 256;
    var a, b := q / n, q % n;
    assert v == 256 * n * a + (256 * b + r) by {
      assert q == n * a + b;
      assert 256 * (n * a) == 256 * n * a;
    }
    assert 0 <= 256 * b + r < 256 * n;
    QuotientIs(v, 256 * n, a, 256 * b + r);
  }

  lemma QuotientIs(v: int, m: int, a: int, c: int)
    requires m > 0 && v == m * a + c && 0 <= c < m
    ensures v / m == a
  {
    var d := v / m - a;
    assert m * d == c - v % m;
    assert (d >= 1 ==> m * d >= m) && (d <= -1 ==> m * d <= -m);
  }

  // Every byte string is the form of its own value.
  lemma {:induction false} LeInverse(b: seq<byte>)
    ensures Le(FromLe(b), |b|) == b && FromLe(b) < Pow256(|b|)
  {
    if b != [] {
      LeInverse(b[1..]);
      assert FromLe(b) % 256 == b[0] && FromLe(b) / 256 == FromLe(b[1..]);
    }
  }

  lemma Pow256Is()
    ensures Pow256(LEN_SIZE) == TWO_64
  {
    assert Pow256(1) == 0x100 && Pow256(2) == 0x1_0000 && Pow256(3) == 0x100_0000;
    assert Pow256(4) == TWO_32 && Pow256(5) == 0x100_0000_0000 && Pow256(6) == 0x1_0000_0000_0000;
    assert Pow256(7) == 0x100_0000_0000_0000;
  }

  // write_file; EXIT_TRACE when the length does not fit an int
  predicate Writable(r: Record) {
    r.Fingerprint? || AsInt(|r.content|) >= 0
  }

  function WriteRecord(r: Record): seq<byte> {
    match r
    case Fingerprint(d) => [TYPE_FINGERPRINT] + Le(|d|, LEN_SIZE) + d
    case Data(c) => [TYPE_COMPRESS] + Le(|c|, LEN_SIZE) + c
  }

  function WriteAll(rs: seq<Record>): seq<byte> {
    if rs == [] then [] else WriteRecord(rs[0]) + WriteAll(rs[1..])
  }

  // read_chunk
  function ReadChunk(input: seq<byte>): (r: Reading)
    ensures r.Got? ==> |r.rest| < |input|
  {
    if |input| == 0 then Eof
    else if |input| < 1 + LEN_SIZE then Bad(IncompleteChunk)
    else
      var len := FromLe(input[1..1 + LEN_SIZE]);
      ReadBody(input[0], len, input[1 + LEN_SIZE..])
  }

  function ReadBody(kind: byte, len: nat, rest: seq<byte>): Reading {
    if kind == TYPE_FINGERPRINT then
      if len != SHA1_LEN then Bad(IncorrectSha1Size)
      else if |rest| < SHA1_LEN then Bad(IncompleteChunk)
      else Got(Fingerprint(rest[..SHA1_LEN]), rest[SHA1_LEN..])
    else if kind == TYPE_COMPRESS then
      if len == 0 then Bad(IllegalSize)
      else if |rest| < len || AsInt(len) == 0 then Bad(IncompleteChunk)
      else if AsInt(len) < 0 then Bad(ReadFails)
      else Got(Data(rest[..len]), rest[len..])
    else Bad(UnknownType)
  }

  // The fields of a record as the reader finds them.
  lemma ReadFields(kind: byte, len: seq<byte>, content: seq<byte>, rest: seq<byte>)
    requires |len| == LEN_SIZE
    ensures ReadChunk([kind] + len + content + rest) == ReadBody(kind, FromLe(len), content + rest)
  {
    var input := [kind] + len + content + rest;
    assert input[1..1 + LEN_SIZE] == len && input[1 + LEN_SIZE..] == content + rest;
  }

  lemma LengthField(n: nat)
    requires n < TWO_64
    ensures FromLe(Le(n, LEN_SIZE)) == n
  {
    Pow256Is();
    LeRoundTrip(n, LEN_SIZE);
  }

  /** Reading undoes writing exactly when the size survives the conversion to int as a
      positive number. */
  lemma ReadWrite(r: Record, rest: seq<byte>)
    requires if r.Fingerprint? then |r.sha1| == SHA1_LEN else |r.content| < TWO_64
    ensures ReadChunk(WriteRecord(r) + rest) == Got(r, rest) <==> r.Fingerprint? || AsInt(|r.content|) > 0
    ensures ReadChunk(WriteRecord(r) + rest) == Got(r, rest) || ReadChunk(WriteRecord(r) + rest).Bad?
  {
    match r
    case Fingerprint(d) =>
      LengthField(|d|);
      ReadFields(TYPE_FINGERPRINT, Le(|d|, LEN_SIZE), d, rest);
      assert (d + rest)[..SHA1_LEN] == d && (d + rest)[SHA1_LEN..] == rest;
    case Data(c) =>
      LengthField(|c|);
      ReadFields(TYPE_COMPRESS, Le(|c|, LEN_SIZE), c, rest);
      assert (c + rest)[..|c|] == c && (c + rest)[|c|..] == rest;
  }
}

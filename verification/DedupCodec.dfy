/** What the encoder writes for a sequence of chunks, and the decoder.  `digest` stands for
    SHA-1, `compress` and `decompress` for the compression in use. */
module DedupCodec {
  import opened Wrappers
  import opened Bytes
  import opened DedupRecords
  import opened Chunking
  import opened Sequences

  type Block = seq<byte>

  // The size of the decoder's output buffer for compressed chunks.
  const UNCOMPRESS_BOUND: nat := 10_000_000

  // `bounded` holds for gzip and bzip2 but not for uncompressed chunks.
  datatype Ops = Ops(digest: Block -> Block, compress: Block -> Block, decompress: Block -> Option<Block>, bounded: bool)

  // What is assumed of the digest and the compression on the blocks that occur.
  ghost predicate Sound(ops: Ops, blocks: seq<Block>) {
    && (forall c :: c in blocks ==> |ops.digest(c)| == SHA1_LEN)
    && (forall c :: c in blocks ==> ops.decompress(ops.compress(c)) == Some(c) && |ops.compress(c)| < TWO_64)
    && (forall b, c :: b in blocks && c in blocks && ops.digest(b) == ops.digest(c) ==> b == c)
  }

  function Digests(ops: Ops, blocks: seq<Block>): set<Block> {
    set c | c in blocks :: ops.digest(c)
  }

  // What is written for c after the blocks `before`.
  function RecordFor(ops: Ops, before: seq<Block>, c: Block): Record {
    if ops.digest(c) in Digests(ops, before) then Fingerprint(ops.digest(c)) else Data(ops.compress(c))
  }

  function Records(ops: Ops, before: seq<Block>, blocks: seq<Block>): seq<Record>
    decreases blocks
  {
    if blocks == [] then [] else
      [RecordFor(ops, before, blocks[0])] + Records(ops, before + [blocks[0]], blocks[1..])
  }

  // Every write_file succeeds.
  ghost predicate AllWritable(rs: seq<Record>) {
    forall i :: 0 <= i < |rs| ==> Writable(rs[i])
  }

  /* ---------- the decoder ---------- */

  type Cache = map<Block, Block>

  datatype Accepted = Accepted(cache: Cache, data: Block)

  // The return value of xwrite compared with the size it was given.
  predicate WriteFailsFor(n: nat) {
    (if AsInt(n) < 0 then AsInt(n) + TWO_64 else AsInt(n)) < n
  }

  predicate TooLong(ops: Ops, u: Block) {
    ops.bounded && |u| > UNCOMPRESS_BOUND
  }

  // uncompress_chunk: the buffer is never enlarged.
  function Uncompress(ops: Ops, c: Block): Option<Block> {
    match ops.decompress(c)
    case None => None
    case Some(u) => if TooLong(ops, u) then None else Some(u)
  }

  // What the loop of Decode does with one record.
  function Accept(ops: Ops, cache: Cache, r: Record): Result<Accepted> {
    match r
    case Data(c) =>
      var r := Uncompress(ops, c);
      if r == None || AsInt(|r.value|) <= 0 then Err(UncompressFails)
      else if WriteFailsFor(|r.value|) then Err(WriteFails)
      else Ok(Accepted(cache[ops.digest(r.value) := r.value], r.value))
    case Fingerprint(d) =>
      if d !in cache then Err(MissingUnique)
      else if WriteFailsFor(|cache[d]|) then Err(WriteFails)
      else Ok(Accepted(cache, cache[d]))
  }

  function Prefixed(out: Block, r: Result<Block>): Result<Block> {
    match r
    case Err(e) => Err(e)
    case Ok(more) => Ok(out + more)
  }

  // What Decode writes from `input` on.
  function DecodeFrom(ops: Ops, input: seq<byte>, cache: Cache): Result<Block>
    decreases |input|
  {
    match ReadChunk(input)
    case Eof => Ok([])
    case Bad(e) => Err(e)
    case Got(r, rest) =>
      match Accept(ops, cache, r)
      case Err(e) => Err(e)
      case Ok(a) => Prefixed(a.data, DecodeFrom(ops, rest, a.cache))
  }

  lemma PrefixedTwice(a: Block, b: Block, r: Result<Block>)
    ensures Prefixed(a, Prefixed(b, r)) == Prefixed(a + b, r)
    ensures Prefixed([], r) == r
  {
    if r.Ok? {
      assert a + (b + r.value) == (a + b) + r.value && [] + r.value == r.value;
    }
  }

  method Decode(ops: Ops, file: seq<byte>) returns (result: Result<Block>)
    ensures result == DecodeFrom(ops, file, map[])
  {
    var input, cache: Cache, out: Block := file, map[], [];
    ghost var all := DecodeFrom(ops, file, map[]);
    PrefixedTwice([], [], all);
    while true
      invariant all == Prefixed(out, DecodeFrom(ops, input, cache))
      decreases |input|
    {
      match ReadChunk(input) {
        case Eof =>
          assert out + [] == out;
          return Ok(out);
        case Bad(e) => return Err(e);
        case Got(record, rest) =>
          ghost var accepted := Accept(ops, cache, record);
          var entry: Block;
          match record {
            case Data(c) =>
              var r := Uncompress(ops, c);
              if r == None || AsInt(|r.value|) <= 0 { return Err(UncompressFails); }
              entry := r.value;
              cache := cache[ops.digest(entry) := entry];
            case Fingerprint(d) =>
              if d !in cache { return Err(MissingUnique); }
              entry := cache[d];
          }
          if WriteFailsFor(|entry|) { return Err(WriteFails); }
          assert accepted == Ok(Accepted(cache, entry));
          PrefixedTwice(out, entry, DecodeFrom(ops, rest, cache));
          out := out + entry;
          input := rest;
      }
    }
  }

  /* ---------- decoding what was encoded ---------- */

  // What the decoder can restore.
  predicate Restorable(ops: Ops, c: Block) {
    0 < |c| < INT_BOUND && !TooLong(ops, c)
  }

  // A block whose sizes survive the conversions to int, and for which the buffer is large enough.
  predicate Fits(ops: Ops, c: Block) {
    AsInt(|ops.compress(c)|) > 0 && Restorable(ops, c)
  }

  predicate AllFit(ops: Ops, blocks: seq<Block>) {
    forall c :: c in blocks ==> Fits(ops, c)
  }

  ghost predicate Holds(ops: Ops, blocks: seq<Block>, cache: Cache) {
    cache.Keys == Digests(ops, blocks) && forall c :: c in blocks ==> cache[ops.digest(c)] == c
  }

  lemma SizeChecks(n: nat)
    ensures AsInt(n) > 0 && !WriteFailsFor(n) <==> 0 < n < INT_BOUND
  {
  }

  // One record: accepted exactly when the block can be restored.
  lemma AcceptRecord(ops: Ops, before: seq<Block>, c: Block, cache: Cache)
    requires Sound(ops, before + [c]) && Holds(ops, before, cache)
    requires AllFit(ops, before)
    ensures var r := RecordFor(ops, before, c);
      if r.Data? && !Restorable(ops, c) then Accept(ops, cache, r).Err? else
        && Accept(ops, cache, r).Ok? && Accept(ops, cache, r).value.data == c
        && Holds(ops, before + [c], Accept(ops, cache, r).value.cache)
    ensures RecordFor(ops, before, c).Fingerprint? ==> Fits(ops, c)
  {
    assert c in before + [c];
    SizeChecks(|c|);
    if ops.digest(c) in Digests(ops, before) {
      var b :| b in before && ops.digest(b) == ops.digest(c);
      assert b in before + [c] && b == c;
    }
    assert Digests(ops, before + [c]) == Digests(ops, before) + {ops.digest(c)} by {
      assert forall b :: b in before + [c] <==> b in before || b == c;
    }
    forall b | b in before ensures ops.digest(b) == ops.digest(c) ==> b == c {
      assert b in before + [c];
    }
  }

  // The record of c is written and read back exactly when c fits.
  lemma RecordSurvives(ops: Ops, before: seq<Block>, c: Block, rest: seq<byte>)
    requires Sound(ops, before + [c])
    requires RecordFor(ops, before, c).Fingerprint? ==> Fits(ops, c)
    ensures var r := RecordFor(ops, before, c);
      && (Fits(ops, c) ==> Writable(r) && ReadChunk(WriteRecord(r) + rest) == Got(r, rest))
      && (!Fits(ops, c) ==> r.Data? && (!Restorable(ops, c) || ReadChunk(WriteRecord(r) + rest).Bad?))
      && (ReadChunk(WriteRecord(r) + rest) == Got(r, rest) || ReadChunk(WriteRecord(r) + rest).Bad?)
  {
    assert c in before + [c];
    ReadWrite(RecordFor(ops, before, c), rest);
  }

  lemma DecodeFirst(ops: Ops, input: seq<byte>, r: Record, rest: seq<byte>, cache: Cache)
    requires ReadChunk(input) == Got(r, rest) || ReadChunk(input).Bad?
    ensures ReadChunk(input).Bad? || Accept(ops, cache, r).Err? ==> DecodeFrom(ops, input, cache).Err?
    ensures ReadChunk(input).Got? && Accept(ops, cache, r).Ok? ==>
      var a := Accept(ops, cache, r).value;
      DecodeFrom(ops, input, cache) == Prefixed(a.data, DecodeFrom(ops, rest, a.cache))
  {
  }

  lemma {:induction false} DecodeRecords(ops: Ops, before: seq<Block>, blocks: seq<Block>, cache: Cache)
    requires Sound(ops, before + blocks) && Holds(ops, before, cache)
    requires AllFit(ops, before)
    ensures var rs := Records(ops, before, blocks);
      if AllFit(ops, blocks)
      then AllWritable(rs) && DecodeFrom(ops, WriteAll(rs), cache) == Ok(Concat(blocks))
      else DecodeFrom(ops, WriteAll(rs), cache).Err?
    decreases blocks
  {
    if blocks != [] {
      var c := blocks[0];
      var r, rest := RecordFor(ops, before, c), Records(ops, before + [c], blocks[1..]);
      assert before + blocks == (before + [c]) + blocks[1..];
      assert Sound(ops, before + [c]) by {
        assert forall b :: b in before + [c] ==> b in before + blocks;
      }
      AcceptRecord(ops, before, c, cache);
      RecordSurvives(ops, before, c, WriteAll(rest));
      assert WriteAll([r] + rest) == WriteRecord(r) + WriteAll(rest);
      DecodeFirst(ops, WriteRecord(r) + WriteAll(rest), r, WriteAll(rest), cache);
      if Fits(ops, c) {
        DecodeRecords(ops, before + [c], blocks[1..], Accept(ops, cache, r).value.cache);
      }
    }
  }

  /** The round trip: the output of the encoder decodes to the original bytes if and only if
      every block fits; otherwise the decoder stops with an error. */
  lemma RoundTrip(ops: Ops, blocks: seq<Block>)
    requires Sound(ops, blocks)
    ensures var rs := Records(ops, [], blocks);
      if AllFit(ops, blocks)
      then AllWritable(rs) && DecodeFrom(ops, WriteAll(rs), map[]) == Ok(Concat(blocks))
      else DecodeFrom(ops, WriteAll(rs), map[]).Err?
  {
    assert [] + blocks == blocks;
    DecodeRecords(ops, [], blocks, map[]);
  }

  /* ---------- which record each block gets ---------- */

  lemma {:induction false} RecordsAt(ops: Ops, before: seq<Block>, blocks: seq<Block>, i: nat)
    requires i < |blocks|
    ensures |Records(ops, before, blocks)| == |blocks|
    ensures Records(ops, before, blocks)[i] == RecordFor(ops, before + blocks[..i], blocks[i])
    decreases blocks
  {
    if i == 0 {
      assert before + blocks[..0] == before;
      if |blocks| > 1 { RecordsAt(ops, before + [blocks[0]], blocks[1..], 0); }
    } else {
      RecordsAt(ops, before + [blocks[0]], blocks[1..], i - 1);
      assert (before + [blocks[0]]) + blocks[1..][..i - 1] == before + blocks[..i];
    }
  }

  lemma {:induction false} RecordsNext(ops: Ops, before: seq<Block>, blocks: seq<Block>, c: Block)
    ensures Records(ops, before, blocks + [c]) == Records(ops, before, blocks) + [RecordFor(ops, before + blocks, c)]
    decreases blocks
  {
    if blocks == [] {
      assert before + [] == before && Records(ops, before + [c], []) == [];
    } else {
      RecordsNext(ops, before + [blocks[0]], blocks[1..], c);
      assert (blocks + [c])[1..] == blocks[1..] + [c];
      assert (before + [blocks[0]]) + blocks[1..] == before + blocks;
    }
  }

  lemma {:induction false} WriteAllNext(rs: seq<Record>, r: Record)
    ensures WriteAll(rs + [r]) == WriteAll(rs) + WriteRecord(r)
  {
    if rs == [] {
      WriteOne(rs + [r], r);
    } else {
      WriteAllNext(rs[1..], r);
      assert (rs + [r])[1..] == rs[1..] + [r];
      Associate(WriteRecord(rs[0]), WriteAll(rs[1..]), WriteRecord(r));
    }
  }

  lemma WriteOne(rs: seq<Record>, r: Record)
    requires |rs| == 1 && rs[0] == r
    ensures WriteAll(rs) == WriteRecord(r)
  {
  }

  lemma {:induction false} FirstWith(ops: Ops, blocks: seq<Block>, i: nat) returns (j: nat)
    requires i < |blocks|
    ensures j <= i && ops.digest(blocks[j]) == ops.digest(blocks[i])
    ensures ops.digest(blocks[j]) !in Digests(ops, blocks[..j])
  {
    j := i;
    if ops.digest(blocks[i]) in Digests(ops, blocks[..i]) {
      var k :| 0 <= k < i && ops.digest(blocks[k]) == ops.digest(blocks[i]);
      j := FirstWith(ops, blocks, k);
    }
  }

  /** Each digest has exactly one data record, at its first block, and every fingerprint
      record comes after the data record of its digest. */
  lemma OneDataRecord(ops: Ops, blocks: seq<Block>, i: nat)
    requires Sound(ops, blocks) && i < |blocks|
    ensures var rs := Records(ops, [], blocks);
      && |rs| == |blocks|
      && rs[i] == (if exists j :: 0 <= j < i && ops.digest(blocks[j]) == ops.digest(blocks[i])
                   then Fingerprint(ops.digest(blocks[i])) else Data(ops.compress(blocks[i])))
      && exists j :: 0 <= j <= i && blocks[j] == blocks[i] && rs[j] == Data(ops.compress(blocks[i]))
  {
    RecordsAt(ops, [], blocks, i);
    assert [] + blocks[..i] == blocks[..i];
    if j :| 0 <= j < i && ops.digest(blocks[j]) == ops.digest(blocks[i]) {
      assert blocks[..i][j] == blocks[j];
    }
    var j := FirstWith(ops, blocks, i);
    RecordsAt(ops, [], blocks, j);
    assert [] + blocks[..j] == blocks[..j];
    assert blocks[j] in blocks && blocks[i] in blocks;
  }

  /** Without compression the writer itself refuses, below 2^32 bytes, exactly the blocks that
      do not fit: what it has written in full can be read back. */
  lemma UncompressedWritten(ops: Ops, blocks: seq<Block>)
    requires Sound(ops, blocks) && !ops.bounded
    requires forall c :: c in blocks ==> ops.compress(c) == c && 0 < |c| < TWO_32
    ensures AllWritable(Records(ops, [], blocks)) <==> AllFit(ops, blocks)
  {
    var rs := Records(ops, [], blocks);
    if AllWritable(rs) {
      forall c | c in blocks ensures Fits(ops, c) {
        var i :| 0 <= i < |blocks| && blocks[i] == c;
        OneDataRecord(ops, blocks, i);
        var j :| 0 <= j <= i && blocks[j] == c && rs[j] == Data(c);
        assert Writable(rs[j]);
      }
    } else {
      var i :| 0 <= i < |rs| && !Writable(rs[i]);
      RecordsLength(ops, [], blocks);
      OneDataRecord(ops, blocks, i);
      assert blocks[i] in blocks && !Fits(ops, blocks[i]);
    }
  }

  lemma {:induction false} RecordsLength(ops: Ops, before: seq<Block>, blocks: seq<Block>)
    ensures |Records(ops, before, blocks)| == |blocks|
    decreases blocks
  {
    if blocks != [] { RecordsLength(ops, before + [blocks[0]], blocks[1..]); }
  }
}

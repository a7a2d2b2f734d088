/** The serial encoder: SerialIntegratedPipeline of samples/dedup/encoder.c with the kernels it
    calls. */
module SerialEncoder {
  import opened Wrappers
  import opened Bytes
  import opened Segments
  import opened Chunking
  import opened DedupRecords
  import opened DedupCodec
  import opened Rabin
  import opened FileSegments
  import opened Sequences

  /** The state the encoder updates: the digests in its hash table and the output. */
  class SerialEncoder {
    const ops: Ops
    var cache: set<Block>
    var out: seq<byte>
    ghost var blocks: seq<Block>

    ghost predicate Valid()
      reads this
    {
      cache == Digests(ops, blocks) && out == WriteAll(Records(ops, [], blocks))
    }

    constructor (ops: Ops)
      ensures Valid() && blocks == [] && this.ops == ops
    {
      this.ops := ops;
      cache, out, blocks := {}, [], [];
    }

    method SubDeduplicate(c: Block) returns (isDuplicate: bool)
      modifies this`cache
      ensures isDuplicate == (ops.digest(c) in old(cache)) && cache == old(cache) + {ops.digest(c)}
    {
      var sha1 := ops.digest(c);
      isDuplicate := sha1 in cache;
      if !isDuplicate {
        cache := cache + {sha1};
      }
    }

    // write_file: the check follows the write, and the program exits when it fails.
    method WriteFile(r: Record) returns (ok: bool)
      modifies this`out
      ensures out == old(out) + WriteRecord(r) && ok == Writable(r)
      ensures ok <==> r.Fingerprint? || |r.content| % 0x1_0000_0000 < 0x8000_0000
    {
      out := out + WriteRecord(r);
      ok := Writable(r);
    }

    // One chunk: sub_Deduplicate, sub_Compress and write_chunk_to_file.
    method Process(c: Block) returns (ok: bool)
      requires Valid()
      modifies this
      ensures Valid() && blocks == old(blocks) + [c]
      ensures ok == Writable(RecordFor(ops, old(blocks), c))
    {
      RecordsNext(ops, [], blocks, c);
      assert [] + blocks == blocks;
      WriteAllNext(Records(ops, [], blocks), RecordFor(ops, blocks, c));
      var isDuplicate := SubDeduplicate(c);
      if isDuplicate {
        ok := WriteFile(Fingerprint(ops.digest(c)));
      } else {
        var compressed := ops.compress(c);
        ok := WriteFile(Data(compressed));
      }
      assert forall b :: b in blocks + [c] <==> b in blocks || b == c;
      blocks := blocks + [c];
    }
  }

  datatype Outcome = Done | AssertionFails | WriteExits

  // The writer exits exactly at the first chunk whose compressed size is negative as an int.
  ghost predicate Stopped(ops: Ops, blocks: seq<Block>, outcome: Outcome) {
    if outcome == WriteExits
    then
      && blocks != [] && AsInt(|ops.compress(blocks[|blocks| - 1])|) < 0
      && AllWritable(Records(ops, [], blocks[..|blocks| - 1]))
      && ops.digest(blocks[|blocks| - 1]) !in Digests(ops, blocks[..|blocks| - 1])
    else AllWritable(Records(ops, [], blocks))
  }

  lemma StoppedNext(ops: Ops, blocks: seq<Block>, c: Block, ok: bool)
    requires Stopped(ops, blocks, Done) && ok == Writable(RecordFor(ops, blocks, c))
    ensures Stopped(ops, blocks + [c], if ok then Done else WriteExits)
  {
    assert [] + blocks == blocks && (blocks + [c])[..|blocks|] == blocks;
    RecordsNext(ops, [], blocks, c);
  }

  // One chunk, unless an earlier one could not be written.
  method Archive(enc: SerialEncoder, c: Block) returns (outcome: Outcome)
    requires enc.Valid() && Stopped(enc.ops, enc.blocks, Done)
    modifies enc
    ensures enc.Valid() && enc.blocks == old(enc.blocks) + [c]
    ensures outcome != AssertionFails && Stopped(enc.ops, enc.blocks, outcome)
  {
    StoppedNext(enc.ops, enc.blocks, c, Writable(RecordFor(enc.ops, enc.blocks, c)));
    var written := enc.Process(c);
    outcome := if written then Done else WriteExits;
  }

  // The chunks processed and the rest of the run are the run on the file.
  ghost predicate OnCourse(m: seq<byte> -> bool, file: Block, maxbuf: nat, blocks: seq<Block>, held: Block, rest: Block) {
    OnTrack(CutUp(m, 0, maxbuf, [], file), m, 0, maxbuf, blocks, held, rest)
  }

  // The do loop: pieces that end inside the buffer are processed, the rest is carried over.
  method SplitBuffer(enc: SerialEncoder, ghost winlen: int, buffer: Block, rabintab: array<bv32>, rabinwintab: array<bv32>,
                     ghost fits: bool, ghost input: Block, ghost maxbuf: nat, ghost rest: Block)
    returns (outcome: Outcome, temp: Block)
    requires enc.Valid() && Ready(winlen, rabintab, rabinwintab) && buffer != []
    requires Cutter(Fine(FileMatcher(winlen))) && (fits ==> |buffer| < INT_BOUND)
    requires Running(fits, Fine(FileMatcher(winlen)), input, enc.blocks, buffer, rest)
    requires OnCourse(FileMatcher(winlen), input, maxbuf, enc.blocks, buffer, rest)
    requires Stopped(enc.ops, enc.blocks, Done)
    modifies enc
    ensures enc.Valid() && temp != []
    ensures OnCourse(FileMatcher(winlen), input, maxbuf, enc.blocks, temp, rest)
    ensures outcome == AssertionFails ==> Decide(FileMatcher(winlen), 0, temp) == Fails
    ensures outcome == Done ==> Decide(FileMatcher(winlen), 0, temp) == NoEnd
    ensures Running(fits, Fine(FileMatcher(winlen)), input, enc.blocks, temp, rest)
    ensures fits ==> outcome != AssertionFails
    ensures fits && outcome == Done ==> Fine(FileMatcher(winlen))(temp) == |temp|
    ensures Stopped(enc.ops, enc.blocks, outcome)
  {
    ghost var m := FileMatcher(winlen);
    ghost var cut := Fine(m);
    FileNotEmpty(winlen);
    var chunk, split := buffer, true;
    outcome, temp := Done, buffer;
    while split
      invariant enc.Valid() && outcome == Done && chunk != [] && temp != [] && Stopped(enc.ops, enc.blocks, Done)
      invariant OnCourse(m, input, maxbuf, enc.blocks, chunk, rest)
      invariant !split ==> Decide(m, 0, temp) == NoEnd
      invariant Running(fits, cut, input, enc.blocks, chunk, rest) && (fits ==> |chunk| < INT_BOUND)
      invariant !split ==> temp == chunk && (fits ==> cut(temp) == |temp|)
      decreases split, |chunk|
    {
      split := false;
      var end := NextEnd(chunk, 0, winlen, rabintab, rabinwintab);
      RunningPass(fits, m, 0, input, enc.blocks, chunk, rest, end);
      OnTrackPass(CutUp(m, 0, maxbuf, [], input), m, 0, maxbuf, enc.blocks, chunk, rest, end);
      match end
      case Fails =>
        return AssertionFails, chunk;
      case End(offset) =>
        outcome := Archive(enc, chunk[..offset]);
        chunk := chunk[offset..];
        if outcome != Done {
          temp := chunk;
          return;
        }
        split := true;
      case NoEnd =>
        temp := chunk;
    }
  }

  // What a run of the encoder on `file` guarantees; `blocks` are the chunks it has processed.
  ghost predicate Encoded(ops: Ops, m: seq<byte> -> bool, file: Block, maxbuf: nat, outcome: Outcome, out: seq<byte>,
                          blocks: seq<Block>)
    requires Cutter(Fine(m))
  {
    && out == WriteAll(Records(ops, [], blocks)) && Stopped(ops, blocks, outcome)
    && AsCut(CutUp(m, 0, maxbuf, [], file), blocks, outcome)
    && (outcome == Done ==> Finished(Short(Fine(m), file, maxbuf), Fine(m), file, blocks))
    && (Short(Fine(m), file, maxbuf) ==> outcome != AssertionFails && blocks <= Pieces(Fine(m), file))
    && (outcome == AssertionFails ==> exists held, rest :: FailsOn(m, file, blocks, held, rest))
  }

  // The chunks processed are those that the run cuts off, up to one that cannot be written.
  ghost predicate AsCut(all: Cutting<byte>, blocks: seq<Block>, outcome: Outcome) {
    match outcome
    case Done => all == Cutting(blocks, [])
    case AssertionFails => all.out == blocks && all.left != []
    case WriteExits => blocks <= all.out
  }

  // Behind the chunks processed the buffer held what the search cannot be called with.
  ghost predicate FailsOn(m: seq<byte> -> bool, file: Block, blocks: seq<Block>, held: Block, rest: Block) {
    file == Concat(blocks) + (held + rest) && Decide(m, 0, held) == Fails
  }

  // Before the next block of the file is read.
  ghost predicate Between(enc: SerialEncoder, m: seq<byte> -> bool, file: Block, maxbuf: nat, temp: Block, rest: Block)
    requires Cutter(Fine(m))
    reads enc
  {
    && enc.Valid() && Stopped(enc.ops, enc.blocks, Done)
    && Running(Short(Fine(m), file, maxbuf), Fine(m), file, enc.blocks, temp, rest)
    && (Short(Fine(m), file, maxbuf) ==> Fine(m)(temp) == |temp|)
    && OnCourse(m, file, maxbuf, enc.blocks, temp, rest) && NextCut(m, 0, temp) == NoEnd
  }

  lemma StoppedEncoded(ops: Ops, m: seq<byte> -> bool, file: Block, maxbuf: nat, outcome: Outcome, out: seq<byte>,
                       blocks: seq<Block>, temp: Block, rest: Block)
    requires Cutter(Fine(m)) && outcome != Done && Stopped(ops, blocks, outcome)
    requires out == WriteAll(Records(ops, [], blocks))
    requires Running(Short(Fine(m), file, maxbuf), Fine(m), file, blocks, temp, rest)
    requires Short(Fine(m), file, maxbuf) ==> outcome != AssertionFails
    requires outcome == AssertionFails ==> Decide(m, 0, temp) == Fails
    requires OnCourse(m, file, maxbuf, blocks, temp, rest) && temp != []
    ensures Encoded(ops, m, file, maxbuf, outcome, out, blocks)
  {
    OnTrackPass(CutUp(m, 0, maxbuf, [], file), m, 0, maxbuf, blocks, temp, rest, Decide(m, 0, temp));
    assert outcome == AssertionFails ==> FailsOn(m, file, blocks, temp, rest);
  }

  // The end of the input: what is left is the last chunk.
  method Finish(enc: SerialEncoder, ghost m: seq<byte> -> bool, ghost file: Block, ghost maxbuf: nat, temp: Block)
    returns (outcome: Outcome)
    requires NotEmpty(m) && Cutter(Fine(m)) && Between(enc, m, file, maxbuf, temp, [])
    modifies enc
    ensures Encoded(enc.ops, m, file, maxbuf, outcome, enc.out, enc.blocks)
  {
    OnTrackRead(CutUp(m, 0, maxbuf, [], file), m, 0, maxbuf, enc.blocks, temp, [], 0);
    if temp == [] {
      RunningEmpty(Short(Fine(m), file, maxbuf), Fine(m), file, enc.blocks);
      return Done;
    }
    RunningLast(Short(Fine(m), file, maxbuf), Fine(m), file, enc.blocks, temp);
    outcome := Archive(enc, temp);
  }

  // One block, read behind what was carried over.
  method ReadAndSplit(enc: SerialEncoder, ghost winlen: int, rabintab: array<bv32>, rabinwintab: array<bv32>,
                      ghost file: Block, ghost maxbuf: nat, temp0: Block, block: Block, ghost rest: Block)
    returns (outcome: Outcome, temp: Block)
    requires Ready(winlen, rabintab, rabinwintab) && 0 < |block| == BlockSize(block + rest, maxbuf)
    requires Cutter(Fine(FileMatcher(winlen))) && Between(enc, FileMatcher(winlen), file, maxbuf, temp0, block + rest)
    modifies enc
    ensures outcome == Done ==> Between(enc, FileMatcher(winlen), file, maxbuf, temp, rest)
    ensures outcome != Done ==> Encoded(enc.ops, FileMatcher(winlen), file, maxbuf, outcome, enc.out, enc.blocks)
  {
    ghost var m := FileMatcher(winlen);
    ghost var fits := Short(Fine(m), file, maxbuf);
    assert (block + rest)[..|block|] == block && (block + rest)[|block|..] == rest;
    RunningRead(fits, Fine(m), file, enc.blocks, temp0, block + rest, |block|, maxbuf);
    OnTrackRead(CutUp(m, 0, maxbuf, [], file), m, 0, maxbuf, enc.blocks, temp0, block + rest, |block|);
    outcome, temp := SplitBuffer(enc, winlen, temp0 + block, rabintab, rabinwintab, fits, file, maxbuf, rest);
    if outcome != Done {
      StoppedEncoded(enc.ops, m, file, maxbuf, outcome, enc.out, enc.blocks, temp, rest);
    }
  }

  method Tables(winlen: int) returns (rabintab: array<bv32>, rabinwintab: array<bv32>)
    ensures Ready(winlen, rabintab, rabinwintab)
  {
    rabintab, rabinwintab := new bv32[256], new bv32[256];
    Rabininit(winlen, rabintab, rabinwintab);
  }

  // The reading loop.
  method ReadAll(enc: SerialEncoder, ghost winlen: int, rabintab: array<bv32>, rabinwintab: array<bv32>, file: Block,
                 maxbuf: nat, temp0: Block)
    returns (outcome: Outcome)
    requires Ready(winlen, rabintab, rabinwintab) && maxbuf > 0 && NotEmpty(FileMatcher(winlen))
    requires Cutter(Fine(FileMatcher(winlen))) && Between(enc, FileMatcher(winlen), file, maxbuf, temp0, file)
    modifies enc
    ensures Encoded(enc.ops, FileMatcher(winlen), file, maxbuf, outcome, enc.out, enc.blocks)
  {
    var temp, rest := temp0, file;
    while true
      invariant Between(enc, FileMatcher(winlen), file, maxbuf, temp, rest)
      decreases |rest|
    {
      var bytesRead := ReadBlock(rest, maxbuf);
      if bytesRead == 0 {
        outcome := Finish(enc, FileMatcher(winlen), file, maxbuf, temp);
        return;
      }
      var block := rest[..bytesRead];
      TakeDrop(rest, bytesRead);
      rest := rest[bytesRead..];
      outcome, temp := ReadAndSplit(enc, winlen, rabintab, rabinwintab, file, maxbuf, temp, block, rest);
      if outcome != Done {
        return;
      }
    }
  }

  lemma StartBetween(m: seq<byte> -> bool, file: Block, maxbuf: nat)
    requires NotEmpty(m)
    ensures Cutter(Fine(m)) && Running(Short(Fine(m), file, maxbuf), Fine(m), file, [], [], file)
    ensures OnCourse(m, file, maxbuf, [], [], file)
  {
    OnTrackStart(m, 0, maxbuf, [], file);
    CoarseCuts(m, 0);
    var none: Block := [];
    assert none + file == file;
    RunningStart(Short(Fine(m), file, maxbuf), Fine(m), file, none, file);
  }

  /** What a finished run has written decodes to the file if and only if all chunks fit; what
      a run that could not write has left behind is rejected. */
  lemma SerialRoundTrip(ops: Ops, m: seq<byte> -> bool, file: Block, maxbuf: nat, outcome: Outcome, out: seq<byte>,
                        blocks: seq<Block>)
    requires Cutter(Fine(m)) && Encoded(ops, m, file, maxbuf, outcome, out, blocks) && Sound(ops, blocks)
    ensures outcome == Done ==> (AllFit(ops, blocks) <==> DecodeFrom(ops, out, map[]) == Ok(file))
    ensures outcome == WriteExits ==> DecodeFrom(ops, out, map[]).Err?
  {
    RoundTrip(ops, blocks);
    if outcome == WriteExits {
      assert blocks[|blocks| - 1] in blocks;
    }
  }

  /** When no one-shot piece comes within a block of 2^31 bytes, the run ends, and the round trip
      succeeds if and only if all these pieces fit. */
  lemma ShortRoundTrip(ops: Ops, m: seq<byte> -> bool, file: Block, maxbuf: nat, outcome: Outcome, out: seq<byte>,
                       blocks: seq<Block>)
    requires Cutter(Fine(m)) && Encoded(ops, m, file, maxbuf, outcome, out, blocks)
    requires Short(Fine(m), file, maxbuf) && Sound(ops, Pieces(Fine(m), file))
    ensures AllFit(ops, Pieces(Fine(m), file)) <==> DecodeFrom(ops, out, map[]) == Ok(file)
    ensures AllFit(ops, Pieces(Fine(m), file)) ==> outcome == Done && blocks == Pieces(Fine(m), file)
  {
    assert forall c :: c in blocks ==> c in Pieces(Fine(m), file);
    SerialRoundTrip(ops, m, file, maxbuf, outcome, out, blocks);
    if outcome == WriteExits {
      assert blocks[|blocks| - 1] in Pieces(Fine(m), file);
    }
  }

  // ShortRoundTrip, when its assumptions are met.
  lemma EncodedRoundTrip(ops: Ops, m: seq<byte> -> bool, file: Block, maxbuf: nat, outcome: Outcome, out: seq<byte>,
                         blocks: seq<Block>)
    requires Cutter(Fine(m)) && Encoded(ops, m, file, maxbuf, outcome, out, blocks)
    ensures Short(Fine(m), file, maxbuf) && Sound(ops, Pieces(Fine(m), file)) ==>
      (DecodeFrom(ops, out, map[]) == Ok(file) <==> AllFit(ops, Pieces(Fine(m), file)))
  {
    if Short(Fine(m), file, maxbuf) && Sound(ops, Pieces(Fine(m), file)) {
      ShortRoundTrip(ops, m, file, maxbuf, outcome, out, blocks);
    }
  }

  /** Whatever the block size: the chunks processed are the file cut into pieces, and the
      output is theirs.  It decodes to the file if and only if all pieces fit, when none comes
      within a block of 2^31 bytes. */
  method SerialIntegratedPipeline(ops: Ops, winlen: int, file: Block, maxbuf: nat) returns (outcome: Outcome, out: seq<byte>)
    requires maxbuf > 0
    ensures Cutter(Fine(FileMatcher(winlen)))
    ensures exists blocks: seq<Block> :: Encoded(ops, FileMatcher(winlen), file, maxbuf, outcome, out, blocks)
    ensures var cut := Fine(FileMatcher(winlen));
      Short(cut, file, maxbuf) && Sound(ops, Pieces(cut, file)) ==>
        (DecodeFrom(ops, out, map[]) == Ok(file) <==> AllFit(ops, Pieces(cut, file)))
  {
    FileNotEmpty(winlen);
    StartBetween(FileMatcher(winlen), file, maxbuf);
    var rabintab, rabinwintab := Tables(winlen);
    var enc := new SerialEncoder(ops);
    outcome := ReadAll(enc, winlen, rabintab, rabinwintab, file, maxbuf, []);
    out := enc.out;
    EncodedRoundTrip(ops, FileMatcher(winlen), file, maxbuf, outcome, out, enc.blocks);
  }

  // A file that is one chunk.
  lemma OneChunkFile(ops: Ops, m: seq<byte> -> bool, file: Block, maxbuf: nat, outcome: Outcome, out: seq<byte>,
                     blocks: seq<Block>)
    requires Cutter(Fine(m)) && Pieces(Fine(m), file) == [file] && |file| + maxbuf < INT_BOUND
    requires Encoded(ops, m, file, maxbuf, outcome, out, blocks) && Sound(ops, [file]) && !Fits(ops, file)
    ensures DecodeFrom(ops, out, map[]).Err?
    ensures AsInt(|ops.compress(file)|) >= 0 ==> outcome == Done
  {
    assert file in [file] && !AllFit(ops, [file]);
    assert forall c :: c in blocks ==> c == file;
    RoundTrip(ops, blocks);
    if outcome == WriteExits {
      assert blocks[|blocks| - 1] == file;
    }
  }

  /** In the default mode there is a file of a little over 10^7 bytes that is encoded, unless
      its compressed size does not fit an int, and that cannot be decoded. */
  lemma TenMegabyteFile(ops: Ops, winlen: int, file: Block, maxbuf: nat, outcome: Outcome, out: seq<byte>, blocks: seq<Block>)
    requires file == QuietFile(winlen, UNCOMPRESS_BOUND + 1) && ops.bounded && Sound(ops, [file])
    requires |file| + maxbuf < INT_BOUND && Cutter(Fine(FileMatcher(winlen)))
    requires Encoded(ops, FileMatcher(winlen), file, maxbuf, outcome, out, blocks)
    ensures DecodeFrom(ops, out, map[]).Err?
    ensures AsInt(|ops.compress(file)|) >= 0 ==> outcome == Done
  {
    QuietFilePieces(winlen, UNCOMPRESS_BOUND + 1);
    OneChunkFile(ops, FileMatcher(winlen), file, maxbuf, outcome, out, blocks);
  }

  /** Without compression a file of 2^31 bytes may be one chunk, and writing it fails. */
  lemma TwoGigabyteFile(ops: Ops, winlen: int, file: Block)
    requires file == QuietFile(winlen, INT_BOUND) && ops.compress(file) == file
    ensures Cutter(Fine(FileMatcher(winlen))) && Pieces(Fine(FileMatcher(winlen)), file) == [file]
    ensures !Writable(RecordFor(ops, [], file))
  {
    QuietFilePieces(winlen, INT_BOUND);
  }
}

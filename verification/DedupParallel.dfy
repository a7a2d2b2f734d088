/** The parallel encoder: deduplication and compression of the chunks in any order, the
    output in order (sub_Deduplicate, sub_Compress and write_chunk_to_file of
    samples/dedup/encoder.c).  Each step is one critical section: the hash table lock of the
    digest, or the lock of the chunk holding the data.  The queues between the stages are
    abstracted to "has got there". */
module DedupParallel {
  import opened Bytes
  import opened DedupRecords
  import opened DedupCodec
  import opened Chunking
  import opened Sequences

  datatype Phase = Fresh | Unique | Duplicate(ref: nat)

  datatype ChunkState = Uncompressed | Compressed | Flushed

  datatype Net = Net(
    phase: seq<Phase>,
    state: seq<ChunkState>,
    table: map<Block, nat>,
    arrived: set<nat>,
    written: nat,
    out: seq<byte>,
    exited: bool)

  datatype Step = Dedup(i: nat) | Compress(i: nat) | Arrive(i: nat) | Write

  ghost predicate Sized(blocks: seq<Block>, s: Net) {
    |s.phase| == |blocks| && |s.state| == |blocks| && s.written <= |blocks|
  }

  ghost predicate Init(blocks: seq<Block>, s: Net) {
    && Sized(blocks, s) && s.table == map[] && s.arrived == {} && s.written == 0 && s.out == [] && !s.exited
    && forall i :: 0 <= i < |blocks| ==> s.phase[i] == Fresh && s.state[i] == Uncompressed
  }

  // The chunk whose lock and data write_chunk_to_file uses.
  function Target(s: Net, i: nat): nat
    requires i < |s.phase|
  {
    if s.phase[i].Duplicate? then s.phase[i].ref else i
  }

  ghost predicate Enabled(ops: Ops, blocks: seq<Block>, s: Net, e: Step)
    requires Sized(blocks, s)
  {
    !s.exited &&
    match e
    case Dedup(i) => i < |blocks| && s.phase[i] == Fresh
    case Compress(i) => i < |blocks| && s.phase[i] == Unique && s.state[i] == Uncompressed
    // a duplicate comes from Deduplicate, a unique chunk from Compress
    case Arrive(i) =>
      i < |blocks| && i !in s.arrived
      && (s.phase[i].Duplicate? || (s.phase[i].Unique? && s.state[i] != Uncompressed))
    // waits while the data is not compressed yet
    case Write =>
      s.written < |blocks| && s.written in s.arrived
      && Target(s, s.written) < |blocks| && s.state[Target(s, s.written)] != Uncompressed
  }

  // What write_chunk_to_file writes, given the state of the chunk it looks at.
  function NextRecord(ops: Ops, blocks: seq<Block>, s: Net): Record
    requires Sized(blocks, s) && Enabled(ops, blocks, s, Write)
  {
    var t := Target(s, s.written);
    if s.state[t] == Compressed then Data(ops.compress(blocks[t])) else Fingerprint(ops.digest(blocks[t]))
  }

  function Do(ops: Ops, blocks: seq<Block>, s: Net, e: Step): Net
    requires Sized(blocks, s) && Enabled(ops, blocks, s, e)
  {
    match e
    case Dedup(i) =>
      var d := ops.digest(blocks[i]);
      if d in s.table then s.(phase := s.phase[i := Duplicate(s.table[d])])
      else s.(phase := s.phase[i := Unique], table := s.table[d := i])
    case Compress(i) => s.(state := s.state[i := Compressed])
    case Arrive(i) => s.(arrived := s.arrived + {i})
    case Write =>
      var t := Target(s, s.written);
      var r := NextRecord(ops, blocks, s);
      // the check follows the write, and the program exits when it fails
      s.(out := s.out + WriteRecord(r), exited := !Writable(r),
         state := if s.state[t] == Compressed then s.state[t := Flushed] else s.state,
         written := s.written + 1)
  }

  /* ---------- the invariant ---------- */

  // What is known of chunk i.
  ghost predicate ChunkInv(ops: Ops, blocks: seq<Block>, s: Net, i: nat)
    requires Sized(blocks, s) && i < |blocks|
  {
    var d := ops.digest(blocks[i]);
    match s.phase[i]
    case Fresh => s.state[i] == Uncompressed
    case Duplicate(t) => s.state[i] == Uncompressed && d in s.table && s.table[d] == t
    case Unique =>
      && d in s.table && s.table[d] == i
      && (s.state[i] == Flushed <==> d in Digests(ops, blocks[..s.written]))
  }

  ghost predicate TableInv(ops: Ops, blocks: seq<Block>, s: Net)
    requires Sized(blocks, s)
  {
    forall d :: d in s.table ==>
      s.table[d] < |blocks| && ops.digest(blocks[s.table[d]]) == d && s.phase[s.table[d]] == Unique
  }

  ghost predicate ArrivalInv(blocks: seq<Block>, s: Net)
    requires Sized(blocks, s)
  {
    && (forall i :: i in s.arrived ==>
          i < |blocks| && (s.phase[i].Unique? ==> s.state[i] != Uncompressed) && s.phase[i] != Fresh)
    && (forall i: nat :: i < s.written ==> i in s.arrived)
  }

  ghost predicate Inv(ops: Ops, blocks: seq<Block>, s: Net) {
    && Sized(blocks, s)
    && (forall i: nat :: i < |blocks| ==> ChunkInv(ops, blocks, s, i))
    && TableInv(ops, blocks, s)
    && ArrivalInv(blocks, s)
    && s.out == WriteAll(Records(ops, [], blocks[..s.written]))
    && ExitInv(ops, blocks, s)
  }

  // The writer has exited exactly if the last record has not fitted an int; none before it has not.
  ghost predicate ExitInv(ops: Ops, blocks: seq<Block>, s: Net)
    requires Sized(blocks, s)
  {
    StopsAt(Records(ops, [], blocks[..s.written]), s.exited)
  }

  ghost predicate StopsAt(rs: seq<Record>, exited: bool) {
    if exited then rs != [] && Fails(rs[|rs| - 1]) && AllWritable(rs[..|rs| - 1]) else AllWritable(rs)
  }

  ghost predicate Fails(r: Record) {
    r.Data? && |r.content| % 0x1_0000_0000 >= 0x8000_0000
  }

  lemma StopsNext(rs: seq<Record>, r: Record)
    requires AllWritable(rs)
    ensures StopsAt(rs + [r], !Writable(r))
  {
    assert (rs + [r])[..|rs|] == rs;
  }

  // A writer that has exited has met a chunk that does not fit.
  lemma ExitedUnfit(ops: Ops, blocks: seq<Block>, s: Net)
    requires Inv(ops, blocks, s) && s.exited
    ensures !AllFit(ops, blocks[..s.written])
  {
    var bs := blocks[..s.written];
    RecordsLength(ops, [], bs);
    RecordsAt(ops, [], bs, |bs| - 1);
    assert bs[|bs| - 1] in bs && !Fits(ops, bs[|bs| - 1]);
  }

  lemma InitInv(ops: Ops, blocks: seq<Block>, s: Net)
    requires Init(blocks, s)
    ensures Inv(ops, blocks, s)
  {
    assert blocks[..0] == [];
  }

  // A digest that has been written is in the table.
  lemma WrittenInTable(ops: Ops, blocks: seq<Block>, s: Net, d: Block)
    requires Inv(ops, blocks, s) && d in Digests(ops, blocks[..s.written])
    ensures d in s.table
  {
    var k :| 0 <= k < s.written && ops.digest(blocks[k]) == d;
    assert ChunkInv(ops, blocks, s, k);
  }

  lemma DedupInv(ops: Ops, blocks: seq<Block>, s: Net, i: nat)
    requires Inv(ops, blocks, s) && Enabled(ops, blocks, s, Dedup(i))
    ensures Inv(ops, blocks, Do(ops, blocks, s, Dedup(i)))
  {
    var s' := Do(ops, blocks, s, Dedup(i));
    var d := ops.digest(blocks[i]);
    if d in Digests(ops, blocks[..s.written]) { WrittenInTable(ops, blocks, s, d); }
    assert ChunkInv(ops, blocks, s, i);
    forall j: nat | j < |blocks| ensures ChunkInv(ops, blocks, s', j) {
      assert ChunkInv(ops, blocks, s, j);
    }
  }

  lemma DigestsNext(ops: Ops, blocks: seq<Block>, n: nat)
    requires n < |blocks|
    ensures Digests(ops, blocks[..n + 1]) == Digests(ops, blocks[..n]) + {ops.digest(blocks[n])}
  {
    assert blocks[..n + 1] == blocks[..n] + [blocks[n]];
    assert forall b :: b in blocks[..n + 1] <==> b in blocks[..n] || b == blocks[n];
  }

  // The record that Write appends is the serial encoder's.
  lemma WriteRecordIs(ops: Ops, blocks: seq<Block>, s: Net)
    requires Sound(ops, blocks) && Inv(ops, blocks, s) && Enabled(ops, blocks, s, Write)
    ensures Target(s, s.written) < |blocks| && s.phase[Target(s, s.written)] == Unique
    ensures ops.digest(blocks[Target(s, s.written)]) == ops.digest(blocks[s.written])
    ensures NextRecord(ops, blocks, s) == RecordFor(ops, blocks[..s.written], blocks[s.written])
  {
    var n := s.written;
    var t := Target(s, n);
    assert ChunkInv(ops, blocks, s, n);
    assert ChunkInv(ops, blocks, s, t);
    assert blocks[t] in blocks && blocks[n] in blocks;
  }

  // Write in one form: the target is flushed afterwards in both branches.
  lemma WriteShape(ops: Ops, blocks: seq<Block>, s: Net)
    requires Sound(ops, blocks) && Inv(ops, blocks, s) && Enabled(ops, blocks, s, Write)
    ensures Target(s, s.written) < |blocks|
    ensures var r := RecordFor(ops, blocks[..s.written], blocks[s.written]);
      Do(ops, blocks, s, Write) == s.(
        out := s.out + WriteRecord(r), exited := !Writable(r),
        state := s.state[Target(s, s.written) := Flushed], written := s.written + 1)
  {
    WriteRecordIs(ops, blocks, s);
    var t := Target(s, s.written);
    assert s.state[t] == Flushed ==> s.state == s.state[t := Flushed];
  }

  // Writing, given that the target t has the digest of the chunk written.
  ghost predicate Writes(ops: Ops, blocks: seq<Block>, s: Net, s': Net, t: nat) {
    && Inv(ops, blocks, s) && s.written < |blocks| && s.written in s.arrived && t < |blocks|
    && s' == s.(out := s'.out, exited := s'.exited, state := s.state[t := Flushed], written := s.written + 1)
    && s.phase[t] == Unique && ops.digest(blocks[t]) == ops.digest(blocks[s.written])
  }

  lemma WriteChunks(ops: Ops, blocks: seq<Block>, s: Net, s': Net, t: nat, j: nat)
    requires Writes(ops, blocks, s, s', t) && j < |blocks|
    ensures ChunkInv(ops, blocks, s', j)
  {
    DigestsNext(ops, blocks, s.written);
    assert ChunkInv(ops, blocks, s, j) && ChunkInv(ops, blocks, s, t);
  }

  lemma WriteTable(ops: Ops, blocks: seq<Block>, s: Net, s': Net, t: nat)
    requires Writes(ops, blocks, s, s', t)
    ensures TableInv(ops, blocks, s') && ArrivalInv(blocks, s')
  {
  }

  lemma WriteOut(ops: Ops, blocks: seq<Block>, n: nat)
    requires n < |blocks|
    ensures WriteAll(Records(ops, [], blocks[..n + 1]))
         == WriteAll(Records(ops, [], blocks[..n])) + WriteRecord(RecordFor(ops, blocks[..n], blocks[n]))
  {
    assert blocks[..n + 1] == blocks[..n] + [blocks[n]] && [] + blocks[..n] == blocks[..n];
    RecordsNext(ops, [], blocks[..n], blocks[n]);
    WriteAllNext(Records(ops, [], blocks[..n]), RecordFor(ops, blocks[..n], blocks[n]));
  }

  lemma RecordsEnd(ops: Ops, before: seq<Block>, c: Block)
    ensures Records(ops, [], before + [c]) == Records(ops, [], before) + [RecordFor(ops, before, c)]
  {
    RecordsNext(ops, [], before, c);
    assert [] + before == before;
  }

  lemma WriteStops(ops: Ops, blocks: seq<Block>, s: Net, s': Net)
    requires Inv(ops, blocks, s) && !s.exited && s.written < |blocks| && Sized(blocks, s') && s'.written == s.written + 1
    requires s'.exited == !Writable(RecordFor(ops, blocks[..s.written], blocks[s.written]))
    ensures ExitInv(ops, blocks, s')
  {
    var n := s.written;
    assert blocks[..n + 1] == blocks[..n] + [blocks[n]];
    RecordsEnd(ops, blocks[..n], blocks[n]);
    StopsNext(Records(ops, [], blocks[..n]), RecordFor(ops, blocks[..n], blocks[n]));
  }

  lemma WriteKeeps(ops: Ops, blocks: seq<Block>, s: Net, s': Net, t: nat)
    requires Writes(ops, blocks, s, s', t)
    requires s'.out == WriteAll(Records(ops, [], blocks[..s.written + 1]))
    requires Sized(blocks, s') && ExitInv(ops, blocks, s')
    ensures Inv(ops, blocks, s')
  {
    WriteTable(ops, blocks, s, s', t);
    forall j: nat | j < |blocks| ensures ChunkInv(ops, blocks, s', j) {
      WriteChunks(ops, blocks, s, s', t, j);
    }
  }

  lemma WriteInv(ops: Ops, blocks: seq<Block>, s: Net)
    requires Sound(ops, blocks) && Inv(ops, blocks, s) && Enabled(ops, blocks, s, Write)
    ensures Inv(ops, blocks, Do(ops, blocks, s, Write))
  {
    WriteRecordIs(ops, blocks, s);
    WriteShape(ops, blocks, s);
    WriteOut(ops, blocks, s.written);
    WriteStops(ops, blocks, s, Do(ops, blocks, s, Write));
    WriteKeeps(ops, blocks, s, Do(ops, blocks, s, Write), Target(s, s.written));
  }

  lemma StepInv(ops: Ops, blocks: seq<Block>, s: Net, e: Step)
    requires Sound(ops, blocks) && Inv(ops, blocks, s) && Enabled(ops, blocks, s, e)
    ensures Inv(ops, blocks, Do(ops, blocks, s, e))
  {
    match e
    case Dedup(i) => DedupInv(ops, blocks, s, i);
    case Write => WriteInv(ops, blocks, s);
    case _ =>
      assert ChunkInv(ops, blocks, s, e.i);
      forall j: nat | j < |blocks| ensures ChunkInv(ops, blocks, Do(ops, blocks, s, e), j) {
        assert ChunkInv(ops, blocks, s, j);
      }
  }

  /* ---------- runs ---------- */

  ghost predicate IsRun(ops: Ops, blocks: seq<Block>, ss: seq<Net>, es: seq<Step>) {
    && |ss| == |es| + 1 && Init(blocks, ss[0])
    && forall k :: 0 <= k < |es| ==>
         Sized(blocks, ss[k]) && Enabled(ops, blocks, ss[k], es[k]) && ss[k + 1] == Do(ops, blocks, ss[k], es[k])
  }

  lemma {:induction false} RunInv(ops: Ops, blocks: seq<Block>, ss: seq<Net>, es: seq<Step>, k: nat)
    requires Sound(ops, blocks) && IsRun(ops, blocks, ss, es) && k < |ss|
    ensures Inv(ops, blocks, ss[k])
  {
    if k == 0 {
      InitInv(ops, blocks, ss[0]);
    } else {
      RunInv(ops, blocks, ss, es, k - 1);
      StepInv(ops, blocks, ss[k - 1], es[k - 1]);
    }
  }

  /** Whichever thread wins the race for a digest, at every moment the output is what the
      serial encoder writes for the chunks written so far; and the writer has exited exactly if the
      last of these records, and none before, is a chunk whose compressed size is negative as an int. */
  lemma OutputIsSerial(ops: Ops, blocks: seq<Block>, ss: seq<Net>, es: seq<Step>, k: nat)
    requires Sound(ops, blocks) && IsRun(ops, blocks, ss, es) && k < |ss|
    ensures ss[k].written <= |blocks|
    ensures ss[k].out == WriteAll(Records(ops, [], blocks[..ss[k].written]))
    ensures StopsAt(Records(ops, [], blocks[..ss[k].written]), ss[k].exited)
    ensures k < |es| ==> !ss[k].exited
  {
    RunInv(ops, blocks, ss, es, k);
  }

  // Steps still to be made.
  ghost function Undecided(s: Net): set<nat> {
    set i: nat | i < |s.phase| && s.phase[i] == Phase.Fresh
  }

  ghost function Raw(s: Net): set<nat> {
    set i: nat | i < |s.state| && s.state[i] == Uncompressed
  }

  ghost function Away(s: Net): set<nat> {
    set i: nat | i < |s.phase| && i !in s.arrived
  }

  ghost function Measure(s: Net): int {
    |Undecided(s)| + |Raw(s)| + |Away(s)| + (|s.phase| - s.written)
  }

  lemma DedupShrinks(ops: Ops, blocks: seq<Block>, s: Net, i: nat)
    requires Sized(blocks, s) && Enabled(ops, blocks, s, Dedup(i))
    ensures Measure(Do(ops, blocks, s, Dedup(i))) == Measure(s) - 1
  {
    var s' := Do(ops, blocks, s, Dedup(i));
    assert i in Undecided(s) && Undecided(s') == Undecided(s) - {i};
    assert Raw(s') == Raw(s) && Away(s') == Away(s);
  }

  lemma CompressShrinks(ops: Ops, blocks: seq<Block>, s: Net, i: nat)
    requires Sized(blocks, s) && Enabled(ops, blocks, s, Compress(i))
    ensures Measure(Do(ops, blocks, s, Compress(i))) == Measure(s) - 1
  {
    assert i in Raw(s) && Raw(Do(ops, blocks, s, Compress(i))) == Raw(s) - {i};
  }

  lemma ArriveShrinks(ops: Ops, blocks: seq<Block>, s: Net, i: nat)
    requires Sized(blocks, s) && Enabled(ops, blocks, s, Arrive(i))
    ensures Measure(Do(ops, blocks, s, Arrive(i))) == Measure(s) - 1
  {
    assert i in Away(s) && Away(Do(ops, blocks, s, Arrive(i))) == Away(s) - {i};
  }

  lemma WriteShrinks(ops: Ops, blocks: seq<Block>, s: Net)
    requires Sized(blocks, s) && Enabled(ops, blocks, s, Write)
    ensures Measure(Do(ops, blocks, s, Write)) == Measure(s) - 1
  {
    assert Raw(Do(ops, blocks, s, Write)) == Raw(s);
  }

  lemma MeasureStep(ops: Ops, blocks: seq<Block>, s: Net, e: Step)
    requires Sized(blocks, s) && Enabled(ops, blocks, s, e)
    ensures Measure(Do(ops, blocks, s, e)) == Measure(s) - 1
  {
    match e
    case Dedup(i) => DedupShrinks(ops, blocks, s, i);
    case Compress(i) => CompressShrinks(ops, blocks, s, i);
    case Arrive(i) => ArriveShrinks(ops, blocks, s, i);
    case Write => WriteShrinks(ops, blocks, s);
  }

  // Until everything is written, or writing has failed, some step is enabled.
  lemma Progress(ops: Ops, blocks: seq<Block>, s: Net) returns (e: Step)
    requires Sound(ops, blocks) && Inv(ops, blocks, s) && s.written < |blocks| && !s.exited
    ensures Enabled(ops, blocks, s, e)
  {
    var n := s.written;
    assert ChunkInv(ops, blocks, s, n);
    if s.phase[n] == Phase.Fresh {
      e := Dedup(n);
    } else {
      var t := Target(s, n);
      assert ChunkInv(ops, blocks, s, t);
      e := if s.state[t] == Uncompressed then Compress(t) else if n !in s.arrived then Arrive(n) else Write;
    }
  }

  ghost predicate Stuck(ops: Ops, blocks: seq<Block>, s: Net)
    requires Sized(blocks, s)
  {
    forall e :: !Enabled(ops, blocks, s, e)
  }

  lemma Stopped(ops: Ops, blocks: seq<Block>, s: Net)
    requires Sound(ops, blocks) && Inv(ops, blocks, s) && Stuck(ops, blocks, s)
    ensures s.exited || s.written == |blocks|
    ensures DecodeFrom(ops, s.out, map[]) == Ok(Concat(blocks)) <==> AllFit(ops, blocks)
  {
    if s.written < |blocks| && !s.exited {
      var e := Progress(ops, blocks, s);
    }
    RoundTrip(ops, blocks[..s.written]);
    if s.exited { ExitedUnfit(ops, blocks, s); }
    if s.written == |blocks| { assert blocks[..s.written] == blocks; }
  }

  /** Every run ends, and when no step is left the output decodes to the original bytes if and
      only if all chunks fit. */
  lemma ParallelRoundTrip(ops: Ops, blocks: seq<Block>, ss: seq<Net>, es: seq<Step>)
    requires Sound(ops, blocks) && IsRun(ops, blocks, ss, es)
    ensures Inv(ops, blocks, ss[|es|])
    ensures Stuck(ops, blocks, ss[|es|]) ==>
      (DecodeFrom(ops, ss[|es|].out, map[]) == Ok(Concat(blocks)) <==> AllFit(ops, blocks))
    ensures |es| <= Measure(ss[0]) && (Stuck(ops, blocks, ss[|es|]) && !ss[|es|].exited ==> ss[|es|].written == |blocks|)
  {
    RunInv(ops, blocks, ss, es, |es|);
    if Stuck(ops, blocks, ss[|es|]) { Stopped(ops, blocks, ss[|es|]); }
    RunBound(ops, blocks, ss, es, |es|);
  }

  lemma {:induction false} RunBound(ops: Ops, blocks: seq<Block>, ss: seq<Net>, es: seq<Step>, k: nat)
    requires IsRun(ops, blocks, ss, es) && k < |ss|
    ensures Measure(ss[k]) == Measure(ss[0]) - k
  {
    if k > 0 {
      RunBound(ops, blocks, ss, es, k - 1);
      MeasureStep(ops, blocks, ss[k - 1], es[k - 1]);
    }
  }
}

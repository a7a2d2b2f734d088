/** The parallel encoder from the file to the output: the fragmenting stages, the order that
    Reorder restores, and deduplication, compression and writing. */
module ParallelEncoder {
  import opened Bytes
  import opened Chunking
  import opened Sequences
  import opened DedupRecords
  import opened DedupCodec
  import opened ReorderOrder
  import Reorder
  import DedupParallel

  /** However the file was fragmented and whatever the schedule: when no step is left, the
      output decodes to the file if and only if all chunks fit. */
  lemma ParallelFileRoundTrip(ops: Ops, m: seq<byte> -> bool, jump: nat, file: Block, maxbuf: nat,
                              anchors: seq<Anchor<byte>>, layout: Layout<byte>,
                              ss: seq<DedupParallel.Net>, es: seq<DedupParallel.Step>)
    requires Cutter(Fine(m)) && Cutter(Coarse(m, jump))
    requires Fragmented(m, jump, file, maxbuf, anchors) && Reorder.Rows(m, anchors, layout)
    requires Sound(ops, ChunkData(Concat(layout)))
    requires DedupParallel.IsRun(ops, ChunkData(Concat(layout)), ss, es)
    ensures |es| <= DedupParallel.Measure(ss[0])
    ensures DedupParallel.Inv(ops, ChunkData(Concat(layout)), ss[|es|])
    ensures DedupParallel.Stuck(ops, ChunkData(Concat(layout)), ss[|es|]) ==>
      (DecodeFrom(ops, ss[|es|].out, map[]) == Ok(file) <==> AllFit(ops, ChunkData(Concat(layout))))
  {
    Reorder.FragmentsReorder(m, jump, file, maxbuf, anchors, layout);
    DedupParallel.ParallelRoundTrip(ops, ChunkData(Concat(layout)), ss, es);
  }

  // The chunks that have got to the writer are those that the stage Reorder has accepted.
  ghost predicate SameArrivals(stage: Reorder.Stage<byte>, s: DedupParallel.Net)
    reads stage
  {
    s.arrived == Places(stage.layout, stage.arrived)
  }

  // The chunks put out, as data, are a prefix of all, and the first place at which nothing has
  // arrived is the one behind them.
  ghost predicate PutOut(blocks: seq<Block>, out: seq<Chunk<byte>>, arrived: set<nat>) {
    && |out| <= |blocks| && ChunkData(out) == blocks[..|out|]
    && (forall i: nat :: i < |out| ==> i in arrived) && |out| !in arrived
  }

  lemma StagePutsOut(stage: Reorder.Stage<byte>)
    requires stage.Valid() && stage.next !in stage.arrived
    ensures PutOut(ChunkData(Concat(stage.layout)), stage.out, Places(stage.layout, stage.arrived))
  {
    BeforePrefix(stage.layout, stage.next);
    FirstMissing(stage.layout, stage.arrived, stage.next);
  }

  lemma DataPrefix(out: seq<Chunk<byte>>, blocks: seq<Block>, k: nat)
    requires k <= |out| <= |blocks| && ChunkData(out) == blocks[..|out|]
    ensures ChunkData(out[..k]) == blocks[..k]
  {
    assert ChunkData(out)[..k] == blocks[..k];
  }

  lemma PutOutWrites(ops: Ops, blocks: seq<Block>, out: seq<Chunk<byte>>, s: DedupParallel.Net)
    requires PutOut(blocks, out, s.arrived) && DedupParallel.Inv(ops, blocks, s)
    ensures s.written <= |out| && (s.written in s.arrived <==> s.written < |out|)
    ensures s.out == WriteAll(Records(ops, [], ChunkData(out[..s.written])))
  {
    assert s.written > |out| ==> |out| in s.arrived;
    DataPrefix(out, blocks, s.written);
  }

  /** The stage Reorder decides the order of the writes: whatever has arrived in whatever order,
      the writer is behind or level with what the stage has put out, the arrival it waits for is
      there exactly while it is behind, it then writes the data of the next chunk put out, and
      at any time its output is that of the chunks put out so far that it has written. */
  lemma ReorderOrdersWrites(ops: Ops, stage: Reorder.Stage<byte>, s: DedupParallel.Net)
    requires stage.Valid() && stage.next !in stage.arrived && SameArrivals(stage, s)
    requires DedupParallel.Inv(ops, ChunkData(Concat(stage.layout)), s)
    ensures s.written <= |stage.out| <= |Concat(stage.layout)|
    ensures s.written in s.arrived <==> s.written < |stage.out|
    ensures s.written < |stage.out| ==> ChunkData(Concat(stage.layout))[s.written] == stage.out[s.written].data
    ensures s.out == WriteAll(Records(ops, [], ChunkData(stage.out[..s.written])))
  {
    StagePutsOut(stage);
    PutOutWrites(ops, ChunkData(Concat(stage.layout)), stage.out, s);
    if s.written < |stage.out| {
      assert ChunkData(stage.out)[s.written] == ChunkData(Concat(stage.layout))[..|stage.out|][s.written];
    }
  }
}

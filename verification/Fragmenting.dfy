/** The two fragmenting stages of the parallel encoder: Fragment and FragmentRefine of
    samples/dedup/encoder.c. */
module Fragmenting {
  import opened Wrappers
  import opened Bytes
  import opened Chunking
  import opened Rabin
  import opened FileSegments
  import opened Sequences

  type Piece = seq<byte>

  // What has been put out is numbered in order, what is held has the next number.
  ghost predicate Split(fits: bool, m: Piece -> bool, jump: nat, maxbuf: nat, input: Piece, out: seq<Anchor<byte>>,
                        held: Anchor<byte>, rest: Piece)
    requires Cutter(Coarse(m, jump))
  {
    && Running(fits, Coarse(m, jump), input, AnchorData(out), held.data, rest)
    && OnTrack(CutUp(m, jump, maxbuf, [], input), m, jump, maxbuf, AnchorData(out), held.data, rest)
    && Numbered(out) && held.l1 == |out|
  }

  lemma SplitPass(fits: bool, m: Piece -> bool, jump: nat, maxbuf: nat, input: Piece, out: seq<Anchor<byte>>,
                  held: Anchor<byte>, rest: Piece, d: Decision)
    requires NotEmpty(m) && Cutter(Coarse(m, jump)) && Split(fits, m, jump, maxbuf, input, out, held, rest)
    requires held.data != [] && d == Decide(m, jump, held.data) && (fits ==> |held.data| < INT_BOUND)
    ensures fits ==> d != Fails && (d == NoEnd ==> Coarse(m, jump)(held.data) == |held.data|)
    ensures d.Fails? ==> CutUp(m, jump, maxbuf, [], input) == Cutting(AnchorData(out), held.data + rest)
    ensures d.End? ==> Split(fits, m, jump, maxbuf, input, out + [Anchor(held.data[..d.o], held.l1)],
                             Anchor(held.data[d.o..], held.l1 + 1), rest)
  {
    OnTrackPass(CutUp(m, jump, maxbuf, [], input), m, jump, maxbuf, AnchorData(out), held.data, rest, d);
    RunningPass(fits, m, jump, input, AnchorData(out), held.data, rest, d);
    if d.End? { AnchorDataNext(out, Anchor(held.data[..d.o], held.l1)); }
  }

  // The do loop of Fragment; the number of the buffer has just been drawn.
  method SplitCoarse(out0: seq<Anchor<byte>>, buffer: Anchor<byte>, anchorcount0: nat, jump: nat, ghost winlen: int,
                     rabintab: array<bv32>, rabinwintab: array<bv32>, ghost fits: bool, ghost input: Piece, ghost maxbuf: nat,
                     ghost rest: Piece)
    returns (ok: bool, out: seq<Anchor<byte>>, temp: Anchor<byte>, anchorcount: nat)
    requires Ready(winlen, rabintab, rabinwintab) && buffer.data != [] && anchorcount0 == buffer.l1 + 1
    requires NotEmpty(FileMatcher(winlen)) && Cutter(Coarse(FileMatcher(winlen), jump))
    requires Split(fits, FileMatcher(winlen), jump, maxbuf, input, out0, buffer, rest)
    requires fits ==> |buffer.data| < INT_BOUND
    ensures fits ==> ok
    ensures !ok ==> Decide(FileMatcher(winlen), jump, temp.data) == Fails
    ensures Running(fits, Coarse(FileMatcher(winlen), jump), input, AnchorData(out), temp.data, rest)
    ensures ok ==> Split(fits, FileMatcher(winlen), jump, maxbuf, input, out, temp, rest) && temp.data != []
    ensures ok ==> Decide(FileMatcher(winlen), jump, temp.data) == NoEnd
    ensures !ok ==> CutUp(FileMatcher(winlen), jump, maxbuf, [], input) == Cutting(AnchorData(out), temp.data + rest)
    ensures ok && fits ==> Coarse(FileMatcher(winlen), jump)(temp.data) == |temp.data|
    ensures anchorcount == temp.l1 + 1 && temp.data != []
  {
    ghost var m := FileMatcher(winlen);
    var chunk, split := buffer, true;
    ok, out, temp, anchorcount := true, out0, buffer, anchorcount0;
    while split
      invariant ok && chunk.data != [] && Split(fits, m, jump, maxbuf, input, out, chunk, rest)
      invariant fits ==> |chunk.data| < INT_BOUND
      invariant anchorcount == chunk.l1 + 1
      invariant !split ==> temp == chunk && Decide(m, jump, temp.data) == NoEnd
      invariant !split ==> (fits ==> Coarse(m, jump)(temp.data) == |temp.data|)
      decreases split, |chunk.data|
    {
      split := false;
      var end := NextEnd(chunk.data, jump, winlen, rabintab, rabinwintab);
      SplitPass(fits, m, jump, maxbuf, input, out, chunk, rest, end);
      match end
      case Fails =>
        ok, temp := false, chunk;
        return;
      case End(offset) =>
        out := out + [Anchor(chunk.data[..offset], chunk.l1)];
        chunk := Anchor(chunk.data[offset..], anchorcount);
        anchorcount := anchorcount + 1;
        split := true;
      case NoEnd =>
        temp := chunk;
    }
  }

  // Before the next block is read; no data is carried over when temp.data is empty.
  ghost predicate Between(m: Piece -> bool, jump: nat, input: Piece, maxbuf: nat, out: seq<Anchor<byte>>, temp: Anchor<byte>,
                          anchorcount: nat, rest: Piece)
    requires Cutter(Coarse(m, jump))
  {
    var fits := Short(Coarse(m, jump), input, maxbuf);
    && Running(fits, Coarse(m, jump), input, AnchorData(out), temp.data, rest) && Numbered(out)
    && (if temp.data == [] then anchorcount == |out| else temp.l1 == |out| && anchorcount == |out| + 1)
    && (fits ==> Coarse(m, jump)(temp.data) == |temp.data|)
    && OnTrack(CutUp(m, jump, maxbuf, [], input), m, jump, maxbuf, AnchorData(out), temp.data, rest)
    && NextCut(m, jump, temp.data) == NoEnd
  }

  lemma Start(m: Piece -> bool, jump: nat, input: Piece, maxbuf: nat, temp: Anchor<byte>)
    requires NotEmpty(m) && temp.data == []
    ensures Cutter(Coarse(m, jump)) && Between(m, jump, input, maxbuf, [], temp, 0, input)
  {
    CoarseCuts(m, jump);
    assert temp.data + input == input;
    RunningStart(Short(Coarse(m, jump), input, maxbuf), Coarse(m, jump), input, temp.data, input);
    assert AnchorData<byte>([]) == [];
    OnTrackStart(m, jump, maxbuf, [], input);
    assert temp.data == [];
  }

  // Behind the pieces put out the buffer held what the search cannot be called with.
  ghost predicate FailsOn(m: Piece -> bool, jump: nat, input: Piece, out: seq<Piece>, held: Piece, rest: Piece) {
    input == Concat(out) + (held + rest) && Decide(m, jump, held) == Fails
  }

  // What a run of Fragment guarantees; None when an assertion has failed.
  ghost predicate Ended(m: Piece -> bool, jump: nat, input: Piece, maxbuf: nat, result: Option<seq<Anchor<byte>>>)
    requires Cutter(Coarse(m, jump))
  {
    && (result.Some? ==> Fragmented(m, jump, input, maxbuf, result.value))
    && (Short(Coarse(m, jump), input, maxbuf) ==> result.Some?)
    && (result == None ==> exists out, held, rest :: FailsOn(m, jump, input, out, held, rest))
    && (result == None <==> CutUp(m, jump, maxbuf, [], input).left != [])
  }

  lemma FailsEnded(m: Piece -> bool, jump: nat, input: Piece, maxbuf: nat, out: seq<Anchor<byte>>, temp: Anchor<byte>,
                   rest: Piece)
    requires Cutter(Coarse(m, jump)) && !Short(Coarse(m, jump), input, maxbuf) && temp.data != []
    requires FailsOn(m, jump, input, AnchorData(out), temp.data, rest)
    requires CutUp(m, jump, maxbuf, [], input) == Cutting(AnchorData(out), temp.data + rest)
    ensures Ended(m, jump, input, maxbuf, None)
  {
  }

  lemma Finish(m: Piece -> bool, jump: nat, input: Piece, maxbuf: nat, out: seq<Anchor<byte>>, temp: Anchor<byte>,
               anchorcount: nat)
    requires Cutter(Coarse(m, jump)) && Between(m, jump, input, maxbuf, out, temp, anchorcount, [])
    ensures Ended(m, jump, input, maxbuf, Some(if temp.data == [] then out else out + [temp]))
  {
    OnTrackRead(CutUp(m, jump, maxbuf, [], input), m, jump, maxbuf, AnchorData(out), temp.data, [], 0);
    var fits := Short(Coarse(m, jump), input, maxbuf);
    if temp.data == [] {
      RunningEmpty(fits, Coarse(m, jump), input, AnchorData(out));
    } else {
      RunningLast(fits, Coarse(m, jump), input, AnchorData(out), temp.data);
      AnchorDataNext(out, temp);
    }
  }

  lemma Read(m: Piece -> bool, jump: nat, input: Piece, maxbuf: nat, out: seq<Anchor<byte>>, temp: Anchor<byte>,
             anchorcount: nat, block: Piece, rest: Piece, chunk: Anchor<byte>)
    requires Cutter(Coarse(m, jump)) && Between(m, jump, input, maxbuf, out, temp, anchorcount, block + rest)
    requires 0 < |block| == BlockSize(block + rest, maxbuf) && chunk.data == temp.data + block
    requires chunk.l1 == if temp.data == [] then anchorcount else temp.l1
    ensures Split(Short(Coarse(m, jump), input, maxbuf), m, jump, maxbuf, input, out, chunk, rest)
    ensures Short(Coarse(m, jump), input, maxbuf) ==> |chunk.data| < INT_BOUND
  {
    assert (block + rest)[..|block|] == block && (block + rest)[|block|..] == rest;
    RunningRead(Short(Coarse(m, jump), input, maxbuf), Coarse(m, jump), input, AnchorData(out), temp.data, block + rest,
                |block|, maxbuf);
    OnTrackRead(CutUp(m, jump, maxbuf, [], input), m, jump, maxbuf, AnchorData(out), temp.data, block + rest, |block|);
  }

  // One block, read behind what was carried over.
  method ReadAndSplit(out0: seq<Anchor<byte>>, temp0: Anchor<byte>, anchorcount0: nat, jump: nat, ghost winlen: int,
                      rabintab: array<bv32>, rabinwintab: array<bv32>, ghost input: Piece, ghost maxbuf: nat,
                      block: Piece, ghost rest: Piece)
    returns (ok: bool, out: seq<Anchor<byte>>, temp: Anchor<byte>, anchorcount: nat)
    requires Ready(winlen, rabintab, rabinwintab) && 0 < |block| == BlockSize(block + rest, maxbuf)
    requires NotEmpty(FileMatcher(winlen)) && Cutter(Coarse(FileMatcher(winlen), jump))
    requires Between(FileMatcher(winlen), jump, input, maxbuf, out0, temp0, anchorcount0, block + rest)
    ensures ok ==> Between(FileMatcher(winlen), jump, input, maxbuf, out, temp, anchorcount, rest)
    ensures !ok ==> Ended(FileMatcher(winlen), jump, input, maxbuf, None)
  {
    var chunk := Anchor(temp0.data + block, temp0.l1);
    anchorcount := anchorcount0;
    if temp0.data == [] {
      chunk := chunk.(l1 := anchorcount);
      anchorcount := anchorcount + 1;
    }
    ghost var m := FileMatcher(winlen);
    Read(m, jump, input, maxbuf, out0, temp0, anchorcount0, block, rest, chunk);
    ok, out, temp, anchorcount := SplitCoarse(out0, chunk, anchorcount, jump, winlen, rabintab, rabinwintab,
                                              Short(Coarse(m, jump), input, maxbuf), input, maxbuf, rest);
    if !ok { FailsEnded(m, jump, input, maxbuf, out, temp, rest); }
  }

  /** Whatever the block size, the coarse pieces are the input, numbered in order without a
      gap; None only when an assertion fails on what is held, which the lengths of type int make possible. */
  method Fragment(input: Piece, jump: nat, maxbuf: nat, ghost winlen: int, rabintab: array<bv32>, rabinwintab: array<bv32>)
    returns (result: Option<seq<Anchor<byte>>>)
    requires Ready(winlen, rabintab, rabinwintab) && maxbuf > 0
    ensures Cutter(Coarse(FileMatcher(winlen), jump))
    ensures Ended(FileMatcher(winlen), jump, input, maxbuf, result)
  {
    var temp, rest := Anchor([], 0), input;
    var anchorcount, out: seq<Anchor<byte>> := 0, [];
    FileNotEmpty(winlen);
    Start(FileMatcher(winlen), jump, input, maxbuf, temp);
    while true
      invariant Between(FileMatcher(winlen), jump, input, maxbuf, out, temp, anchorcount, rest)
      decreases |rest|
    {
      var bytesRead := ReadBlock(rest, maxbuf);
      if bytesRead == 0 {
        Finish(FileMatcher(winlen), jump, input, maxbuf, out, temp, anchorcount);
        if temp.data != [] { out := out + [temp]; }
        return Some(out);
      }
      var block := rest[..bytesRead];
      TakeDrop(rest, bytesRead);
      rest := rest[bytesRead..];
      var ok;
      ok, out, temp, anchorcount := ReadAndSplit(out, temp, anchorcount, jump, winlen, rabintab, rabinwintab, input, maxbuf,
                                                 block, rest);
      if !ok { return None; }
    }
  }

  /* ---------- FragmentRefine ---------- */

  // The chunks put out so far have the numbers from 0 on, none of them marked as the last.
  ghost predicate Refining(m: Piece -> bool, anchor: Anchor<byte>, out: seq<Chunk<byte>>, chunk: Piece)
    requires Cutter(Fine(m))
  {
    && Running(|anchor.data| < INT_BOUND, Fine(m), anchor.data, ChunkData(out), chunk, [])
    && OnTrack(CutUp(m, 0, 0, anchor.data, []), m, 0, 0, ChunkData(out), chunk, [])
    && chunk != [] && |chunk| <= |anchor.data|
    && forall i :: 0 <= i < |out| ==> out[i].l1 == anchor.l1 && out[i].l2 == i && !out[i].lastL2
  }

  lemma RefineStart(m: Piece -> bool, anchor: Anchor<byte>)
    requires NotEmpty(m) && anchor.data != []
    ensures Cutter(Fine(m)) && Refining(m, anchor, [], anchor.data)
  {
    CoarseCuts(m, 0);
    assert anchor.data + [] == anchor.data;
    RunningStart(|anchor.data| < INT_BOUND, Fine(m), anchor.data, anchor.data, []);
    assert ChunkData<byte>([]) == [];
    OnTrackStart(m, 0, 0, anchor.data, []);
  }

  lemma RefineCut(m: Piece -> bool, anchor: Anchor<byte>, out: seq<Chunk<byte>>, chunk: Piece, o: nat)
    requires NotEmpty(m) && Cutter(Fine(m)) && Refining(m, anchor, out, chunk) && Decide(m, 0, chunk) == End(o)
    ensures Refining(m, anchor, out + [Chunk(chunk[..o], anchor.l1, |out|, false)], chunk[o..])
  {
    RunningPass(|anchor.data| < INT_BOUND, m, 0, anchor.data, ChunkData(out), chunk, [], End(o));
    OnTrackPass(CutUp(m, 0, 0, anchor.data, []), m, 0, 0, ChunkData(out), chunk, [], End(o));
    ChunkDataNext(out, Chunk(chunk[..o], anchor.l1, |out|, false));
  }

  lemma RefineLast(m: Piece -> bool, anchor: Anchor<byte>, out: seq<Chunk<byte>>, chunk: Piece)
    requires NotEmpty(m) && Cutter(Fine(m)) && Refining(m, anchor, out, chunk) && Decide(m, 0, chunk) == NoEnd
    ensures Refines(m, anchor, out + [Chunk(chunk, anchor.l1, |out|, true)])
  {
    var fits := |anchor.data| < INT_BOUND;
    RunningPass(fits, m, 0, anchor.data, ChunkData(out), chunk, [], NoEnd);
    OnTrackRead(CutUp(m, 0, 0, anchor.data, []), m, 0, 0, ChunkData(out), chunk, [], 0);
    RunningLast(fits, Fine(m), anchor.data, ChunkData(out), chunk);
    ChunkDataNext(out, Chunk(chunk, anchor.l1, |out|, true));
  }

  lemma RefineFails(m: Piece -> bool, anchor: Anchor<byte>, out: seq<Chunk<byte>>, chunk: Piece)
    requires NotEmpty(m) && Cutter(Fine(m)) && Refining(m, anchor, out, chunk) && Decide(m, 0, chunk) == Fails
    ensures |anchor.data| >= INT_BOUND && CutUp(m, 0, 0, anchor.data, []) == Cutting(ChunkData(out), chunk)
    ensures FailsOn(m, 0, anchor.data, ChunkData(out), chunk, [])
  {
    RunningPass(|anchor.data| < INT_BOUND, m, 0, anchor.data, ChunkData(out), chunk, [], Fails);
    OnTrackPass(CutUp(m, 0, 0, anchor.data, []), m, 0, 0, ChunkData(out), chunk, [], Fails);
    assert chunk + [] == chunk;
  }

  /** The chunks of one coarse piece, numbered from 0, exactly the last one marked. */
  method FragmentRefine(anchor: Anchor<byte>, ghost winlen: int, rabintab: array<bv32>, rabinwintab: array<bv32>)
    returns (result: Option<seq<Chunk<byte>>>)
    requires Ready(winlen, rabintab, rabinwintab) && anchor.data != []
    ensures Cutter(Fine(FileMatcher(winlen)))
    ensures result.Some? ==> Refines(FileMatcher(winlen), anchor, result.value)
    ensures |anchor.data| < INT_BOUND ==> result.Some?
    ensures result == None ==> exists out, held :: FailsOn(FileMatcher(winlen), 0, anchor.data, out, held, [])
    ensures result == None <==> CutUp(FileMatcher(winlen), 0, 0, anchor.data, []).left != []
  {
    ghost var m := FileMatcher(winlen);
    FileNotEmpty(winlen);
    RefineStart(m, anchor);
    var chunk, chcount, out: seq<Chunk<byte>> := anchor.data, 0, [];
    while true
      invariant Refining(m, anchor, out, chunk) && chcount == |out|
      decreases |chunk|
    {
      var end := NextEnd(chunk, 0, winlen, rabintab, rabinwintab);
      match end {
        case Fails =>
          RefineFails(m, anchor, out, chunk);
          return None;
        case End(offset) =>
          RefineCut(m, anchor, out, chunk, offset);
          out := out + [Chunk(chunk[..offset], anchor.l1, chcount, false)];
          chunk := chunk[offset..];
        case NoEnd =>
          RefineLast(m, anchor, out, chunk);
          out := out + [Chunk(chunk, anchor.l1, chcount, true)];
          return Some(out);
      }
      chcount := chcount + 1;
    }
  }
}

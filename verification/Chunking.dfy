/** How the dedup encoder splits its input (samples/dedup/encoder.c): read blocks of bounded
    size, cut off segments, and carry the rest over to the next block. */
module Chunking {
  import opened Bytes
  import opened Segments
  import opened Sequences

  // cut(p) is the length of the first piece of p when p is all that has been read so far.
  ghost predicate Cutter<T(!new)>(cut: seq<T> -> nat) {
    forall p :: CutsAt(cut, p)
  }

  ghost predicate CutsAt<T(!new)>(cut: seq<T> -> nat, p: seq<T>) {
    && cut(p) <= |p|
    && (p != [] ==> cut(p) > 0)
    && (forall q :: cut(p) <= cut(p + q))
    && (cut(p) < |p| ==> forall q :: cut(p + q) == cut(p))
  }

  ghost predicate NotEmpty<T>(m: seq<T> -> bool) {
    !m([])
  }

  // The first stage looks for an end only beyond the first `jump` elements.
  function Coarse<T>(m: seq<T> -> bool, jump: nat): seq<T> -> nat {
    p => if jump < |p| then Seg(m, p[jump..]) + jump else |p|
  }

  function Fine<T>(m: seq<T> -> bool): seq<T> -> nat {
    Coarse(m, 0)
  }

  /** A piece is never empty and is decided by what it contains. */
  lemma CoarseCuts<T(!new)>(m: seq<T> -> bool, jump: nat)
    requires NotEmpty(m)
    ensures Cutter(Coarse(m, jump))
  {
    forall p ensures CutsAt(Coarse(m, jump), p) {
      CoarseCutsAt(m, jump, p);
    }
  }

  lemma CoarseCutsAt<T(!new)>(m: seq<T> -> bool, jump: nat, p: seq<T>)
    requires NotEmpty(m)
    ensures CutsAt(Coarse(m, jump), p)
  {
    var cut := Coarse(m, jump);
    if jump < |p| { assert p[jump..][..0] == []; }
    forall q ensures cut(p) <= cut(p + q) && (cut(p) < |p| ==> cut(p + q) == cut(p)) {
      if jump < |p| {
        assert (p + q)[jump..] == p[jump..] + q;
        FirstGrows(m, p[jump..], q, 0);
        if cut(p) < |p| { FirstExtends(m, p[jump..], q, 0); }
      }
    }
  }

  // The whole input cut in one go.
  ghost function Pieces<T(!new)>(cut: seq<T> -> nat, p: seq<T>): seq<seq<T>>
    requires Cutter(cut)
  {
    if p == [] then [] else
      assert CutsAt(cut, p);
      [p[..cut(p)]] + Pieces(cut, p[cut(p)..])
  }

  /** The pieces, in order, are the input; none is empty. */
  lemma {:induction false} PiecesConcat<T(!new)>(cut: seq<T> -> nat, p: seq<T>)
    requires Cutter(cut)
    ensures Concat(Pieces(cut, p)) == p
    ensures forall i :: 0 <= i < |Pieces(cut, p)| ==> Pieces(cut, p)[i] != []
    decreases p
  {
    if p != [] {
      assert CutsAt(cut, p);
      PiecesConcat(cut, p[cut(p)..]);
      assert p[..cut(p)] + p[cut(p)..] == p;
    }
  }

  // A piece found in what has been read is a piece of the whole.
  lemma PiecesExtend<T(!new)>(cut: seq<T> -> nat, p: seq<T>, q: seq<T>)
    requires Cutter(cut) && cut(p) < |p|
    ensures Pieces(cut, p + q) == [p[..cut(p)]] + Pieces(cut, p[cut(p)..] + q)
  {
    assert CutsAt(cut, p);
    var n := cut(p);
    assert (p + q)[..n] == p[..n] && (p + q)[n..] == p[n..] + q;
  }

  lemma OnePiece<T(!new)>(m: seq<T> -> bool, p: seq<T>)
    requires NotEmpty(m) && p != [] && Seg(m, p) == |p|
    ensures Cutter(Fine(m)) && Pieces(Fine(m), p) == [p]
  {
    CoarseCuts(m, 0);
    assert p[0..] == p && p[..|p|] == p && Pieces(Fine(m), p[|p|..]) == [];
  }

  // What a run has put out and what it still holds or will read make up the one-shot pieces.
  ghost predicate Progress<T(!new)>(cut: seq<T> -> nat, all: seq<seq<T>>, out: seq<seq<T>>, held: seq<T>, rest: seq<T>)
    requires Cutter(cut)
  {
    out + Pieces(cut, held + rest) == all
  }

  lemma ProgressCut<T(!new)>(cut: seq<T> -> nat, all: seq<seq<T>>, out: seq<seq<T>>, held: seq<T>, rest: seq<T>)
    requires Cutter(cut) && Progress(cut, all, out, held, rest) && cut(held) < |held|
    ensures Progress(cut, all, out + [held[..cut(held)]], held[cut(held)..], rest)
  {
    PiecesExtend(cut, held, rest);
  }

  // At the end of the input what is held is the last piece.
  lemma ProgressEnd<T(!new)>(cut: seq<T> -> nat, all: seq<seq<T>>, out: seq<seq<T>>, held: seq<T>)
    requires Cutter(cut) && Progress(cut, all, out, held, []) && held != [] && cut(held) == |held|
    ensures all == out + [held]
  {
    assert held + [] == held;
    assert held[..|held|] == held && Pieces(cut, held[|held|..]) == [];
    assert Pieces(cut, held) == [held] + Pieces(cut, held[|held|..]);
  }

  /* ---------- one pass of the splitting loops, where lengths and offsets are of type int ---------- */

  // What rabinseg returns for p.
  function SegInt<T>(m: seq<T> -> bool, p: seq<T>): int {
    var n := AsInt(|p|);
    if n < 0 then n else Seg(m, p[..n])
  }

  // An end after o elements, no end, or a failing assertion.
  datatype Decision = End(o: nat) | NoEnd | Fails

  function Decide<T>(m: seq<T> -> bool, jump: nat, p: seq<T>): (d: Decision)
    ensures d.End? ==> 0 < d.o < |p|
  {
    if |p| <= jump then NoEnd
    else
      var offset := SegInt(m, p[jump..]);
      var o := AsInt(offset + jump);
      // asserted by the stage, and by mbuffer_split
      if offset == 0 || o == 0 then Fails
      else if 0 < o < |p| then End(o) else NoEnd
  }

  /** Below 2^31 elements the decision is the one-shot cut. */
  lemma DecideIs<T(!new)>(m: seq<T> -> bool, jump: nat, p: seq<T>)
    requires NotEmpty(m) && p != [] && |p| < INT_BOUND
    ensures var n := Coarse(m, jump)(p); Decide(m, jump, p) == if n < |p| then End(n) else NoEnd
  {
    if jump < |p| {
      var q := p[jump..];
      assert q[..|q|] == q && q[..0] == [];
    }
  }

  /** A buffer of 2^32 bytes: the search sees the length 0, and the assertion fails. */
  lemma FourGigabyteBuffer<T>(m: seq<T> -> bool, p: seq<T>)
    requires |p| == TWO_32
    ensures Decide(m, 0, p) == Fails
  {
    assert p[0..] == p;
  }

  // The length of what is searched, as the search sees it, and where it says that an end is.
  function SeenEnd<T>(m: seq<T> -> bool, p: seq<T>): nat {
    var r := |p| % 0x1_0000_0000;
    if r < 0x8000_0000 then Seg(m, p[..r]) else r
  }

  lemma SeenIs<T>(m: seq<T> -> bool, q: seq<T>)
    requires NotEmpty(m)
    ensures SegInt(m, q) == SeenEnd(m, q) || SegInt(m, q) == SeenEnd(m, q) - 0x1_0000_0000
    ensures SegInt(m, q) == 0 <==> |q| % 0x1_0000_0000 == 0
  {
    var r := |q| % 0x1_0000_0000;
    if 0 < r < 0x8000_0000 { assert q[..r][..0] == []; }
  }

  // As an int, a sum that may have wrapped around.
  lemma WrappedSum(x: int, y: int, jump: int)
    requires x == y || x == y - 0x1_0000_0000
    ensures var o := (y + jump) % 0x1_0000_0000; AsInt(x + jump) == if o < 0x8000_0000 then o else o - 0x1_0000_0000
  {
    assert (x + jump) % 0x1_0000_0000 == (y + jump) % 0x1_0000_0000;
  }

  /** Any buffer that is longer than the jump, with all lengths modulo 2^32: the assertion fails when
      nothing seems to be left to search, or the end seems to be at 0; from 2^31 on an end is no end;
      and any other end cuts, unless the buffer is not longer than that. */
  lemma DecideByLength<T>(m: seq<T> -> bool, jump: nat, p: seq<T>)
    requires NotEmpty(m) && jump < |p|
    ensures var o := (SeenEnd(m, p[jump..]) + jump) % 0x1_0000_0000;
      Decide(m, jump, p) ==
        if (|p| - jump) % 0x1_0000_0000 == 0 || o == 0 then Fails
        else if o < 0x8000_0000 && o < |p| then End(o) else NoEnd
  {
    var q := p[jump..];
    SeenIs(m, q);
    WrappedSum(SegInt(m, q), SeenEnd(m, q), jump);
  }

  /* ---------- whole runs ---------- */

  // What a run has put out, what it holds and what it has yet to read are the input.  While
  // lengths fit an int it also has cut where the one-shot pieces end.
  ghost predicate Running<T(!new)>(fits: bool, cut: seq<T> -> nat, input: seq<T>, out: seq<seq<T>>, held: seq<T>,
                                   rest: seq<T>)
    requires Cutter(cut)
  {
    && Concat(out) + (held + rest) == input
    && [] !in out
    && (fits ==> Progress(cut, Pieces(cut, input), out, held, rest))
  }

  lemma RunningStart<T(!new)>(fits: bool, cut: seq<T> -> nat, input: seq<T>, held: seq<T>, rest: seq<T>)
    requires Cutter(cut) && held + rest == input
    ensures Running(fits, cut, input, [], held, rest)
  {
    var none: seq<seq<T>> := [];
    assert none + Pieces(cut, input) == Pieces(cut, input);
    assert Concat(none) + input == input;
  }

  lemma RunningCut<T(!new)>(fits: bool, cut: seq<T> -> nat, input: seq<T>, out: seq<seq<T>>, held: seq<T>, rest: seq<T>,
                            o: nat)
    requires Cutter(cut) && Running(fits, cut, input, out, held, rest)
    requires 0 < o < |held| && (fits ==> cut(held) == o)
    ensures Running(fits, cut, input, out + [held[..o]], held[o..], rest)
  {
    if fits { ProgressCut(cut, Pieces(cut, input), out, held, rest); }
    ConcatNext(out, held[..o]);
    assert held + rest == held[..o] + (held[o..] + rest);
    Associate(Concat(out), held[..o], held[o..] + rest);
  }

  // A pass of the splitting loops.
  lemma RunningPass<T(!new)>(fits: bool, m: seq<T> -> bool, jump: nat, input: seq<T>, out: seq<seq<T>>, held: seq<T>,
                             rest: seq<T>, d: Decision)
    requires NotEmpty(m) && Cutter(Coarse(m, jump)) && Running(fits, Coarse(m, jump), input, out, held, rest)
    requires held != [] && d == Decide(m, jump, held) && (fits ==> |held| < INT_BOUND)
    ensures fits ==> d != Fails && (d == NoEnd ==> Coarse(m, jump)(held) == |held|)
    ensures d.End? ==> Running(fits, Coarse(m, jump), input, out + [held[..d.o]], held[d.o..], rest)
  {
    if fits { DecideIs(m, jump, held); }
    if d.End? { RunningCut(fits, Coarse(m, jump), input, out, held, rest, d.o); }
  }

  // Every one-shot piece leaves room for another block below 2^31 elements.
  ghost predicate Short<T(!new)>(cut: seq<T> -> nat, input: seq<T>, maxbuf: nat)
    requires Cutter(cut)
  {
    forall c :: c in Pieces(cut, input) ==> |c| + maxbuf < INT_BOUND
  }

  lemma RunningRead<T(!new)>(fits: bool, cut: seq<T> -> nat, input: seq<T>, out: seq<seq<T>>, held: seq<T>, rest: seq<T>,
                             n: nat, maxbuf: nat)
    requires Cutter(cut) && Running(fits, cut, input, out, held, rest) && n <= |rest| && n <= maxbuf
    requires fits ==> Short(cut, input, maxbuf) && cut(held) == |held|
    ensures Running(fits, cut, input, out, held + rest[..n], rest[n..])
    ensures fits ==> |held + rest[..n]| < INT_BOUND
  {
    assert (held + rest[..n]) + rest[n..] == held + rest;
    if fits && held + rest != [] {
      assert CutsAt(cut, held) && CutsAt(cut, held + rest);
      var first := (held + rest)[..cut(held + rest)];
      assert Pieces(cut, held + rest)[0] == first;
      assert Pieces(cut, input)[|out|] == first;
    }
  }

  // What has been put out when the input has ended.
  ghost predicate Finished<T(!new)>(fits: bool, cut: seq<T> -> nat, input: seq<T>, out: seq<seq<T>>)
    requires Cutter(cut)
  {
    && Concat(out) == input && [] !in out
    && (fits ==> out == Pieces(cut, input))
  }

  lemma RunningEmpty<T(!new)>(fits: bool, cut: seq<T> -> nat, input: seq<T>, out: seq<seq<T>>)
    requires Cutter(cut) && Running(fits, cut, input, out, [], [])
    ensures Finished(fits, cut, input, out)
  {
    var none: seq<T> := [];
    assert none + none == none && Concat(out) + none == Concat(out);
    assert Pieces(cut, none) == [] && out + [] == out;
  }

  lemma RunningLast<T(!new)>(fits: bool, cut: seq<T> -> nat, input: seq<T>, out: seq<seq<T>>, held: seq<T>)
    requires Cutter(cut) && Running(fits, cut, input, out, held, []) && held != []
    requires fits ==> cut(held) == |held|
    ensures Finished(fits, cut, input, out + [held])
  {
    if fits { ProgressEnd(cut, Pieces(cut, input), out, held); }
    ConcatNext(out, held);
    assert held + [] == held;
  }

  // The inner read loop: short reads are retried until the buffer is full or the input ends.
  method ReadBlock<T>(rest: seq<T>, maxbuf: nat) returns (bytesRead: nat)
    ensures bytesRead == if maxbuf < |rest| then maxbuf else |rest|
  {
    bytesRead := 0;
    while bytesRead < maxbuf
      invariant bytesRead <= maxbuf && bytesRead <= |rest|
    {
      var left := |rest| - bytesRead;
      if left == 0 { break; }
      var r: nat :| 0 < r <= left && r <= maxbuf - bytesRead by { assert 0 < 1 <= left && 1 <= maxbuf - bytesRead; }
      bytesRead := bytesRead + r;
    }
  }

  /* ---------- runs as functions of the input, for lengths that need not fit an int ---------- */

  // The pieces cut off, and what is left when an assertion fails; nothing is left by a run that ends.
  datatype Cutting<T> = Cutting(out: seq<seq<T>>, left: seq<T>)

  // Whether what is held can be cut; a stage that holds nothing reads first.
  function NextCut<T>(m: seq<T> -> bool, jump: nat, held: seq<T>): (d: Decision)
    ensures d.End? ==> 0 < d.o < |held|
    ensures d.Fails? ==> held != []
  {
    if held == [] then NoEnd else Decide(m, jump, held)
  }

  // The number of elements of the next block.
  function BlockSize<T>(rest: seq<T>, maxbuf: nat): (n: nat)
    ensures n <= |rest| && n <= maxbuf && (n == maxbuf || n == |rest|)
  {
    if maxbuf < |rest| then maxbuf else |rest|
  }

  /** The run of a stage that holds `held` and has yet to read `rest`, in blocks of maxbuf. */
  function CutUp<T>(m: seq<T> -> bool, jump: nat, maxbuf: nat, held: seq<T>, rest: seq<T>): Cutting<T>
    decreases |rest|, |held|
  {
    match NextCut(m, jump, held)
    case Fails => Cutting([], held + rest)
    case End(o) => After([held[..o]], CutUp(m, jump, maxbuf, held[o..], rest))
    case NoEnd =>
      var n := BlockSize(rest, maxbuf);
      if n == 0 then Cutting(if held == [] then [] else [held], [])
      else CutUp(m, jump, maxbuf, held + rest[..n], rest[n..])
  }

  function After<T>(out: seq<seq<T>>, c: Cutting<T>): Cutting<T> {
    Cutting(out + c.out, c.left)
  }

  // A run that has put out `out` goes on to put out `all`.
  ghost predicate OnTrack<T(!new)>(all: Cutting<T>, m: seq<T> -> bool, jump: nat, maxbuf: nat, out: seq<seq<T>>,
                                   held: seq<T>, rest: seq<T>) {
    all == After(out, CutUp(m, jump, maxbuf, held, rest))
  }

  lemma OnTrackStart<T(!new)>(m: seq<T> -> bool, jump: nat, maxbuf: nat, held: seq<T>, rest: seq<T>)
    ensures OnTrack(CutUp(m, jump, maxbuf, held, rest), m, jump, maxbuf, [], held, rest)
  {
    var c := CutUp(m, jump, maxbuf, held, rest);
    assert [] + c.out == c.out;
  }

  lemma OnTrackPass<T(!new)>(all: Cutting<T>, m: seq<T> -> bool, jump: nat, maxbuf: nat, out: seq<seq<T>>, held: seq<T>,
                             rest: seq<T>, d: Decision)
    requires OnTrack(all, m, jump, maxbuf, out, held, rest) && held != [] && d == Decide(m, jump, held)
    ensures d.End? ==> OnTrack(all, m, jump, maxbuf, out + [held[..d.o]], held[d.o..], rest)
    ensures d.Fails? ==> all == Cutting(out, held + rest)
  {
    if d.End? {
      var c := CutUp(m, jump, maxbuf, held[d.o..], rest);
      assert out + ([held[..d.o]] + c.out) == (out + [held[..d.o]]) + c.out;
    } else {
      assert d.Fails? ==> out + [] == out;
    }
  }

  lemma OnTrackRead<T(!new)>(all: Cutting<T>, m: seq<T> -> bool, jump: nat, maxbuf: nat, out: seq<seq<T>>, held: seq<T>,
                             rest: seq<T>, n: nat)
    requires OnTrack(all, m, jump, maxbuf, out, held, rest) && NextCut(m, jump, held) == NoEnd
    requires n == BlockSize(rest, maxbuf)
    ensures n > 0 ==> OnTrack(all, m, jump, maxbuf, out, held + rest[..n], rest[n..])
    ensures n == 0 ==> all == Cutting(if held == [] then out else out + [held], [])
  {
    assert out + [] == out;
  }

  ghost predicate LosesNothing<T>(c: Cutting<T>, data: seq<T>) {
    Concat(c.out) + c.left == data && [] !in c.out
  }

  lemma AfterLosesNothing<T>(p: seq<T>, c: Cutting<T>, data: seq<T>)
    requires p != [] && LosesNothing(c, data)
    ensures LosesNothing(After([p], c), p + data)
  {
    assert ([p] + c.out)[1..] == c.out;
    Associate(p, Concat(c.out), c.left);
  }

  lemma SplitFront<T>(held: seq<T>, rest: seq<T>, o: nat)
    requires o <= |held|
    ensures held[..o] + (held[o..] + rest) == held + rest
  {
  }

  lemma MoveFront<T>(held: seq<T>, rest: seq<T>, n: nat)
    requires n <= |rest|
    ensures (held + rest[..n]) + rest[n..] == held + rest
  {
  }

  lemma LastLosesNothing<T>(held: seq<T>, rest: seq<T>)
    ensures LosesNothing(Cutting([], held + rest), held + rest)
    ensures rest == [] ==> LosesNothing(Cutting(if held == [] then [] else [held], []), held + rest)
  {
    assert Concat<T>([]) + (held + rest) == held + rest;
    assert Concat([held]) == held && held + [] == held;
  }

  /** A run loses nothing: the pieces it has cut off and what a failing assertion leaves are the input. */
  lemma {:induction false} CutUpConcat<T(!new)>(m: seq<T> -> bool, jump: nat, maxbuf: nat, held: seq<T>, rest: seq<T>)
    requires maxbuf > 0
    ensures LosesNothing(CutUp(m, jump, maxbuf, held, rest), held + rest)
    decreases |rest|, |held|
  {
    var d := NextCut(m, jump, held);
    if d.End? {
      CutUpConcat(m, jump, maxbuf, held[d.o..], rest);
      AfterLosesNothing(held[..d.o], CutUp(m, jump, maxbuf, held[d.o..], rest), held[d.o..] + rest);
      SplitFront(held, rest, d.o);
      return;
    }
    var n := BlockSize(rest, maxbuf);
    if d.NoEnd? && n > 0 {
      CutUpConcat(m, jump, maxbuf, held + rest[..n], rest[n..]);
      MoveFront(held, rest, n);
    } else {
      LastLosesNothing(held, rest);
    }
  }

  /** When no one-shot piece comes within a block of 2^31 elements, a run cuts the input into its
      one-shot pieces. */
  lemma CutUpPieces<T(!new)>(m: seq<T> -> bool, jump: nat, maxbuf: nat, input: seq<T>)
    requires NotEmpty(m) && maxbuf > 0
    ensures Cutter(Coarse(m, jump))
    ensures Short(Coarse(m, jump), input, maxbuf) ==>
      CutUp(m, jump, maxbuf, [], input) == Cutting(Pieces(Coarse(m, jump), input), [])
  {
    CoarseCuts(m, jump);
    if Short(Coarse(m, jump), input, maxbuf) {
      assert [] + input == input;
      RunningStart(true, Coarse(m, jump), input, [], input);
      var c := CutUp(m, jump, maxbuf, [], input);
      CutUpRuns(m, jump, maxbuf, input, [], [], input);
      assert [] + c.out == c.out;
    }
  }

  // What a run that holds `held` will put out completes the pieces.
  ghost predicate Completes<T(!new)>(cut: seq<T> -> nat, input: seq<T>, out: seq<seq<T>>, c: Cutting<T>)
    requires Cutter(cut)
  {
    out + c.out == Pieces(cut, input) && c.left == []
  }

  lemma AfterCompletes<T(!new)>(cut: seq<T> -> nat, input: seq<T>, out: seq<seq<T>>, p: seq<T>, c: Cutting<T>)
    requires Cutter(cut) && Completes(cut, input, out + [p], c)
    ensures Completes(cut, input, out, After([p], c))
  {
    assert out + ([p] + c.out) == (out + [p]) + c.out;
  }

  lemma LastCompletes<T(!new)>(cut: seq<T> -> nat, input: seq<T>, out: seq<seq<T>>, held: seq<T>)
    requires Cutter(cut) && Running(true, cut, input, out, held, []) && cut(held) == |held|
    ensures Completes(cut, input, out, Cutting(if held == [] then [] else [held], []))
  {
    if held == [] {
      RunningEmpty(true, cut, input, out);
      assert out + [] == out;
    } else {
      RunningLast(true, cut, input, out, held);
    }
  }

  lemma {:induction false} CutUpRuns<T(!new)>(m: seq<T> -> bool, jump: nat, maxbuf: nat, input: seq<T>, out: seq<seq<T>>,
                                              held: seq<T>, rest: seq<T>)
    requires NotEmpty(m) && maxbuf > 0 && Cutter(Coarse(m, jump)) && Short(Coarse(m, jump), input, maxbuf)
    requires Running(true, Coarse(m, jump), input, out, held, rest) && |held| < INT_BOUND
    ensures Completes(Coarse(m, jump), input, out, CutUp(m, jump, maxbuf, held, rest))
    decreases |rest|, |held|
  {
    var cut, d := Coarse(m, jump), NextCut(m, jump, held);
    assert CutsAt(cut, held);
    if held != [] { RunningPass(true, m, jump, input, out, held, rest, d); }
    if d.End? {
      CutUpRuns(m, jump, maxbuf, input, out + [held[..d.o]], held[d.o..], rest);
      AfterCompletes(cut, input, out, held[..d.o], CutUp(m, jump, maxbuf, held[d.o..], rest));
      return;
    }
    var n := BlockSize(rest, maxbuf);
    if n == 0 {
      LastCompletes(cut, input, out, held);
    } else {
      RunningRead(true, cut, input, out, held, rest, n, maxbuf);
      CutUpRuns(m, jump, maxbuf, input, out, held + rest[..n], rest[n..]);
    }
  }

  /* ---------- coarse pieces, then fine ones ---------- */

  datatype Anchor<T> = Anchor(data: seq<T>, l1: nat)

  datatype Chunk<T> = Chunk(data: seq<T>, l1: nat, l2: nat, lastL2: bool)

  function AnchorData<T>(out: seq<Anchor<T>>): seq<seq<T>> {
    seq(|out|, i requires 0 <= i < |out| => out[i].data)
  }

  ghost predicate Numbered<T>(out: seq<Anchor<T>>) {
    forall i :: 0 <= i < |out| ==> out[i].l1 == i
  }

  lemma AnchorDataNext<T>(out: seq<Anchor<T>>, a: Anchor<T>)
    ensures AnchorData(out + [a]) == AnchorData(out) + [a.data]
  {
  }

  function ChunkData<T>(out: seq<Chunk<T>>): seq<seq<T>> {
    seq(|out|, i requires 0 <= i < |out| => out[i].data)
  }

  lemma ChunkDataNext<T>(out: seq<Chunk<T>>, c: Chunk<T>)
    ensures ChunkData(out + [c]) == ChunkData(out) + [c.data]
  {
  }

  // The coarse pieces, numbered in order without a gap.
  ghost predicate Fragmented<T(!new)>(m: seq<T> -> bool, jump: nat, input: seq<T>, maxbuf: nat, out: seq<Anchor<T>>)
    requires Cutter(Coarse(m, jump))
  {
    && Numbered(out)
    && Finished(Short(Coarse(m, jump), input, maxbuf), Coarse(m, jump), input, AnchorData(out))
    && CutUp(m, jump, maxbuf, [], input) == Cutting(AnchorData(out), [])
  }

  // The chunks of one coarse piece: numbered from 0 without a gap, the last one marked, and
  // cut where its one-shot pieces end while its length fits an int.
  ghost predicate Refines<T(!new)>(m: seq<T> -> bool, anchor: Anchor<T>, out: seq<Chunk<T>>)
    requires Cutter(Fine(m))
  {
    && Finished(|anchor.data| < INT_BOUND, Fine(m), anchor.data, ChunkData(out))
    && CutUp(m, 0, 0, anchor.data, []) == Cutting(ChunkData(out), [])
    && |out| > 0
    && forall i :: 0 <= i < |out| ==>
         out[i].l1 == anchor.l1 && out[i].l2 == i && (out[i].lastL2 <==> i == |out| - 1)
  }

  // The fine pieces of all coarse pieces, in order of their two numbers.
  ghost function Refined<T(!new)>(m: seq<T> -> bool, cs: seq<seq<T>>): seq<seq<T>>
    requires Cutter(Fine(m))
  {
    if cs == [] then [] else Pieces(Fine(m), cs[0]) + Refined(m, cs[1..])
  }

  lemma {:induction false} RefinedConcat<T(!new)>(m: seq<T> -> bool, cs: seq<seq<T>>)
    requires Cutter(Fine(m))
    ensures Concat(Refined(m, cs)) == Concat(cs)
  {
    if cs != [] {
      RefinedConcat(m, cs[1..]);
      PiecesConcat(Fine(m), cs[0]);
      ConcatAppend(Pieces(Fine(m), cs[0]), Refined(m, cs[1..]));
    }
  }

  /** Coarse pieces refined one by one and put back in order are the input. */
  lemma TwoLevels<T(!new)>(m: seq<T> -> bool, jump: nat, input: seq<T>)
    requires NotEmpty(m)
    ensures Cutter(Coarse(m, jump)) && Cutter(Fine(m))
    ensures Concat(Refined(m, Pieces(Coarse(m, jump), input))) == input
  {
    CoarseCuts(m, jump);
    CoarseCuts(m, 0);
    PiecesConcat(Coarse(m, jump), input);
    RefinedConcat(m, Pieces(Coarse(m, jump), input));
  }
}

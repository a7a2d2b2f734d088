/** The shared buffers of samples/dedup/mbuffer.c.  Memory is a map from allocations to their
    bytes, an mbuffer_t is a view into one of them, and the views split or cloned from one
    buffer share a control block with a reference counter.  Allocation succeeds. */
module Mbuffer {
  import opened Bytes

  type Id = nat

  // A pointer: an allocation and an offset into it.
  datatype Ptr = Ptr(block: Id, offset: nat)

  datatype View = View(ptr: Ptr, n: nat, mcb: Id)

  // The control block: the counter and the pointer to pass to free.
  datatype Mcb = Mcb(i: nat, block: Id)

  // `owner` is history: the control block that each live allocation belongs to.
  datatype Heap = Heap(views: map<Id, View>, mcbs: map<Id, Mcb>, blocks: map<Id, seq<byte>>, owner: map<Id, Id>)

  ghost function ViewsOf(h: Heap, c: Id): set<Id> {
    set v | v in h.views && h.views[v].mcb == c
  }

  // A live view lies in its live allocation.
  ghost predicate ViewOk(h: Heap, v: Id) {
    v in h.views ==>
      var w := h.views[v];
      && w.mcb in h.mcbs && w.ptr.block == h.mcbs[w.mcb].block
      && w.ptr.block in h.blocks && w.n > 0 && w.ptr.offset + w.n <= |h.blocks[w.ptr.block]|
  }

  // The counter is the number of live views.
  ghost predicate McbOk(h: Heap, c: Id) {
    c in h.mcbs ==>
      && h.mcbs[c].i == |ViewsOf(h, c)| > 0
      && h.mcbs[c].block in h.blocks && h.mcbs[c].block in h.owner && h.owner[h.mcbs[c].block] == c
  }

  // An allocation is live exactly as long as its control block.
  ghost predicate BlockOk(h: Heap, b: Id) {
    b in h.blocks ==> b in h.owner && h.owner[b] in h.mcbs && h.mcbs[h.owner[b]].block == b
  }

  ghost predicate Inv(h: Heap) {
    && (forall v :: ViewOk(h, v))
    && (forall c :: McbOk(h, c))
    && (forall b :: BlockOk(h, b))
  }

  // The bytes a view shows.
  function Read(h: Heap, v: Id): seq<byte>
    requires v in h.views && h.views[v].ptr.block in h.blocks
    requires h.views[v].ptr.offset + h.views[v].n <= |h.blocks[h.views[v].ptr.block]|
  {
    var w := h.views[v];
    h.blocks[w.ptr.block][w.ptr.offset..w.ptr.offset + w.n]
  }

  /* ---------- the operations ---------- */

  // `v`, `c`, `b`: the new view, control block and allocation
  function Create(h: Heap, v: Id, c: Id, b: Id, data: seq<byte>): Heap {
    Heap(h.views[v := View(Ptr(b, 0), |data|, c)], h.mcbs[c := Mcb(1, b)], h.blocks[b := data], h.owner[b := c])
  }

  function Clone(h: Heap, v: Id, w: Id): Heap
    requires v in h.views && h.views[v].mcb in h.mcbs
  {
    var c := h.views[v].mcb;
    h.(views := h.views[w := h.views[v]], mcbs := h.mcbs[c := h.mcbs[c].(i := h.mcbs[c].i + 1)])
  }

  function Split(h: Heap, v: Id, w: Id, split: nat): Heap
    requires v in h.views && h.views[v].mcb in h.mcbs && 0 < split < h.views[v].n
  {
    var m := h.views[v];
    var c := m.mcb;
    h.(views := h.views[w := View(Ptr(m.ptr.block, m.ptr.offset + split), m.n - split, c)][v := m.(n := split)],
       mcbs := h.mcbs[c := h.mcbs[c].(i := h.mcbs[c].i + 1)])
  }

  function Free(h: Heap, v: Id): Heap
    requires v in h.views && h.views[v].mcb in h.mcbs && h.mcbs[h.views[v].mcb].i > 0
  {
    var c := h.views[v].mcb;
    var m := h.mcbs[c].(i := h.mcbs[c].i - 1);
    var h1 := h.(views := h.views - {v}, mcbs := h.mcbs[c := m]);
    if m.i == 0 then h1.(blocks := h.blocks - {m.block}, mcbs := h.mcbs - {c}) else h1
  }

  // Whether mbuffer_realloc succeeds: only the sole view, and the original one.
  predicate MayRealloc(h: Heap, v: Id)
    requires v in h.views && h.views[v].mcb in h.mcbs
  {
    h.mcbs[h.views[v].mcb].i <= 1 && h.views[v].ptr == Ptr(h.mcbs[h.views[v].mcb].block, 0)
  }

  // realloc keeps what fits; `fill` gives whatever bytes are new.
  function Resized(bytes: seq<byte>, fill: seq<byte>): (r: seq<byte>)
    ensures |r| == |fill|
  {
    seq(|fill|, i requires 0 <= i < |fill| => if i < |bytes| then bytes[i] else fill[i])
  }

  // `b`: where the allocation is afterwards; its new size is that of `fill`.
  function Realloc(h: Heap, v: Id, b: Id, fill: seq<byte>): Heap
    requires v in h.views && h.views[v].mcb in h.mcbs && h.views[v].ptr.block in h.blocks
  {
    if !MayRealloc(h, v) then h else
      var m := h.views[v];
      Heap(h.views[v := View(Ptr(b, 0), |fill|, m.mcb)],
           h.mcbs[m.mcb := h.mcbs[m.mcb].(block := b)],
           (h.blocks - {m.ptr.block})[b := Resized(h.blocks[m.ptr.block], fill)],
           h.owner[b := m.mcb])
  }

  /* ---------- what every operation keeps ---------- */

  lemma CreateInv(h: Heap, v: Id, c: Id, b: Id, data: seq<byte>)
    requires Inv(h) && v !in h.views && c !in h.mcbs && b !in h.blocks && data != []
    ensures Inv(Create(h, v, c, b, data)) && Read(Create(h, v, c, b, data), v) == data
    ensures Create(h, v, c, b, data).views.Keys == h.views.Keys + {v}
    ensures forall u :: u in h.views ==> Create(h, v, c, b, data).views[u] == h.views[u]
    ensures forall x :: x in h.blocks ==>
      x in Create(h, v, c, b, data).blocks && Create(h, v, c, b, data).blocks[x] == h.blocks[x]
  {
    var h' := Create(h, v, c, b, data);
    forall u ensures ViewOk(h', u) { assert ViewOk(h, u); }
    forall d ensures McbOk(h', d) {
      assert McbOk(h, d);
      if d == c { NoViews(h, c); }
      ViewAdded(h, h', v, c, d);
    }
    forall x ensures BlockOk(h', x) { assert BlockOk(h, x); }
  }

  lemma NoViews(h: Heap, c: Id)
    requires Inv(h) && c !in h.mcbs
    ensures ViewsOf(h, c) == {}
  {
    forall u | u in h.views ensures h.views[u].mcb != c { assert ViewOk(h, u); }
  }

  // The views of d after view w of control block c has been added.
  lemma ViewAdded(h: Heap, h': Heap, w: Id, c: Id, d: Id)
    requires w !in h.views && h'.views.Keys == h.views.Keys + {w} && h'.views[w].mcb == c
    requires forall u :: u in h.views ==> h'.views[u].mcb == h.views[u].mcb
    ensures |ViewsOf(h', d)| == |ViewsOf(h, d)| + if d == c then 1 else 0
  {
    assert ViewsOf(h', d) == if d == c then ViewsOf(h, d) + {w} else ViewsOf(h, d);
  }

  lemma ViewRemoved(h: Heap, h': Heap, v: Id, d: Id)
    requires v in h.views && h'.views == h.views - {v}
    ensures |ViewsOf(h', d)| == |ViewsOf(h, d)| - if d == h.views[v].mcb then 1 else 0
  {
    if d == h.views[v].mcb {
      assert v in ViewsOf(h, d) && ViewsOf(h', d) == ViewsOf(h, d) - {v};
    } else {
      assert ViewsOf(h', d) == ViewsOf(h, d);
    }
  }

  /** A clone shows the same bytes and counts. */
  lemma CloneInv(h: Heap, v: Id, w: Id)
    requires Inv(h) && v in h.views && w !in h.views && ViewOk(h, v)
    ensures Inv(Clone(h, v, w)) && Read(Clone(h, v, w), w) == Read(h, v)
    ensures Clone(h, v, w).views.Keys == h.views.Keys + {w}
    ensures forall u :: u in h.views ==> Clone(h, v, w).views[u] == h.views[u]
    ensures Clone(h, v, w).blocks == h.blocks
  {
    var h' := Clone(h, v, w);
    forall u ensures ViewOk(h', u) { assert ViewOk(h, u) && ViewOk(h, v); }
    forall d ensures McbOk(h', d) {
      assert McbOk(h, d);
      ViewAdded(h, h', w, h.views[v].mcb, d);
    }
    forall x ensures BlockOk(h', x) { assert BlockOk(h, x); }
  }

  /** A split leaves two views whose bytes, one after the other, are those of the original. */
  lemma SplitInv(h: Heap, v: Id, w: Id, split: nat)
    requires Inv(h) && v in h.views && w !in h.views && ViewOk(h, v) && 0 < split < h.views[v].n
    ensures var h' := Split(h, v, w, split);
      Inv(h') && Read(h', v) + Read(h', w) == Read(h, v) && |Read(h', v)| == split
    ensures Split(h, v, w, split).views.Keys == h.views.Keys + {w}
    ensures forall u :: u in h.views && u != v ==> Split(h, v, w, split).views[u] == h.views[u]
    ensures Split(h, v, w, split).blocks == h.blocks
  {
    var h' := Split(h, v, w, split);
    forall u ensures ViewOk(h', u) { assert ViewOk(h, u) && ViewOk(h, v); }
    forall d ensures McbOk(h', d) {
      assert McbOk(h, d);
      ViewAdded(h, h', w, h.views[v].mcb, d);
    }
    forall x ensures BlockOk(h', x) { assert BlockOk(h, x); }
  }

  // Two views of different control blocks are in different allocations.
  lemma Separate(h: Heap, u: Id, v: Id)
    requires Inv(h) && u in h.views && v in h.views && h.views[u].mcb != h.views[v].mcb
    ensures h.views[u].ptr.block != h.views[v].ptr.block
  {
    assert ViewOk(h, u) && ViewOk(h, v) && McbOk(h, h.views[u].mcb) && McbOk(h, h.views[v].mcb);
  }

  // The last view of a control block.
  lemma LastView(h: Heap, u: Id, v: Id)
    requires u in h.views && v in h.views && h.views[u].mcb == h.views[v].mcb
    requires |ViewsOf(h, h.views[v].mcb)| == 1
    ensures u == v
  {
    var s := ViewsOf(h, h.views[v].mcb);
    assert v in s && |s - {v}| == 0;
    assert u != v ==> u in s - {v};
  }

  /** The allocation goes exactly with its last view; the others show the same bytes. */
  lemma FreeInv(h: Heap, v: Id)
    requires Inv(h) && v in h.views && ViewOk(h, v) && McbOk(h, h.views[v].mcb)
    ensures Inv(Free(h, v)) && Free(h, v).views.Keys == h.views.Keys - {v}
    ensures h.views[v].ptr.block !in Free(h, v).blocks <==> |ViewsOf(h, h.views[v].mcb)| == 1
    ensures forall u :: u in h.views && u != v ==>
      && Free(h, v).views[u] == h.views[u] && h.views[u].ptr.block in h.blocks
      && h.views[u].ptr.block in Free(h, v).blocks
      && Free(h, v).blocks[h.views[u].ptr.block] == h.blocks[h.views[u].ptr.block]
  {
    var h', c := Free(h, v), h.views[v].mcb;
    forall u | u in h.views && u != v
      ensures ViewOk(h, u) && h.views[u].ptr.block in h'.blocks && h.views[u].mcb in h'.mcbs
    {
      assert ViewOk(h, u);
      if h.views[u].mcb == c {
        if h.mcbs[c].i == 1 { LastView(h, u, v); }
      } else {
        Separate(h, u, v);
      }
    }
    forall u ensures ViewOk(h', u) { assert ViewOk(h, u); }
    forall d ensures McbOk(h', d) {
      assert McbOk(h, d);
      ViewRemoved(h, h', v, d);
    }
    forall x ensures BlockOk(h', x) { assert BlockOk(h, x); }
  }

  // The counter tells whether the view is the only one.
  lemma SoleView(h: Heap, v: Id)
    requires v in h.views && ViewOk(h, v) && McbOk(h, h.views[v].mcb)
    ensures h.mcbs[h.views[v].mcb].i <= 1 <==> ViewsOf(h, h.views[v].mcb) == {v}
  {
    var s := ViewsOf(h, h.views[v].mcb);
    assert v in s;
    if |s| == 1 {
      forall u | u in s ensures u == v { LastView(h, u, v); }
    }
  }

  /** Resizing succeeds only for the sole, original view, which keeps the bytes that fit, so no
      other view notices. */
  lemma ReallocInv(h: Heap, v: Id, b: Id, fill: seq<byte>)
    requires Inv(h) && v in h.views && ViewOk(h, v) && McbOk(h, h.views[v].mcb) && fill != []
    requires b !in h.blocks || b == h.views[v].ptr.block
    ensures Inv(Realloc(h, v, b, fill)) && Realloc(h, v, b, fill).views.Keys == h.views.Keys
    ensures MayRealloc(h, v) <==> ViewsOf(h, h.views[v].mcb) == {v} && h.views[v].ptr.offset == 0
    ensures !MayRealloc(h, v) ==> Realloc(h, v, b, fill) == h
    ensures MayRealloc(h, v) ==>
      && Realloc(h, v, b, fill).views[v] == View(Ptr(b, 0), |fill|, h.views[v].mcb)
      && |Read(Realloc(h, v, b, fill), v)| == |fill|
      && forall i :: 0 <= i < |fill| && i < h.views[v].n ==> Read(Realloc(h, v, b, fill), v)[i] == Read(h, v)[i]
    ensures forall u :: u in h.views && u != v ==>
      && Realloc(h, v, b, fill).views[u] == h.views[u] && h.views[u].ptr.block in h.blocks
      && h.views[u].ptr.block in Realloc(h, v, b, fill).blocks
      && Realloc(h, v, b, fill).blocks[h.views[u].ptr.block] == h.blocks[h.views[u].ptr.block]
  {
    var h', c := Realloc(h, v, b, fill), h.views[v].mcb;
    SoleView(h, v);
    forall u | u in h.views && u != v ensures ViewOk(h, u) && (MayRealloc(h, v) ==> h.views[u].mcb != c)
      ensures MayRealloc(h, v) ==> h.views[u].ptr.block != h.views[v].ptr.block
    {
      assert ViewOk(h, u);
      if MayRealloc(h, v) {
        if h.views[u].mcb == c { LastView(h, u, v); }
        Separate(h, u, v);
      }
    }
    if MayRealloc(h, v) {
      forall u ensures ViewOk(h', u) { assert ViewOk(h, u); }
      forall d ensures McbOk(h', d) {
        assert McbOk(h, d);
        assert ViewsOf(h', d) == ViewsOf(h, d);
      }
      forall x ensures BlockOk(h', x) { assert BlockOk(h, x); }
    }
  }

  /* ---------- any sequence of operations ---------- */

  datatype Step =
    | DoCreate(v: Id, c: Id, b: Id, data: seq<byte>)
    | DoClone(v: Id, w: Id)
    | DoSplit(v: Id, w: Id, split: nat)
    | DoFree(v: Id)
    | DoRealloc(v: Id, b: Id, fill: seq<byte>)

  // What the caller owes and what the allocator gives.
  ghost predicate Next(h: Heap, e: Step, h': Heap) {
    match e
    case DoCreate(v, c, b, data) =>
      v !in h.views && c !in h.mcbs && b !in h.blocks && data != [] && h' == Create(h, v, c, b, data)
    case DoClone(v, w) => v in h.views && w !in h.views && h.views[v].mcb in h.mcbs && h' == Clone(h, v, w)
    case DoSplit(v, w, split) =>
      && v in h.views && w !in h.views && h.views[v].mcb in h.mcbs && 0 < split < h.views[v].n
      && h' == Split(h, v, w, split)
    case DoFree(v) =>
      && v in h.views && h.views[v].mcb in h.mcbs && h.mcbs[h.views[v].mcb].i > 0
      && h' == Free(h, v)
    case DoRealloc(v, b, fill) =>
      && v in h.views && h.views[v].mcb in h.mcbs && h.views[v].ptr.block in h.blocks && fill != []
      && (b !in h.blocks || b == h.views[v].ptr.block) && h' == Realloc(h, v, b, fill)
  }

  lemma NextInv(h: Heap, e: Step, h': Heap)
    requires Inv(h) && Next(h, e, h')
    ensures Inv(h')
  {
    match e
    case DoCreate(v, c, b, data) => CreateInv(h, v, c, b, data);
    case DoClone(v, w) =>
      assert ViewOk(h, v);
      CloneInv(h, v, w);
    case DoSplit(v, w, split) =>
      assert ViewOk(h, v);
      SplitInv(h, v, w, split);
    case DoFree(v) =>
      assert ViewOk(h, v) && McbOk(h, h.views[v].mcb);
      FreeInv(h, v);
    case DoRealloc(v, b, fill) =>
      assert ViewOk(h, v) && McbOk(h, h.views[v].mcb);
      ReallocInv(h, v, b, fill);
  }

  ghost predicate StepsAt(hs: seq<Heap>, es: seq<Step>, k: int)
    requires |hs| == |es| + 1 && 0 <= k < |es|
  {
    Next(hs[k], es[k], hs[k + 1])
  }

  /** Over any sequence of operations the counter of every control block is the number of its
      live views, every live view lies inside its live allocation, and an allocation is live
      exactly as long as some view of it is. */
  lemma {:induction false} Reachable(hs: seq<Heap>, es: seq<Step>, k: nat)
    requires |hs| == |es| + 1 && hs[0] == Heap(map[], map[], map[], map[])
    requires forall j :: 0 <= j < |es| ==> StepsAt(hs, es, j)
    requires k < |hs|
    ensures Inv(hs[k])
    ensures forall b :: b in hs[k].blocks <==> exists v :: v in hs[k].views && hs[k].views[v].ptr.block == b
  {
    if k > 0 {
      Reachable(hs, es, k - 1);
      assert StepsAt(hs, es, k - 1);
      NextInv(hs[k - 1], es[k - 1], hs[k]);
    }
    var h := hs[k];
    forall b ensures b in h.blocks <==> exists v :: v in h.views && h.views[v].ptr.block == b {
      BlockViews(h, b);
    }
  }

  lemma BlockViews(h: Heap, b: Id)
    requires Inv(h)
    ensures b in h.blocks <==> exists v :: v in h.views && h.views[v].ptr.block == b
  {
    if b in h.blocks {
      assert BlockOk(h, b) && McbOk(h, h.owner[b]);
      var v :| v in ViewsOf(h, h.owner[b]);
      assert ViewOk(h, v);
    }
    if v :| v in h.views && h.views[v].ptr.block == b {
      assert ViewOk(h, v);
    }
  }

  // Cutting pieces off the front one after another, as the fragmenting stages do: each cut
  // names the view of the rest and the length of the piece.
  function SplitRun(h: Heap, v: Id, cuts: seq<(Id, nat)>): Heap
    requires CutsFit(h, v, cuts)
    decreases |cuts|
  {
    if cuts == [] then h else SplitRun(Split(h, v, cuts[0].0, cuts[0].1), cuts[0].0, cuts[1..])
  }

  predicate CutsFit(h: Heap, v: Id, cuts: seq<(Id, nat)>)
    decreases |cuts|
  {
    cuts != [] ==>
      && v in h.views && h.views[v].mcb in h.mcbs && cuts[0].0 !in h.views && 0 < cuts[0].1 < h.views[v].n
      && CutsFit(Split(h, v, cuts[0].0, cuts[0].1), cuts[0].0, cuts[1..])
  }

  // The bytes of v and of the rests that the cuts leave behind.
  ghost function Tiles(h: Heap, v: Id, cuts: seq<(Id, nat)>): seq<byte>
    requires Inv(h) && v in h.views && ViewOk(h, v)
    requires forall j :: 0 <= j < |cuts| ==> cuts[j].0 in h.views && ViewOk(h, cuts[j].0)
    decreases |cuts|
  {
    Read(h, v) + if cuts == [] then [] else Tiles(h, cuts[0].0, cuts[1..])
  }

  lemma {:induction false} SplitRunKeeps(h: Heap, v: Id, cuts: seq<(Id, nat)>)
    requires Inv(h) && v in h.views && ViewOk(h, v) && CutsFit(h, v, cuts)
    ensures Inv(SplitRun(h, v, cuts)) && SplitRun(h, v, cuts).blocks == h.blocks
    ensures forall u :: u in h.views ==> u in SplitRun(h, v, cuts).views
    ensures forall u :: u in h.views && u != v ==> SplitRun(h, v, cuts).views[u] == h.views[u]
    ensures forall j :: 0 <= j < |cuts| ==> cuts[j].0 in SplitRun(h, v, cuts).views
    decreases |cuts|
  {
    if cuts != [] {
      SplitInv(h, v, cuts[0].0, cuts[0].1);
      var h1 := Split(h, v, cuts[0].0, cuts[0].1);
      assert ViewOk(h1, cuts[0].0);
      SplitRunKeeps(h1, cuts[0].0, cuts[1..]);
      forall j | 0 <= j < |cuts| ensures cuts[j].0 in SplitRun(h, v, cuts).views {
        if j > 0 { assert cuts[j] == cuts[1..][j - 1]; }
      }
    }
  }

  /** The pieces of a buffer split again and again tile its bytes in order. */
  lemma {:induction false} SplitTiles(h: Heap, v: Id, cuts: seq<(Id, nat)>)
    requires Inv(h) && v in h.views && ViewOk(h, v) && CutsFit(h, v, cuts)
    ensures var h' := SplitRun(h, v, cuts);
      && Inv(h') && v in h'.views && ViewOk(h', v)
      && (forall j :: 0 <= j < |cuts| ==> cuts[j].0 in h'.views && ViewOk(h', cuts[j].0))
      && Tiles(h', v, cuts) == Read(h, v)
    decreases |cuts|
  {
    SplitRunKeeps(h, v, cuts);
    var h' := SplitRun(h, v, cuts);
    assert ViewOk(h', v);
    if cuts != [] {
      var w := cuts[0].0;
      SplitInv(h, v, w, cuts[0].1);
      var h1 := Split(h, v, w, cuts[0].1);
      assert ViewOk(h1, w) && ViewOk(h1, v);
      SplitRunKeeps(h1, w, cuts[1..]);
      SplitTiles(h1, w, cuts[1..]);
      assert Read(h', v) == Read(h1, v);
    }
  }

  /* ---------- the operations in place ---------- */

  /** The memory the operations change: the views, the control blocks and the allocations.
      Names of new objects are arguments. */
  class Memory {
    var views: map<Id, View>
    var mcbs: map<Id, Mcb>
    var blocks: map<Id, seq<byte>>
    ghost var owner: map<Id, Id>

    ghost function State(): Heap
      reads this
    {
      Heap(views, mcbs, blocks, owner)
    }

    ghost predicate Valid()
      reads this
    {
      Inv(State())
    }

    constructor ()
      ensures Valid() && State() == Heap(map[], map[], map[], map[])
    {
      views, mcbs, blocks, owner := map[], map[], map[], map[];
    }

    method MbufferCreate(v: Id, c: Id, b: Id, data: seq<byte>)
      requires Valid() && v !in views && c !in mcbs && b !in blocks && data != []
      modifies this
      ensures Valid() && State() == Create(old(State()), v, c, b, data)
      ensures Next(old(State()), DoCreate(v, c, b, data), State())
    {
      CreateInv(State(), v, c, b, data);
      blocks := blocks[b := data];
      views := views[v := View(Ptr(b, 0), |data|, c)];
      mcbs := mcbs[c := Mcb(1, b)];
      owner := owner[b := c];
    }

    method MbufferClone(v: Id, w: Id)
      requires Valid() && v in views && w !in views
      modifies this
      ensures Valid() && v in old(views) && old(views)[v].mcb in old(mcbs)
      ensures State() == Clone(old(State()), v, w) && Next(old(State()), DoClone(v, w), State())
    {
      assert ViewOk(State(), v);
      CloneInv(State(), v, w);
      var m := views[v];
      mcbs := mcbs[m.mcb := mcbs[m.mcb].(i := mcbs[m.mcb].i + 1)];
      views := views[w := View(m.ptr, m.n, m.mcb)];
    }

    method MbufferSplit(v: Id, w: Id, split: nat)
      requires Valid() && v in views && w !in views && 0 < split < views[v].n
      modifies this
      ensures Valid() && old(views)[v].mcb in old(mcbs)
      ensures State() == Split(old(State()), v, w, split) && Next(old(State()), DoSplit(v, w, split), State())
    {
      assert ViewOk(State(), v);
      SplitInv(State(), v, w, split);
      var m1 := views[v];
      mcbs := mcbs[m1.mcb := mcbs[m1.mcb].(i := mcbs[m1.mcb].i + 1)];
      var m2 := View(Ptr(m1.ptr.block, m1.ptr.offset + split), m1.n - split, m1.mcb);
      m1 := m1.(n := split);
      views := views[w := m2][v := m1];
    }

    method MbufferFree(v: Id)
      requires Valid() && v in views
      modifies this
      ensures Valid() && old(views)[v].mcb in old(mcbs) && old(mcbs)[old(views)[v].mcb].i > 0
      ensures State() == Free(old(State()), v) && Next(old(State()), DoFree(v), State())
    {
      assert ViewOk(State(), v) && McbOk(State(), views[v].mcb);
      FreeInv(State(), v);
      var c := views[v].mcb;
      mcbs := mcbs[c := mcbs[c].(i := mcbs[c].i - 1)];
      var ref := mcbs[c].i;
      if ref == 0 {
        blocks := blocks - {mcbs[c].block};
        mcbs := mcbs - {c};
        assert mcbs == old(mcbs) - {c};
      }
      views := views - {v};
    }

    // `b`: where the allocation is afterwards; `fill`: its new size and bytes
    method MbufferRealloc(v: Id, b: Id, fill: seq<byte>) returns (r: int)
      requires Valid() && v in views && fill != [] && (b !in blocks || b == views[v].ptr.block)
      modifies this
      ensures Valid() && old(views)[v].mcb in old(mcbs) && old(views)[v].ptr.block in old(blocks)
      ensures State() == Realloc(old(State()), v, b, fill) && Next(old(State()), DoRealloc(v, b, fill), State())
      ensures r == if MayRealloc(old(State()), v) then 0 else -1
    {
      assert ViewOk(State(), v) && McbOk(State(), views[v].mcb);
      ReallocInv(State(), v, b, fill);
      var m := views[v];
      if mcbs[m.mcb].i > 1 {
        return -1;
      }
      if m.ptr != Ptr(mcbs[m.mcb].block, 0) {
        return -1;
      }
      blocks := (blocks - {m.ptr.block})[b := Resized(blocks[m.ptr.block], fill)];
      views := views[v := View(Ptr(b, 0), |fill|, m.mcb)];
      mcbs := mcbs[m.mcb := mcbs[m.mcb].(block := b)];
      owner := owner[b := m.mcb];
      return 0;
    }
  }
}

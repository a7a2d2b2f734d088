/** The stage Reorder of samples/dedup/encoder.c: its cache of early chunks, and its loops. */
module Reorder {
  import opened Wrappers
  import opened Chunking
  import opened Sequences
  import opened SearchTree
  import opened BinHeap
  import opened ReorderOrder

  type Heap<T> = seq<Chunk<T>>

  function L2<T>(): Chunk<T> -> int {
    (c: Chunk<T>) => c.l2
  }

  ghost predicate Holds<T>(h: Heap<T>, p: set<Chunk<T>>) {
    h != [] && Ordered(L2(), h) && multiset(h) == multiset(p)
  }

  ghost predicate RowInv<T>(layout: Layout<T>, arrived: set<Seqno>, n: Seqno, m: map<nat, Heap<T>>, a: nat)
    requires a < |layout|
  {
    if a in m then Holds(m[a], Pending(layout, arrived, n, a)) else Pending(layout, arrived, n, a) == {}
  }

  // The cache holds exactly the chunks that have arrived and are not below n.
  ghost predicate CacheInv<T>(layout: Layout<T>, arrived: set<Seqno>, n: Seqno, m: map<nat, Heap<T>>) {
    && (forall a :: a in m ==> a < |layout|)
    && (forall a: nat :: a < |layout| ==> RowInv(layout, arrived, n, m, a))
  }

  // What Insert and TreeInsert do with a chunk that comes early.
  ghost function Cached<T>(m: map<nat, Heap<T>>, c: Chunk<T>): map<nat, Heap<T>> {
    m[c.l1 := Inserted(L2(), if c.l1 in m then m[c.l1] else [], c)]
  }

  // What DeleteMin and TreeDelete do with the least chunk of row a.
  ghost function Removed<T>(m: map<nat, Heap<T>>, a: nat): map<nat, Heap<T>>
    requires a in m && m[a] != []
  {
    if |m[a]| == 1 then m - {a} else m[a := MinDeleted(L2(), m[a])]
  }

  lemma RowCached<T>(layout: Layout<T>, arrived: set<Seqno>, n: Seqno, m: map<nat, Heap<T>>, s: Seqno, a: nat)
    requires IsLayout(layout) && CacheInv(layout, arrived, n, m)
    requires In(layout, s) && s !in arrived && !Lt(s, n) && a < |layout|
    ensures RowInv(layout, arrived + {s}, n, Cached(m, ChunkAt(layout, s)), a)
  {
    var c := ChunkAt(layout, s);
    assert RowInv(layout, arrived, n, m, a) && IsRow(layout[s.l1], s.l1);
    PendingArrive(layout, arrived, n, s, a);
    if a == s.l1 {
      var h: Heap<T> := if a in m then m[a] else [];
      InsertedIs(L2(), h, c);
      assert multiset(Pending(layout, arrived, n, a) + {c}) == multiset(Pending(layout, arrived, n, a)) + multiset{c};
    }
  }

  lemma CacheArrive<T>(layout: Layout<T>, arrived: set<Seqno>, n: Seqno, m: map<nat, Heap<T>>, s: Seqno)
    requires IsLayout(layout) && CacheInv(layout, arrived, n, m)
    requires In(layout, s) && s !in arrived && !Lt(s, n)
    ensures CacheInv(layout, arrived + {s}, n, Cached(m, ChunkAt(layout, s)))
  {
    assert IsRow(layout[s.l1], s.l1);
    forall a: nat | a < |layout| ensures RowInv(layout, arrived + {s}, n, Cached(m, ChunkAt(layout, s)), a) {
      RowCached(layout, arrived, n, m, s, a);
    }
  }

  // A chunk that arrives just in time never enters the cache.
  lemma CachePass<T>(layout: Layout<T>, arrived: set<Seqno>, n: Seqno, m: map<nat, Heap<T>>)
    requires IsLayout(layout) && CacheInv(layout, arrived, n, m) && In(layout, n) && n !in arrived
    ensures CacheInv(layout, arrived + {n}, Inc(layout, n), m)
  {
    forall a: nat | a < |layout| ensures RowInv(layout, arrived + {n}, Inc(layout, n), m, a) {
      assert RowInv(layout, arrived, n, m, a);
      PendingArrive(layout, arrived, n, n, a);
      PendingInc(layout, arrived + {n}, n, a);
    }
  }

  // The least chunk cached in row a.
  lemma RowMin<T>(layout: Layout<T>, arrived: set<Seqno>, n: Seqno, m: map<nat, Heap<T>>, a: nat)
    requires IsLayout(layout) && CacheInv(layout, arrived, n, m) && a in m
    ensures a < |layout| && m[a] != [] && In(layout, Seqno(a, m[a][0].l2))
    ensures Seqno(a, m[a][0].l2) in arrived && !Lt(Seqno(a, m[a][0].l2), n)
    ensures m[a][0] == ChunkAt(layout, Seqno(a, m[a][0].l2))
    ensures forall b: nat :: b < |layout[a]| && Seqno(a, b) in arrived && !Lt(Seqno(a, b), n) ==> m[a][0].l2 <= b
  {
    assert RowInv(layout, arrived, n, m, a) && IsRow(layout[a], a);
    var h, p := m[a], Pending(layout, arrived, n, a);
    assert h[0] in multiset(h) && h[0] in multiset(p);
    MinDeletedIs(L2(), h);
    forall b: nat | b < |layout[a]| && Seqno(a, b) in arrived && !Lt(Seqno(a, b), n) ensures h[0].l2 <= b {
      assert layout[a][b] in multiset(p);
      assert L2<T>()(h[0]) <= L2<T>()(layout[a][b]);
    }
  }

  /** The next chunk is cached exactly when it is the least of the least row. */
  lemma NextCached<T>(layout: Layout<T>, arrived: set<Seqno>, n: Seqno, m: map<nat, Heap<T>>, a: nat)
    requires IsLayout(layout) && CacheInv(layout, arrived, n, m) && Position(layout, n)
    requires a in m && forall k :: k in m ==> a <= k
    ensures m[a] != [] && (a == n.l1 && m[a][0].l2 == n.l2 <==> In(layout, n) && n in arrived)
    ensures In(layout, n) && n in arrived ==> m[a][0] == ChunkAt(layout, n)
  {
    RowMin(layout, arrived, n, m, a);
    if In(layout, n) && n in arrived {
      assert RowInv(layout, arrived, n, m, n.l1);
      assert ChunkAt(layout, n) in Pending(layout, arrived, n, n.l1);
    }
  }

  lemma NothingCached<T>(layout: Layout<T>, arrived: set<Seqno>, n: Seqno, m: map<nat, Heap<T>>)
    requires IsLayout(layout) && CacheInv(layout, arrived, n, m) && m == map[]
    ensures forall s :: In(layout, s) && s in arrived ==> Lt(s, n)
  {
    forall s | In(layout, s) && s in arrived ensures Lt(s, n) {
      assert RowInv(layout, arrived, n, m, s.l1);
      assert !Lt(s, n) ==> ChunkAt(layout, s) in Pending(layout, arrived, n, s.l1);
    }
  }

  lemma RowRemoved<T>(layout: Layout<T>, arrived: set<Seqno>, n: Seqno, m: map<nat, Heap<T>>, a: nat)
    requires IsLayout(layout) && CacheInv(layout, arrived, n, m) && In(layout, n) && n in arrived
    requires n.l1 in m && m[n.l1] != [] && m[n.l1][0] == ChunkAt(layout, n) && a < |layout|
    ensures RowInv(layout, arrived, Inc(layout, n), Removed(m, n.l1), a)
  {
    assert RowInv(layout, arrived, n, m, a);
    PendingInc(layout, arrived, n, a);
    if a == n.l1 {
      var p, c := Pending(layout, arrived, n, a), ChunkAt(layout, n);
      MinDeletedIs(L2(), m[a]);
      assert multiset(p - {c}) == multiset(p) - multiset{c};
      if |m[a]| == 1 {
        assert m[a] == [c] && multiset(p) == multiset{c};
        assert forall x :: x in p ==> x in multiset(p);
      }
    }
  }

  lemma CacheRemove<T>(layout: Layout<T>, arrived: set<Seqno>, n: Seqno, m: map<nat, Heap<T>>)
    requires IsLayout(layout) && CacheInv(layout, arrived, n, m) && In(layout, n) && n in arrived
    requires n.l1 in m && m[n.l1] != [] && m[n.l1][0] == ChunkAt(layout, n)
    ensures CacheInv(layout, arrived, Inc(layout, n), Removed(m, n.l1))
  {
    forall a: nat | a < |layout| ensures RowInv(layout, arrived, Inc(layout, n), Removed(m, n.l1), a) {
      RowRemoved(layout, arrived, n, m, a);
    }
  }

  /* ---------- the stage and its state ---------- */

  // chunks_per_anchor: the size of a row is known once its last chunk has arrived.
  ghost predicate Counts<T>(layout: Layout<T>, arrived: set<Seqno>, perAnchor: map<nat, nat>) {
    && (forall a :: a in perAnchor ==> a < |layout| && perAnchor[a] == |layout[a]|)
    && (forall a: nat :: a < |layout| && |layout[a]| > 0 ==> (a in perAnchor <==> Seqno(a, |layout[a]| - 1) in arrived))
  }

  // Everything below n is out; everything else that has arrived is in the tree.
  ghost predicate State<T>(layout: Layout<T>, arrived: set<Seqno>, n: Seqno, t: Tree<Heap<T>>,
                           perAnchor: map<nat, nat>, out: seq<Chunk<T>>) {
    && IsLayout(layout) && Complete(layout, arrived, n) && Counts(layout, arrived, perAnchor)
    && Sorted(t) && CacheInv(layout, arrived, n, ToMap(t)) && out == Before(layout, n)
  }

  // The next chunk has been taken out of the tree (or never was in it) and not yet written.
  ghost predicate InHand<T>(layout: Layout<T>, arrived: set<Seqno>, n: Seqno, t: Tree<Heap<T>>,
                            perAnchor: map<nat, nat>, out: seq<Chunk<T>>, c: Chunk<T>) {
    && IsLayout(layout) && Complete(layout, arrived, n) && Counts(layout, arrived, perAnchor)
    && In(layout, n) && n in arrived && c == ChunkAt(layout, n)
    && Sorted(t) && CacheInv(layout, arrived, Inc(layout, n), ToMap(t)) && out == Before(layout, n)
  }

  lemma CountsArrive<T>(layout: Layout<T>, arrived: set<Seqno>, perAnchor: map<nat, nat>, s: Seqno)
    requires IsLayout(layout) && Counts(layout, arrived, perAnchor) && In(layout, s) && s !in arrived
    ensures ChunkAt(layout, s).lastL2 ==>
      s.l1 !in perAnchor && Counts(layout, arrived + {s}, perAnchor[s.l1 := s.l2 + 1])
    ensures !ChunkAt(layout, s).lastL2 ==> Counts(layout, arrived + {s}, perAnchor)
  {
    assert IsRow(layout[s.l1], s.l1);
    forall a: nat | a < |layout| ensures Seqno(a, |layout[a]| - 1) == s <==> a == s.l1 && ChunkAt(layout, s).lastL2 {
      assert IsRow(layout[a], a);
    }
  }

  // Writing the chunk in hand.
  lemma Written<T>(layout: Layout<T>, arrived: set<Seqno>, n: Seqno, t: Tree<Heap<T>>,
                   perAnchor: map<nat, nat>, out: seq<Chunk<T>>, c: Chunk<T>)
    requires InHand(layout, arrived, n, t, perAnchor, out, c)
    ensures State(layout, arrived, Inc(layout, n), t, perAnchor, out + [c])
  {
    IncPosition(layout, n);
    BeforeInc(layout, n);
  }

  lemma PutMin<T>(a: nat, rest: Heap<T>, t: Tree<Heap<T>>)
    requires Sorted(t) && TreeFindMin(t) == Some(a) && a in ToMap(t)
    ensures TreeFindMin(TreePut(a, rest, t)) == Some(a)
  {
    FindMinIs(t);
    PutIs(a, rest, t);
    FindMinIs(TreePut(a, rest, t));
    assert ToMap(t)[a := rest].Keys == ToMap(t).Keys;
  }

  // Something of the row of n has arrived that comes after n.
  ghost predicate LaterInRow(arrived: set<Seqno>, n: Seqno) {
    exists s :: s in arrived && s.l1 == n.l1 && Lt(n, s)
  }

  // A stuck stage holds something that comes after the missing chunk, in its row exactly when the
  // least row is that one.
  lemma Beyond<T>(layout: Layout<T>, arrived: set<Seqno>, n: Seqno, m: map<nat, Heap<T>>, a: nat)
    requires IsLayout(layout) && CacheInv(layout, arrived, n, m) && a in m && n !in arrived
    requires (forall k :: k in m ==> a <= k) && forall s :: s in arrived ==> In(layout, s)
    ensures exists s :: s in arrived && Lt(n, s)
    ensures a == n.l1 <==> LaterInRow(arrived, n)
  {
    RowMin(layout, arrived, n, m, a);
    var s := Seqno(a, m[a][0].l2);
    assert s in arrived && Lt(n, s);
    if LaterInRow(arrived, n) {
      var t :| t in arrived && t.l1 == n.l1 && Lt(n, t);
      assert RowInv(layout, arrived, n, m, t.l1);
      assert ChunkAt(layout, t) in Pending(layout, arrived, n, t.l1);
    }
  }

  datatype Outcome = Ok | L1Mismatch | L2Mismatch

  class Stage<T> {
    ghost const layout: Layout<T>
    ghost var arrived: set<Seqno>
    var tree: Tree<Heap<T>>
    var perAnchor: map<nat, nat>
    var next: Seqno
    var out: seq<Chunk<T>>

    ghost predicate Valid()
      reads this
    {
      State(layout, arrived, next, tree, perAnchor, out)
    }

    ghost predicate Holding(c: Chunk<T>)
      reads this
    {
      InHand(layout, arrived, next, tree, perAnchor, out, c)
    }

    constructor (ghost layout: Layout<T>)
      requires IsLayout(layout)
      ensures Valid() && arrived == {} && this.layout == layout && next !in arrived
    {
      this.layout, arrived := layout, {};
      tree, perAnchor, next, out := Nil, map[], Seqno(0, 0), [];
      new;
      BeforeEnds(layout);
    }

    // write_chunk_to_file and the increment of the expected number
    method WriteChunk(c: Chunk<T>)
      requires Holding(c)
      modifies this`out, this`next
      ensures Valid() && next == Inc(layout, old(next))
    {
      Written(layout, arrived, next, tree, perAnchor, out, c);
      assert IsRow(layout[next.l1], next.l1);
      out := out + [c];
      next := Seqno(next.l1, next.l2 + 1);
      if next.l1 in perAnchor && next.l2 == perAnchor[next.l1] {
        next := Seqno(next.l1 + 1, 0);
      }
    }

    // DeleteMin on the queue at the least position; the node goes when its queue is empty.
    method DeleteAt(a: nat, queue: Heap<T>) returns (pos: Option<nat>)
      requires Sorted(tree) && TreeFindMin(tree) == Some(a)
      requires a in ToMap(tree) && ToMap(tree)[a] == queue && queue != []
      modifies this`tree
      ensures Sorted(tree) && ToMap(tree) == Removed(old(ToMap(tree)), a) && pos == TreeFindMin(tree)
    {
      var rest := MinDeleted(L2(), queue);
      PutIs(a, rest, tree);
      PutMin(a, rest, tree);
      tree, pos := TreePut(a, rest, tree), Some(a);
      if |rest| == 0 {
        DeleteIs(a, tree);
        tree := TreeDelete(a, tree);
        pos := TreeFindMin(tree);
      }
    }

    // Looks for the next chunk at the least position of the tree and takes it out.
    method TakeNext(pos: Option<nat>) returns (c: Option<Chunk<T>>, pos': Option<nat>)
      requires Valid() && pos == TreeFindMin(tree)
      modifies this`tree
      ensures pos' == TreeFindMin(tree)
      ensures c == None ==> Valid() && next !in arrived && tree == old(tree)
      ensures c.Some? ==> Holding(c.value)
    {
      c, pos' := None, pos;
      FindMinIs(tree);
      if pos.Some? {
        NextCached(layout, arrived, next, ToMap(tree), pos.value);
        FindIs(pos.value, tree);
      } else {
        NothingCached(layout, arrived, next, ToMap(tree));
      }
      if pos.Some? && pos.value == next.l1 {
        var queue := TreeFind(pos.value, tree).value;
        var chunk := queue[0];
        if chunk.l1 == next.l1 && chunk.l2 == next.l2 {
          CacheRemove(layout, arrived, next, ToMap(tree));
          pos' := DeleteAt(pos.value, queue);
          c := Some(chunk);
        }
      }
    }

    // A chunk that is early goes into the queue of its row, which is made if it is not there.
    method CacheChunk(c: Chunk<T>)
      requires Sorted(tree)
      modifies this`tree
      ensures Sorted(tree) && ToMap(tree) == Cached(old(ToMap(tree)), c)
    {
      FindIs(c.l1, tree);
      match TreeFind(c.l1, tree) {
        case None =>
          InsertIs(c.l1, Inserted(L2(), [], c), tree);
          tree := TreeInsert(c.l1, Inserted(L2(), [], c), tree);
        case Some(queue) =>
          PutIs(c.l1, Inserted(L2(), queue, c), tree);
          tree := TreePut(c.l1, Inserted(L2(), queue, c), tree);
      }
    }

    /** One arrival: afterwards everything up to the first chunk still missing is out. */
    method Accept(c: Chunk<T>)
      requires Valid() && next !in arrived
      requires In(layout, Seqno(c.l1, c.l2)) && c == ChunkAt(layout, Seqno(c.l1, c.l2))
      requires Seqno(c.l1, c.l2) !in arrived
      modifies this
      ensures Valid() && next !in arrived && arrived == old(arrived) + {Seqno(c.l1, c.l2)}
    {
      ghost var s := Seqno(c.l1, c.l2);
      CountsArrive(layout, arrived, perAnchor, s);
      if c.lastL2 {
        perAnchor := perAnchor[c.l1 := c.l2 + 1];
      }
      if !(c.l1 == next.l1 && c.l2 == next.l2) {
        CacheArrive(layout, arrived, next, ToMap(tree), s);
        CacheChunk(c);
        arrived := arrived + {s};
        return;
      }
      CachePass(layout, arrived, next, ToMap(tree));
      arrived := arrived + {s};
      WriteOut(c);
    }

    // The do loop: the chunk in hand and all that can follow it.
    method WriteOut(c: Chunk<T>)
      requires Holding(c)
      modifies this`out, this`next, this`tree
      ensures Valid() && next !in arrived
    {
      var pos := TreeFindMin(tree);
      var chunk := Some(c);
      while chunk.Some?
        invariant pos == TreeFindMin(tree)
        invariant chunk.Some? ==> Holding(chunk.value)
        invariant chunk == None ==> Valid() && next !in arrived
        decreases if chunk.Some? then |layout| - next.l1 else -1,
                  if chunk.Some? && next.l1 < |layout| then |layout[next.l1]| - next.l2 else 0
      {
        WriteChunk(chunk.value);
        chunk, pos := TakeNext(pos);
      }
    }

    /** Once the input has ended: what is left is written as long as it is in sequence. */
    method Flush() returns (outcome: Outcome)
      requires Valid()
      modifies this`out, this`next, this`tree
      ensures Valid()
      ensures outcome == Ok ==> forall s :: s in arrived ==> Lt(s, next)
      ensures outcome != Ok ==> next !in arrived && exists s :: s in arrived && Lt(next, s)
      ensures outcome != Ok ==> (outcome == L2Mismatch <==> LaterInRow(arrived, next))
    {
      var pos := TreeFindMin(tree);
      while pos.Some?
        invariant Valid() && pos == TreeFindMin(tree)
        decreases |layout| - next.l1, if next.l1 < |layout| then |layout[next.l1]| - next.l2 else 0
      {
        var c, pos' := TakeNext(pos);
        if c == None {
          FindMinIs(tree);
          Beyond(layout, arrived, next, ToMap(tree), pos.value);
          return if pos.value == next.l1 then L2Mismatch else L1Mismatch;
        }
        WriteChunk(c.value);
        pos := pos';
      }
      FindMinIs(tree);
      NothingCached(layout, arrived, next, ToMap(tree));
      return Ok;
    }
  }

  ghost predicate Arrival<T>(layout: Layout<T>, arrivals: seq<Chunk<T>>) {
    && (forall i :: 0 <= i < |arrivals| ==>
          In(layout, Number(arrivals[i])) && arrivals[i] == ChunkAt(layout, Number(arrivals[i])))
    && (forall i, j :: 0 <= i < j < |arrivals| ==> Number(arrivals[i]) != Number(arrivals[j]))
  }

  function Number<T>(c: Chunk<T>): Seqno {
    Seqno(c.l1, c.l2)
  }

  ghost function Numbers<T>(arrivals: seq<Chunk<T>>): set<Seqno> {
    set c | c in arrivals :: Number(c)
  }

  // No chunk is missing below one that arrived.
  ghost predicate Gapless<T>(layout: Layout<T>, arrived: set<Seqno>) {
    forall s, t :: t in arrived && In(layout, s) && Lt(s, t) ==> s in arrived
  }

  // n is the first number that has not arrived, or the one after the last.
  ghost predicate FirstGap<T>(layout: Layout<T>, arrived: set<Seqno>, n: Seqno) {
    Position(layout, n) && n !in arrived && forall s :: In(layout, s) && Lt(s, n) ==> s in arrived
  }

  // What the stage leaves when n is missing.
  ghost predicate Ends<T>(layout: Layout<T>, arrived: set<Seqno>, n: Seqno, outcome: Outcome, out: seq<Chunk<T>>)
    requires Position(layout, n)
  {
    out == Before(layout, n) && (outcome != Ok ==> (outcome == L2Mismatch <==> LaterInRow(arrived, n)))
  }

  /** For any order of arrival: the output is everything below the first missing chunk, in order;
      the stage ends normally exactly when no chunk is missing below one that arrived, and else with
      the error that says whether one of the missing chunk's row has arrived; and if all have arrived
      the output is the whole in order. */
  method Reorder<T>(ghost layout: Layout<T>, arrivals: seq<Chunk<T>>) returns (outcome: Outcome, out: seq<Chunk<T>>)
    requires IsLayout(layout) && Arrival(layout, arrivals)
    ensures exists n :: FirstGap(layout, Numbers(arrivals), n) && Ends(layout, Numbers(arrivals), n, outcome, out)
    ensures outcome == Ok <==> Gapless(layout, Numbers(arrivals))
    ensures (forall s :: In(layout, s) ==> s in Numbers(arrivals)) ==> outcome == Ok && out == Concat(layout)
  {
    var stage := new Stage<T>(layout);
    for i := 0 to |arrivals|
      invariant stage.Valid() && stage.layout == layout && fresh(stage)
      invariant stage.next !in stage.arrived && stage.arrived == Numbers(arrivals[..i])
    {
      NumbersNext(arrivals, i);
      stage.Accept(arrivals[i]);
    }
    assert arrivals[..|arrivals|] == arrivals;
    outcome := stage.Flush();
    out := stage.out;
    assert FirstGap(layout, stage.arrived, stage.next) && Ends(layout, stage.arrived, stage.next, outcome, out);
    Outcomes(layout, stage.arrived, stage.next, outcome);
  }

  lemma NumbersNext<T>(arrivals: seq<Chunk<T>>, i: nat)
    requires i < |arrivals|
    requires forall j, k :: 0 <= j < k < |arrivals| ==> Number(arrivals[j]) != Number(arrivals[k])
    ensures Numbers(arrivals[..i + 1]) == Numbers(arrivals[..i]) + {Number(arrivals[i])}
    ensures Number(arrivals[i]) !in Numbers(arrivals[..i])
  {
    assert arrivals[..i + 1] == arrivals[..i] + [arrivals[i]];
  }

  lemma Outcomes<T>(layout: Layout<T>, arrived: set<Seqno>, n: Seqno, outcome: Outcome)
    requires IsLayout(layout) && Complete(layout, arrived, n)
    requires outcome == Ok ==> forall s :: s in arrived ==> Lt(s, n)
    requires outcome != Ok ==> n !in arrived && exists s :: s in arrived && Lt(n, s)
    ensures outcome == Ok <==> Gapless(layout, arrived)
    ensures (forall s :: In(layout, s) ==> s in arrived) ==>
      outcome == Ok && n == Seqno(|layout|, 0) && Before(layout, n) == Concat(layout)
  {
    BeforeEnds(layout);
    if outcome != Ok {
      var s :| s in arrived && Lt(n, s);
      assert In(layout, n);
    }
  }

  // The rows that FragmentRefine makes of the pieces of Fragment.
  ghost predicate Rows<T(!new)>(m: seq<T> -> bool, anchors: seq<Anchor<T>>, layout: Layout<T>)
    requires Cutter(Fine(m))
  {
    |layout| == |anchors| && forall a :: 0 <= a < |layout| ==> Refines(m, anchors[a], layout[a])
  }

  lemma ChunkDataAppend<T>(a: seq<Chunk<T>>, b: seq<Chunk<T>>)
    ensures ChunkData(a + b) == ChunkData(a) + ChunkData(b)
  {
  }

  lemma {:induction false} RowsData<T>(anchors: seq<Anchor<T>>, layout: Layout<T>)
    requires |layout| == |anchors| && forall a :: 0 <= a < |layout| ==> Concat(ChunkData(layout[a])) == anchors[a].data
    ensures Concat(ChunkData(Concat(layout))) == Concat(AnchorData(anchors))
  {
    if layout != [] {
      RowsData(anchors[1..], layout[1..]);
      assert AnchorData(anchors)[1..] == AnchorData(anchors[1..]);
      ChunkDataAppend(layout[0], Concat(layout[1..]));
      ConcatAppend(ChunkData(layout[0]), ChunkData(Concat(layout[1..])));
    }
  }

  /** The two fragmenting stages number their chunks as reordering needs them, and the data
      put back in order is the input. */
  lemma FragmentsReorder<T(!new)>(m: seq<T> -> bool, jump: nat, input: seq<T>, maxbuf: nat, anchors: seq<Anchor<T>>,
                                  layout: Layout<T>)
    requires Cutter(Fine(m)) && Cutter(Coarse(m, jump))
    requires Fragmented(m, jump, input, maxbuf, anchors) && Rows(m, anchors, layout)
    ensures IsLayout(layout) && Concat(ChunkData(Concat(layout))) == input
  {
    forall a | 0 <= a < |layout| ensures IsRow(layout[a], a) && Concat(ChunkData(layout[a])) == anchors[a].data {
      assert Refines(m, anchors[a], layout[a]);
    }
    RowsData(anchors, layout);
  }
}

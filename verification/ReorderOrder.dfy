/** The order of the chunks of samples/dedup: two-level sequence numbers, and which chunks have
    arrived but cannot be put out yet. */
module ReorderOrder {
  import opened Chunking
  import opened Sequences

  datatype Seqno = Seqno(l1: nat, l2: nat)

  predicate Lt(s: Seqno, t: Seqno) {
    s.l1 < t.l1 || (s.l1 == t.l1 && s.l2 < t.l2)
  }

  // layout[a][b] is the chunk with numbers a and b.
  type Layout<T> = seq<seq<Chunk<T>>>

  ghost predicate IsLayout<T>(layout: Layout<T>) {
    forall a :: 0 <= a < |layout| ==> IsRow(layout[a], a)
  }

  ghost predicate IsRow<T>(row: seq<Chunk<T>>, a: nat) {
    |row| > 0 && forall b :: 0 <= b < |row| ==>
      row[b].l1 == a && row[b].l2 == b && (row[b].lastL2 <==> b == |row| - 1)
  }

  predicate In<T>(layout: Layout<T>, n: Seqno) {
    n.l1 < |layout| && n.l2 < |layout[n.l1]|
  }

  // A number of the layout, or the one after the last.
  predicate Position<T>(layout: Layout<T>, n: Seqno) {
    In(layout, n) || n == Seqno(|layout|, 0)
  }

  function ChunkAt<T>(layout: Layout<T>, n: Seqno): Chunk<T>
    requires In(layout, n)
  {
    layout[n.l1][n.l2]
  }

  function Inc<T>(layout: Layout<T>, n: Seqno): Seqno
    requires In(layout, n)
  {
    if n.l2 + 1 == |layout[n.l1]| then Seqno(n.l1 + 1, 0) else Seqno(n.l1, n.l2 + 1)
  }

  // The chunks numbered below n, in order.
  function Before<T>(layout: Layout<T>, n: Seqno): seq<Chunk<T>>
    requires Position(layout, n)
  {
    Concat(layout[..n.l1]) + if n.l1 < |layout| then layout[n.l1][..n.l2] else []
  }

  lemma IncPosition<T>(layout: Layout<T>, n: Seqno)
    requires IsLayout(layout) && In(layout, n)
    ensures Position(layout, Inc(layout, n))
    ensures forall s :: In(layout, s) ==> (Lt(s, Inc(layout, n)) <==> Lt(s, n) || s == n)
  {
    if n.l1 + 1 < |layout| { assert IsRow(layout[n.l1 + 1], n.l1 + 1); }
  }

  lemma BeforeInc<T>(layout: Layout<T>, n: Seqno)
    requires IsLayout(layout) && In(layout, n) && Position(layout, Inc(layout, n))
    ensures Before(layout, Inc(layout, n)) == Before(layout, n) + [ChunkAt(layout, n)]
  {
    var row := layout[n.l1];
    assert row[..n.l2 + 1] == row[..n.l2] + [row[n.l2]];
    if n.l2 + 1 == |row| {
      assert row[..|row|] == row;
      assert layout[..n.l1 + 1] == layout[..n.l1] + [row];
      ConcatAppend(layout[..n.l1], [row]);
      assert Concat([row]) == row;
      assert Before(layout, Inc(layout, n)) == Concat(layout[..n.l1 + 1]);
    }
  }

  lemma BeforeEnds<T>(layout: Layout<T>)
    requires IsLayout(layout)
    ensures Before(layout, Seqno(|layout|, 0)) == Concat(layout)
    ensures Position(layout, Seqno(0, 0)) && Before(layout, Seqno(0, 0)) == []
  {
    assert layout[..|layout|] == layout && layout[..0] == [];
    if |layout| > 0 { assert IsRow(layout[0], 0); }
  }

  /* ---------- the place of a number in the whole order ---------- */

  function Place<T>(layout: Layout<T>, n: Seqno): nat
    requires Position(layout, n)
  {
    |Before(layout, n)|
  }

  // Fewer rows are no longer than more.
  lemma RowsGrow<T>(layout: Layout<T>, a: nat, b: nat)
    requires a <= b <= |layout|
    ensures Concat(layout[..a]) <= Concat(layout[..b])
  {
    ConcatAppend(layout[..a], layout[a..b]);
    assert layout[..b] == layout[..a] + layout[a..b];
  }

  lemma RowNext<T>(layout: Layout<T>, a: nat)
    requires a < |layout|
    ensures Concat(layout[..a + 1]) == Concat(layout[..a]) + layout[a]
  {
    ConcatNext(layout[..a], layout[a]);
    assert layout[..a + 1] == layout[..a] + [layout[a]];
  }

  lemma BeforePrefix<T>(layout: Layout<T>, n: Seqno)
    requires Position(layout, n)
    ensures Before(layout, n) <= Concat(layout)
  {
    assert layout[..|layout|] == layout;
    if n.l1 < |layout| {
      RowNext(layout, n.l1);
      RowsGrow(layout, n.l1 + 1, |layout|);
    }
  }

  /** The chunk with number s stands at the place of s. */
  lemma PlaceAt<T>(layout: Layout<T>, s: Seqno)
    requires IsLayout(layout) && In(layout, s)
    ensures Place(layout, s) < |Concat(layout)| && Concat(layout)[Place(layout, s)] == ChunkAt(layout, s)
  {
    IncPosition(layout, s);
    BeforeInc(layout, s);
    BeforePrefix(layout, Inc(layout, s));
  }

  /** Places are in the order of the numbers. */
  lemma PlaceOrder<T>(layout: Layout<T>, s: Seqno, t: Seqno)
    requires In(layout, s) && Position(layout, t) && Lt(s, t)
    ensures Place(layout, s) < Place(layout, t)
  {
    if s.l1 < t.l1 {
      RowNext(layout, s.l1);
      RowsGrow(layout, s.l1 + 1, t.l1);
    }
  }

  // The number at place i, which lies in the first a rows.
  lemma {:induction false} NumberAt<T>(layout: Layout<T>, a: nat, i: nat) returns (s: Seqno)
    requires a <= |layout| && i < |Concat(layout[..a])|
    ensures In(layout, s) && Place(layout, s) == i
  {
    RowNext(layout, a - 1);
    var c := |Concat(layout[..a - 1])|;
    if i < c { s := NumberAt(layout, a - 1, i); } else { s := Seqno(a - 1, i - c); }
  }

  // The places of the chunks that have arrived.
  ghost function Places<T>(layout: Layout<T>, arrived: set<Seqno>): set<nat> {
    set s | s in arrived && In(layout, s) :: Place(layout, s)
  }

  /** If everything below n has arrived and n has not, the place of n is the first at which
      nothing has arrived. */
  lemma FirstMissing<T>(layout: Layout<T>, arrived: set<Seqno>, n: Seqno)
    requires IsLayout(layout) && Complete(layout, arrived, n) && n !in arrived
    ensures forall i: nat :: i < Place(layout, n) ==> i in Places(layout, arrived)
    ensures Place(layout, n) !in Places(layout, arrived)
  {
    forall i: nat | i < Place(layout, n) ensures i in Places(layout, arrived) {
      BeforePrefix(layout, n);
      assert layout[..|layout|] == layout;
      var s := NumberAt(layout, |layout|, i);
      if !Lt(s, n) && s != n { PlaceOrder(layout, n, s); }
    }
    forall s | s in arrived ensures Place(layout, s) != Place(layout, n) {
      if Lt(s, n) { PlaceOrder(layout, s, n); } else { PlaceOrder(layout, n, s); }
    }
  }

  /* ---------- the chunks that have arrived and not been put out ---------- */

  // The arrived chunks with first number a that are not below n.
  ghost function Pending<T>(layout: Layout<T>, arrived: set<Seqno>, n: Seqno, a: nat): set<Chunk<T>>
    requires a < |layout|
  {
    set b: nat | b < |layout[a]| && Seqno(a, b) in arrived && !Lt(Seqno(a, b), n) :: layout[a][b]
  }

  // Everything below n has arrived.
  ghost predicate Complete<T>(layout: Layout<T>, arrived: set<Seqno>, n: Seqno) {
    && Position(layout, n)
    && (forall s :: s in arrived ==> In(layout, s))
    && (forall s :: In(layout, s) && Lt(s, n) ==> s in arrived)
  }

  lemma PendingArrive<T>(layout: Layout<T>, arrived: set<Seqno>, n: Seqno, s: Seqno, a: nat)
    requires IsLayout(layout) && In(layout, s) && s !in arrived && a < |layout| && !Lt(s, n)
    ensures Pending(layout, arrived + {s}, n, a)
         == Pending(layout, arrived, n, a) + if a == s.l1 then {ChunkAt(layout, s)} else {}
    ensures a == s.l1 ==> ChunkAt(layout, s) !in Pending(layout, arrived, n, a)
  {
    assert IsRow(layout[a], a);
  }

  lemma PendingInc<T>(layout: Layout<T>, arrived: set<Seqno>, n: Seqno, a: nat)
    requires IsLayout(layout) && In(layout, n) && n in arrived && a < |layout|
    ensures Pending(layout, arrived, Inc(layout, n), a)
         == Pending(layout, arrived, n, a) - if a == n.l1 then {ChunkAt(layout, n)} else {}
    ensures a == n.l1 ==> ChunkAt(layout, n) in Pending(layout, arrived, n, a)
  {
    assert IsRow(layout[a], a);
    IncPosition(layout, n);
  }
}

/** The binary heap of samples/dedup/binheap.c.  Positions are those of the C array: the
    element at position i of a heap h is h[i - 1], its parent is at position i / 2. */
module BinHeap {
  import opened Wrappers

  ghost predicate Ordered<X>(key: X -> int, h: seq<X>) {
    forall i :: 2 <= i <= |h| ==> key(h[i / 2 - 1]) <= key(h[i - 1])
  }

  // x goes into the hole at position i or above it.
  function Up<X>(key: X -> int, h: seq<X>, i: nat, x: X): (r: seq<X>)
    requires 1 <= i <= |h|
    ensures |r| == |h|
    decreases i
  {
    if i == 1 || key(h[i / 2 - 1]) <= key(x) then h[i - 1 := x]
    else Up(key, h[i - 1 := h[i / 2 - 1]], i / 2, x)
  }

  // The smaller child of the hole at position i.
  function Child<X>(key: X -> int, h: seq<X>, i: nat): (c: nat)
    requires 1 <= i && 2 * i <= |h|
    ensures c / 2 == i && i < c <= |h|
  {
    if 2 * i != |h| && key(h[2 * i]) < key(h[2 * i - 1]) then 2 * i + 1 else 2 * i
  }

  // x goes into the hole at position i or below it.
  function Down<X>(key: X -> int, h: seq<X>, i: nat, x: X): (r: seq<X>)
    requires 1 <= i <= |h|
    ensures |r| == |h|
    decreases |h| - i
  {
    if 2 * i > |h| || key(x) <= key(h[Child(key, h, i) - 1]) then h[i - 1 := x]
    else Down(key, h[i - 1 := h[Child(key, h, i) - 1]], Child(key, h, i), x)
  }

  function Inserted<X>(key: X -> int, h: seq<X>, x: X): (r: seq<X>)
    ensures |r| == |h| + 1
  {
    Up(key, h + [x], |h| + 1, x)
  }

  function MinDeleted<X>(key: X -> int, h: seq<X>): (r: seq<X>)
    requires h != []
    ensures |r| == |h| - 1
  {
    if |h| == 1 then [] else Down(key, h[..|h| - 1], 1, h[|h| - 1])
  }

  /* ---------- contents ---------- */

  lemma MoveHole<X>(h: seq<X>, i: nat, j: nat, x: X)
    requires i < |h| && j < |h| && i != j
    ensures multiset(h[i := h[j]][j := x]) == multiset(h[i := x])
  {
    MultisetUpdate(h, i, h[j]);
    MultisetUpdate(h[i := h[j]], j, x);
    MultisetUpdate(h, i, x);
  }

  lemma MultisetUpdate<X>(h: seq<X>, i: nat, x: X)
    requires i < |h|
    ensures multiset(h[i := x]) == multiset(h) - multiset{h[i]} + multiset{x}
  {
  }

  lemma {:induction false} UpContents<X>(key: X -> int, h: seq<X>, i: nat, x: X)
    requires 1 <= i <= |h|
    ensures multiset(Up(key, h, i, x)) == multiset(h[i - 1 := x])
    decreases i
  {
    if i > 1 && key(h[i / 2 - 1]) > key(x) {
      UpContents(key, h[i - 1 := h[i / 2 - 1]], i / 2, x);
      MoveHole(h, i - 1, i / 2 - 1, x);
    }
  }

  lemma {:induction false} DownContents<X>(key: X -> int, h: seq<X>, i: nat, x: X)
    requires 1 <= i <= |h|
    ensures multiset(Down(key, h, i, x)) == multiset(h[i - 1 := x])
    decreases |h| - i
  {
    if 2 * i <= |h| && key(x) > key(h[Child(key, h, i) - 1]) {
      var c := Child(key, h, i);
      var h' := h[i - 1 := h[c - 1]];
      assert Down(key, h, i, x) == Down(key, h', c, x);
      DownContents(key, h', c, x);
      MoveHole(h, i - 1, c - 1, x);
    }
  }

  /* ---------- order ---------- */

  // Ordered apart from the hole at position i, whose neighbours are in order across it.
  ghost predicate OrderedAround<X>(key: X -> int, h: seq<X>, i: nat) {
    && (forall j :: 2 <= j <= |h| && j != i && j / 2 != i ==> key(h[j / 2 - 1]) <= key(h[j - 1]))
    && (i >= 2 ==> forall j :: 2 <= j <= |h| && j / 2 == i ==> key(h[i / 2 - 1]) <= key(h[j - 1]))
  }

  lemma FillHole<X>(key: X -> int, h: seq<X>, i: nat, x: X)
    requires 1 <= i <= |h| && OrderedAround(key, h, i)
    requires i >= 2 ==> key(h[i / 2 - 1]) <= key(x)
    requires forall j :: 2 <= j <= |h| && j / 2 == i ==> key(x) <= key(h[j - 1])
    ensures Ordered(key, h[i - 1 := x])
  {
  }

  lemma MoveHoleDown<X>(key: X -> int, h: seq<X>, i: nat, c: nat)
    requires 1 <= i && 2 * i <= |h| && c == Child(key, h, i) && OrderedAround(key, h, i)
    ensures OrderedAround(key, h[i - 1 := h[c - 1]], c)
    ensures forall j :: 2 <= j <= |h| && j / 2 == i ==> key(h[c - 1]) <= key(h[j - 1])
  {
  }

  lemma {:induction false} UpOrdered<X>(key: X -> int, h: seq<X>, i: nat, x: X)
    requires 1 <= i <= |h| && OrderedAround(key, h, i)
    requires forall j :: 2 <= j <= |h| && j / 2 == i ==> key(x) <= key(h[j - 1])
    ensures Ordered(key, Up(key, h, i, x))
    decreases i
  {
    if i > 1 && key(h[i / 2 - 1]) > key(x) {
      UpOrdered(key, h[i - 1 := h[i / 2 - 1]], i / 2, x);
    }
  }

  // Percolation stops where no child is smaller.
  predicate Stops<X>(key: X -> int, h: seq<X>, i: nat, x: X)
    requires 1 <= i <= |h|
  {
    2 * i > |h| || key(x) <= key(h[Child(key, h, i) - 1])
  }

  lemma StopOrdered<X>(key: X -> int, h: seq<X>, i: nat, x: X)
    requires 1 <= i <= |h| && OrderedAround(key, h, i) && Stops(key, h, i, x)
    requires i >= 2 ==> key(h[i / 2 - 1]) <= key(x)
    ensures Ordered(key, h[i - 1 := x])
  {
    if 2 * i <= |h| { MoveHoleDown(key, h, i, Child(key, h, i)); }
    FillHole(key, h, i, x);
  }

  lemma {:induction false} DownOrdered<X>(key: X -> int, h: seq<X>, i: nat, x: X)
    requires 1 <= i <= |h| && OrderedAround(key, h, i)
    requires i >= 2 ==> key(h[i / 2 - 1]) <= key(x)
    ensures Ordered(key, Down(key, h, i, x))
    decreases |h| - i
  {
    if Stops(key, h, i, x) {
      StopOrdered(key, h, i, x);
    } else {
      var c := Child(key, h, i);
      MoveHoleDown(key, h, i, c);
      DownOrdered(key, h[i - 1 := h[c - 1]], c, x);
    }
  }

  /** Insertion adds the element and keeps the order. */
  lemma InsertedIs<X>(key: X -> int, h: seq<X>, x: X)
    requires Ordered(key, h)
    ensures Ordered(key, Inserted(key, h, x))
    ensures multiset(Inserted(key, h, x)) == multiset(h) + multiset{x}
  {
    UpOrdered(key, h + [x], |h| + 1, x);
    UpContents(key, h + [x], |h| + 1, x);
    assert (h + [x])[|h| := x] == h + [x];
  }

  // The root is a minimum.
  lemma {:induction false} RootIsMin<X>(key: X -> int, h: seq<X>, i: nat)
    requires Ordered(key, h) && 1 <= i <= |h|
    ensures key(h[0]) <= key(h[i - 1])
    decreases i
  {
    if i > 1 {
      RootIsMin(key, h, i / 2);
    }
  }

  lemma RootBelowAll<X>(key: X -> int, h: seq<X>)
    requires Ordered(key, h) && h != []
    ensures forall y :: y in multiset(h) ==> key(h[0]) <= key(y)
  {
    forall y | y in multiset(h) ensures key(h[0]) <= key(y) {
      var i :| 0 <= i < |h| && h[i] == y;
      RootIsMin(key, h, i + 1);
    }
  }

  lemma MinDeletedContents<X>(key: X -> int, h: seq<X>)
    requires h != []
    ensures multiset(MinDeleted(key, h)) == multiset(h) - multiset{h[0]}
  {
    var n := |h| - 1;
    assert h[..n] + [h[n]] == h;
    if n > 0 {
      DownContents(key, h[..n], 1, h[n]);
      MultisetUpdate(h[..n], 0, h[n]);
    }
  }

  /** Deletion removes the root, which is a minimum, and keeps the order. */
  lemma MinDeletedIs<X>(key: X -> int, h: seq<X>)
    requires Ordered(key, h) && h != []
    ensures Ordered(key, MinDeleted(key, h))
    ensures multiset(MinDeleted(key, h)) == multiset(h) - multiset{h[0]}
    ensures forall y :: y in multiset(h) ==> key(h[0]) <= key(y)
  {
    RootBelowAll(key, h);
    MinDeletedContents(key, h);
    if |h| > 1 {
      DownOrdered(key, h[..|h| - 1], 1, h[|h| - 1]);
    }
  }

  /* ---------- the heap in place ---------- */

  lemma UpHole<X>(key: X -> int, h: seq<X>, i: nat, x: X, y: X)
    requires 1 <= i <= |h|
    ensures Up(key, h[i - 1 := y], i, x) == Up(key, h, i, x)
  {
    assert h[i - 1 := y][i - 1 := x] == h[i - 1 := x];
    if i > 1 {
      assert h[i - 1 := y][i - 1 := h[i / 2 - 1]] == h[i - 1 := h[i / 2 - 1]];
    }
  }

  const MIN_PQ_SIZE := 16

  class PriorityQueue<X(0)> {
    const key: X -> int
    var size: nat
    // one extra cell in front for the sentinel
    var elements: array<X>

    ghost predicate Valid()
      reads this, elements
    {
      size < elements.Length && elements.Length > MIN_PQ_SIZE && Ordered(key, Contents())
    }

    ghost function Contents(): seq<X>
      reads this, elements
      requires size < elements.Length
    {
      elements[1..size + 1]
    }

    constructor Initialize(key: X -> int, initCapacity: nat)
      requires initCapacity >= MIN_PQ_SIZE
      ensures Valid() && Contents() == [] && this.key == key && fresh(elements) && elements.Length == initCapacity + 1
    {
      this.key := key;
      elements := new X[initCapacity + 1];
      size := 0;
    }

    predicate IsEmpty()
      reads this
    {
      size == 0
    }

    predicate IsFull()
      reads this
    {
      size == elements.Length - 1
    }

    method Grow()
      requires Valid()
      modifies this`elements
      ensures Valid() && Contents() == old(Contents()) && !IsFull() && fresh(elements)
      ensures elements.Length - 1 == 2 * (old(elements.Length) - 1)
    {
      var bigger := new X[2 * (elements.Length - 1) + 1];
      forall i | 0 <= i <= size {
        bigger[i] := elements[i];
      }
      elements := bigger;
      assert Contents() == old(Contents());
    }

    method Insert(x: X)
      requires Valid()
      modifies this, elements
      ensures Valid() && Contents() == Inserted(key, old(Contents()), x)
      ensures multiset(Contents()) == multiset(old(Contents())) + multiset{x}
      ensures if old(size) + 1 < old(elements.Length) then elements == old(elements)
              else fresh(elements) && elements.Length - 1 == 2 * (old(elements.Length) - 1)
    {
      ghost var h := Contents();
      InsertedIs(key, h, x);
      if IsFull() {
        Grow();
      }
      if size == 0 {
        elements[1] := x;
        size := 1;
        assert Contents() == [x];
        return;
      }
      size := size + 1;
      PercolateUp(x, h);
    }

    // One cell written.
    method Put(i: nat, x: X)
      requires 1 <= i <= size < elements.Length
      modifies elements
      ensures Contents() == old(Contents())[i - 1 := x]
    {
      elements[i] := x;
    }

    // The loop of Insert: the last cell is a hole.
    method PercolateUp(x: X, ghost h: seq<X>)
      requires 1 < size < elements.Length && elements[1..size] == h
      modifies elements
      ensures Contents() == Inserted(key, h, x)
    {
      var i := size;
      UpHole(key, h + [x], size, x, elements[size]);
      assert Contents() == (h + [x])[size - 1 := elements[size]];
      while i / 2 != 0 && key(elements[i / 2]) > key(x)
        invariant 1 <= i <= size
        invariant Up(key, Contents(), i, x) == Inserted(key, h, x)
      {
        Put(i, elements[i / 2]);
        i := i / 2;
      }
      Put(i, x);
    }

    /** A minimum, or nothing when the heap is empty. */
    function FindMin(): (min: Option<X>)
      reads this, elements
      requires Valid()
      ensures min == None <==> Contents() == []
      ensures min.Some? ==> min.value in multiset(Contents())
      ensures min.Some? ==> forall y :: y in multiset(Contents()) ==> key(min.value) <= key(y)
    {
      if IsEmpty() then None else
        RootBelowAll(key, Contents());
        assert Contents()[0] in multiset(Contents());
        Some(elements[1])
    }

    method DeleteMin() returns (minElement: X)
      requires Valid() && !IsEmpty()
      modifies this`size, elements
      ensures Valid() && Contents() == MinDeleted(key, old(Contents()))
      ensures minElement == old(Contents())[0]
      ensures multiset(Contents()) == multiset(old(Contents())) - multiset{minElement}
      ensures forall y :: y in multiset(old(Contents())) ==> key(minElement) <= key(y)
    {
      ghost var h := Contents();
      MinDeletedIs(key, h);
      minElement := elements[1];
      var lastElement := elements[size];
      size := size - 1;
      if size == 0 {
        elements[1] := lastElement;
        assert Contents() == [];
      } else {
        assert Contents() == h[..size];
        PercolateDown(lastElement, h);
      }
    }

    // The loop of DeleteMin: the root is a hole.
    method PercolateDown(lastElement: X, ghost h: seq<X>)
      requires 1 <= size < elements.Length && |h| == size + 1
      requires Contents() == h[..size] && lastElement == h[size]
      modifies elements
      ensures Contents() == MinDeleted(key, h)
    {
      var i := 1;
      while i * 2 <= size
        invariant 1 <= i <= size
        invariant Down(key, Contents(), i, lastElement) == MinDeleted(key, h)
        decreases size - i
      {
        var child := SmallerChild(i);
        if key(lastElement) > key(elements[child]) {
          Put(i, elements[child]);
        } else {
          break;
        }
        i := child;
      }
      Put(i, lastElement);
    }

    method SmallerChild(i: nat) returns (child: nat)
      requires 1 <= i && 2 * i <= size < elements.Length
      ensures child == Child(key, Contents(), i)
    {
      child := i * 2;
      if child != size && key(elements[child + 1]) < key(elements[child]) {
        child := child + 1;
      }
    }
  }
}

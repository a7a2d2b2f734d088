/** The queues between the stages of dedup: the ring buffer of samples/dedup/queue.h and the
    batch operations of samples/dedup/queue.c as the holder of the mutex executes them. */
module DedupQueue {
  import opened Wrappers

  function Min(a: nat, b: nat): nat {
    if a <= b then a else b
  }

  // The index before t in a ring of n cells.
  lemma WrapBack(t: nat, n: nat)
    requires t < n
    ensures (t + n - 1) % n == if t == 0 then n - 1 else t - 1
  {
    if t > 0 {
      assert t + n - 1 == n + (t - 1);
    }
  }

  class RingBuffer<T(0)> {
    const data: array<T>
    const size: nat
    var head: nat
    var tail: nat
    ghost var items: seq<T>

    ghost predicate Valid()
      reads this, data
    {
      && size >= 1 && data.Length == size && head < size && tail < size
      && |items| == (if tail <= head then head - tail else head - tail + size)
      && forall k :: 0 <= k < |items| ==> items[k] == data[Cell(k)]
    }

    // The cell of the k-th element.
    ghost function Cell(k: int): nat
      reads this
    {
      if 0 <= tail + k < size then tail + k else if 0 <= tail + k - size < size then tail + k - size else 0
    }

    // One cell stays unused.
    constructor (capacity: nat)
      ensures Valid() && items == [] && size == capacity + 1 && fresh(data)
    {
      data := new T[capacity + 1];
      size, head, tail, items := capacity + 1, 0, 0, [];
    }

    predicate IsEmpty()
      reads this
    {
      tail == head
    }

    predicate IsFull()
      reads this
      requires size > 0
    {
      head == (tail + size - 1) % size
    }

    lemma FullIs()
      requires Valid()
      ensures IsFull() <==> |items| == size - 1
      ensures IsEmpty() <==> items == []
    {
      WrapBack(tail, size);
    }

    method Remove() returns (ptr: Option<T>)
      requires Valid()
      modifies this`tail, this`items
      ensures Valid()
      ensures ptr == if old(items) == [] then None else Some(old(items)[0])
      ensures items == if old(items) == [] then [] else old(items)[1..]
    {
      FullIs();
      if IsEmpty() {
        return None;
      }
      assert items[0] == data[Cell(0)];
      ptr := Some(data[tail]);
      tail := tail + 1;
      if tail >= size { tail := 0; }
      items := items[1..];
    }

    method Insert(x: T) returns (ok: bool)
      requires Valid()
      modifies this`head, this`items, data
      ensures Valid()
      ensures ok == (|old(items)| < size - 1)
      ensures items == if ok then old(items) + [x] else old(items)
    {
      FullIs();
      if IsFull() {
        return false;
      }
      data[head] := x;
      head := head + 1;
      if head == size { head := 0; }
      items := items + [x];
      return true;
    }
  }

  method MoveOne<T(0)>(from: RingBuffer<T>, to: RingBuffer<T>)
    requires from.Valid() && to.Valid() && from != to && from.data != to.data
    requires from.items != [] && |to.items| < to.size - 1
    modifies from`tail, from`items, to`head, to`items, to.data
    ensures from.Valid() && to.Valid()
    ensures from.items == old(from.items)[1..] && to.items == old(to.items) + [old(from.items)[0]]
  {
    var temp := from.Remove();
    var ok := to.Insert(temp.value);
  }

  lemma Batch<T>(f: seq<T>, t: seq<T>, i: nat)
    requires i < |f|
    ensures f[i..][1..] == f[i + 1..] && (t + f[..i]) + [f[i..][0]] == t + f[..i + 1]
  {
  }

  // The batch loop of both operations: elements go over while there are any and there is room.
  method Transfer<T(0)>(from: RingBuffer<T>, to: RingBuffer<T>, limit: nat) returns (i: nat)
    requires from.Valid() && to.Valid() && from != to && from.data != to.data
    modifies from, to, to.data
    ensures from.Valid() && to.Valid()
    ensures i == Min(limit, Min(|old(from.items)|, to.size - 1 - |old(to.items)|))
    ensures from.items == old(from.items)[i..] && to.items == old(to.items) + old(from.items)[..i]
  {
    i := 0;
    ghost var f, t := from.items, to.items;
    from.FullIs();
    to.FullIs();
    while i < limit && !from.IsEmpty() && !to.IsFull()
      invariant from.Valid() && to.Valid()
      invariant i <= limit && i <= |f| && from.items == f[i..] && to.items == t + f[..i]
      invariant from.IsEmpty() <==> from.items == []
      invariant to.IsFull() <==> |to.items| == to.size - 1
    {
      Batch(f, t, i);
      MoveOne(from, to);
      i := i + 1;
      from.FullIs();
      to.FullIs();
    }
  }

  // How a batch operation goes on: -1 returned, asleep on its condition variable, a failed
  // assertion, or the number of elements moved.
  datatype Outcome = Ended | Waits | AssertionFails | Moved(n: nat)

  class Queue<T(0)> {
    const buf: RingBuffer<T>
    const nProducers: nat
    var nTerminated: nat

    ghost predicate Valid()
      reads this, buf, buf.data
    {
      buf.Valid() && buf.size >= 2 && nTerminated <= nProducers
    }

    constructor (size: nat, nProducers: nat)
      requires size >= 1
      ensures Valid() && buf.items == [] && buf.size == size + 1 && this.nProducers == nProducers && nTerminated == 0
      ensures fresh(buf) && fresh(buf.data)
    {
      buf := new RingBuffer(size);
      this.nProducers, nTerminated := nProducers, 0;
    }

    predicate IsTerminated()
      reads this
    {
      nTerminated == nProducers
    }

    // queue_terminate; the consumers are woken when the last producer ends.
    method Terminate() returns (broadcast: bool)
      requires Valid() && nTerminated < nProducers
      modifies this`nTerminated
      ensures Valid() && nTerminated == old(nTerminated) + 1
      ensures broadcast == (nTerminated == nProducers)
    {
      nTerminated := nTerminated + 1;
      broadcast := IsTerminated();
    }

    // One stretch of queue_dequeue under the mutex: from locking it or waking up to waiting on
    // notEmpty or returning.
    method Dequeue(to: RingBuffer<T>, limit: nat) returns (r: Outcome, signal: bool)
      requires Valid() && to.Valid() && to != buf && to.data != buf.data
      modifies buf, to, to.data
      ensures Valid() && to.Valid()
      ensures old(buf.items) == [] ==> r == if nTerminated == nProducers then Ended else Waits
      ensures old(buf.items) != [] ==> r == Moved(Min(limit, Min(|old(buf.items)|, to.size - 1 - |old(to.items)|)))
      ensures var n := if r.Moved? then r.n else 0;
        && buf.items == old(buf.items)[n..] && to.items == old(to.items) + old(buf.items)[..n]
        && signal == (n > 0)
    {
      buf.FullIs();
      if buf.IsEmpty() {
        assert to.items == old(to.items) + old(buf.items)[..0];
        return if IsTerminated() then Ended else Waits, false;
      }
      var i := Transfer(buf, to, limit);
      return Moved(i), i > 0;
    }

    // One stretch of queue_enqueue under the mutex; once there is room at least one element
    // goes over.
    method Enqueue(from: RingBuffer<T>, limit: nat) returns (r: Outcome, signal: bool)
      requires Valid() && from.Valid() && from != buf && from.data != buf.data
      modifies buf, from, buf.data
      ensures Valid() && from.Valid()
      ensures nTerminated == nProducers ==> r == AssertionFails
      ensures nTerminated != nProducers ==> (r == Waits <==> |old(buf.items)| == buf.size - 1)
      ensures nTerminated != nProducers && r != Waits ==>
        r == Moved(Min(limit, Min(|old(from.items)|, buf.size - 1 - |old(buf.items)|)))
      ensures var n := if r.Moved? then r.n else 0;
        && from.items == old(from.items)[n..] && buf.items == old(buf.items) + old(from.items)[..n]
        && signal == (n > 0)
      ensures r.Moved? && limit > 0 && old(from.items) != [] ==> r.n >= 1
    {
      buf.FullIs();
      if IsTerminated() || buf.IsFull() {
        assert buf.items == old(buf.items) + old(from.items)[..0];
        return if IsTerminated() then AssertionFails else Waits, false;
      }
      var i := Transfer(from, buf, limit);
      return Moved(i), i > 0;
    }
  }
}

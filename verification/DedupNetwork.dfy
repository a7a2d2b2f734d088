/** How the stages of the parallel encoder shut down (samples/dedup/encoder.c, queue.c).

    Fragment feeds the refine queues; the threads of the stages FragmentRefine, Deduplicate
    and Compress move chunks on; Reorder empties the last queues.  A thread with number tid
    works on the queues with index tid / MAX_THREADS_PER_QUEUE.  A queue counts the producers
    that have terminated it.  Deduplicate threads put duplicates into the reorder queues
    without being counted as producers of them.

    A chunk is named by a number and the state says where each chunk is: a step of a thread
    moves the chunks it takes, processes or passes on.  Capacities and the order within a
    queue play no part here. */
module DedupNetwork {
  import opened FiniteSets
  import opened MapSums

  const MAX_THREADS_PER_QUEUE := 4

  type Id = nat

  datatype Stage = Refine | Dedup | Compress

  datatype Level = RefineQueue | DedupQueue | CompressQueue | ReorderQueue

  datatype Place =
    | Source
    | Queued(level: Level, q: nat)
    | Received(stage: Stage, tid: nat)
    | ToSend(stage: Stage, tid: nat, level: Level)
    | Written

  datatype Phase = Working | Draining | Done

  datatype Net = Net(
    place: map<Id, Place>,
    phase: map<(Stage, nat), Phase>,
    // nTerminated of every queue
    terminated: map<(Level, nat), nat>,
    // refine queues that Fragment has terminated
    fragmented: nat,
    reorder: Scan)

  // Where Reorder is: the next queue it asks, how many have told it their end in a row, and
  // whether it has left its loop; `first` is the queue this row began with.
  datatype Scan = Scan(qid: nat, seen: nat, stopped: bool, first: nat)

  datatype Step =
    | Send(ids: set<Id>, q: nat)
    | EndInput
    | Dequeue(stage: Stage, tid: nat, ids: set<Id>)
    | Process(stage: Stage, tid: nat, id: Id, isDuplicate: bool)
    | Enqueue(stage: Stage, tid: nat, level: Level, ids: set<Id>)
    | SeeEnd(stage: Stage, tid: nat)
    | Terminate(stage: Stage, tid: nat)
    | Fetch(ids: set<Id>)
    | Miss

  function QueueOf(tid: nat): nat {
    tid / MAX_THREADS_PER_QUEUE
  }

  // The sizes computed in Encode.
  function NQueues(nthreads: nat): nat {
    nthreads / MAX_THREADS_PER_QUEUE + if nthreads % MAX_THREADS_PER_QUEUE != 0 then 1 else 0
  }

  function ThreadsPerQueue(nthreads: nat, q: nat): nat {
    if q + 1 < NQueues(nthreads) || nthreads % MAX_THREADS_PER_QUEUE == 0 then MAX_THREADS_PER_QUEUE
    else nthreads % MAX_THREADS_PER_QUEUE
  }

  ghost function Threads(nthreads: nat, q: nat): set<nat> {
    set t: nat | t < nthreads && QueueOf(t) == q
  }

  function NProducers(nthreads: nat, level: Level, q: nat): nat {
    if level == RefineQueue then 1 else ThreadsPerQueue(nthreads, q)
  }

  function InputOf(stage: Stage): Level {
    match stage case Refine => RefineQueue case Dedup => DedupQueue case Compress => CompressQueue
  }

  // The queue a thread terminates when it ends.
  function OutputOf(stage: Stage): Level {
    match stage case Refine => DedupQueue case Dedup => CompressQueue case Compress => ReorderQueue
  }

  // Where a processed chunk goes.
  function Target(stage: Stage, isDuplicate: bool): Level {
    if stage == Dedup && isDuplicate then ReorderQueue else OutputOf(stage)
  }

  ghost predicate IsTerminated(n: nat, s: Net, level: Level, q: nat) {
    (level, q) in s.terminated && s.terminated[(level, q)] == NProducers(n, level, q)
  }

  ghost predicate Nothing(s: Net, p: Place) {
    forall id :: id in s.place ==> s.place[id] != p
  }

  ghost predicate AllAt(s: Net, ids: set<Id>, p: Place) {
    ids != {} && forall id :: id in ids ==> id in s.place && s.place[id] == p
  }

  function Move(s: Net, ids: set<Id>, p: Place): Net {
    s.(place := map id | id in s.place :: if id in ids then p else s.place[id])
  }

  // queue_dequeue on this reorder queue returns -1.
  ghost predicate Over(n: nat, s: Net, q: nat) {
    IsTerminated(n, s, ReorderQueue, q) && Nothing(s, Queued(ReorderQueue, q))
  }

  function After(n: nat, qid: nat): nat {
    if NQueues(n) == 0 then 0 else (qid + 1) % NQueues(n)
  }

  ghost predicate Next(n: nat, s: Net, e: Step, s': Net) {
    match e
    case Send(ids, q) =>
      q < NQueues(n) && s.fragmented == 0 && AllAt(s, ids, Source) && s' == Move(s, ids, Queued(RefineQueue, q))
    case EndInput =>
      && Nothing(s, Source) && s.fragmented < NQueues(n) && (RefineQueue, s.fragmented) in s.terminated
      && s' == s.(terminated := s.terminated[(RefineQueue, s.fragmented) := s.terminated[(RefineQueue, s.fragmented)] + 1],
                  fragmented := s.fragmented + 1)
    case Dequeue(stage, t, ids) =>
      && t < n && (stage, t) in s.phase && s.phase[(stage, t)] == Working
      && Nothing(s, Received(stage, t)) && AllAt(s, ids, Queued(InputOf(stage), QueueOf(t)))
      && s' == Move(s, ids, Received(stage, t))
    case Process(stage, t, id, isDuplicate) =>
      && t < n && (stage, t) in s.phase && s.phase[(stage, t)] == Working
      && AllAt(s, {id}, Received(stage, t)) && s' == Move(s, {id}, ToSend(stage, t, Target(stage, isDuplicate)))
    case Enqueue(stage, t, level, ids) =>
      && t < n && (stage, t) in s.phase && s.phase[(stage, t)] != Done
      && AllAt(s, ids, ToSend(stage, t, level)) && s' == Move(s, ids, Queued(level, QueueOf(t)))
    // queue_dequeue returns -1
    case SeeEnd(stage, t) =>
      && t < n && (stage, t) in s.phase && s.phase[(stage, t)] == Working
      && Nothing(s, Received(stage, t)) && Nothing(s, Queued(InputOf(stage), QueueOf(t)))
      && IsTerminated(n, s, InputOf(stage), QueueOf(t))
      && s' == s.(phase := s.phase[(stage, t) := Draining])
    case Terminate(stage, t) =>
      && t < n && (stage, t) in s.phase && s.phase[(stage, t)] == Draining
      && (forall level :: Nothing(s, ToSend(stage, t, level)))
      && (OutputOf(stage), QueueOf(t)) in s.terminated
      && s' == s.(phase := s.phase[(stage, t) := Done],
                  terminated := s.terminated[(OutputOf(stage), QueueOf(t)) :=
                                             s.terminated[(OutputOf(stage), QueueOf(t))] + 1])
    // Reorder dequeues from one queue after another, waiting while it is empty and not
    // terminated, and starts afresh after a chunk
    case Fetch(ids) =>
      && !s.reorder.stopped && AllAt(s, ids, Queued(ReorderQueue, s.reorder.qid))
      && s' == Move(s, ids, Written).(reorder := Scan(After(n, s.reorder.qid), 0, false, After(n, s.reorder.qid)))
    case Miss =>
      && !s.reorder.stopped && Over(n, s, s.reorder.qid)
      && s' == s.(reorder := Scan(After(n, s.reorder.qid), s.reorder.seen + 1, s.reorder.seen + 1 == NQueues(n),
                                  s.reorder.first))
  }

  /* ---------- the producer counts ---------- */

  /** The number of producers given to a queue is the number of threads that work on it, and
      every queue has one at least. */
  lemma ProducerCount(nthreads: nat, q: nat)
    requires q < NQueues(nthreads)
    ensures |Threads(nthreads, q)| == ThreadsPerQueue(nthreads, q) > 0
    ensures MAX_THREADS_PER_QUEUE * q in Threads(nthreads, q)
  {
    var low := MAX_THREADS_PER_QUEUE * q;
    var size := ThreadsPerQueue(nthreads, q);
    assert Threads(nthreads, q) == Range(low, size);
    RangeSize(low, size);
  }

  ghost function Range(low: nat, size: nat): (r: set<nat>)
    ensures forall t :: t in r <==> low <= t < low + size
  {
    if size == 0 then {} else Range(low, size - 1) + {low + size - 1}
  }

  lemma {:induction false} RangeSize(low: nat, size: nat)
    ensures |Range(low, size)| == size
  {
    if size > 0 {
      RangeSize(low, size - 1);
    }
  }

  /* ---------- the invariant ---------- */

  ghost function DoneAt(n: nat, s: Net, stage: Stage, q: nat): set<nat> {
    set t: nat | t < n && QueueOf(t) == q && (stage, t) in s.phase && s.phase[(stage, t)] == Done
  }

  ghost predicate Placed(n: nat, p: Place) {
    match p
    case Queued(_, q) => q < NQueues(n)
    case Received(_, t) => t < n
    case ToSend(stage, t, level) => t < n && (level == OutputOf(stage) || (stage == Dedup && level == ReorderQueue))
    case _ => true
  }

  ghost predicate QueueInv(n: nat, s: Net, stage: Stage, q: nat) {
    && (OutputOf(stage), q) in s.terminated && s.terminated[(OutputOf(stage), q)] == |DoneAt(n, s, stage, q)|
    && (RefineQueue, q) in s.terminated && s.terminated[(RefineQueue, q)] == if q < s.fragmented then 1 else 0
  }

  // A thread that has seen the end of its input: nothing can reach it any more.
  ghost predicate ThreadInv(n: nat, s: Net, stage: Stage, t: nat) {
    && (stage, t) in s.phase
    && (s.phase[(stage, t)] != Working ==>
          && IsTerminated(n, s, InputOf(stage), QueueOf(t))
          && Nothing(s, Queued(InputOf(stage), QueueOf(t)))
          && Nothing(s, Received(stage, t)))
    && (s.phase[(stage, t)] == Done ==> forall level :: Nothing(s, ToSend(stage, t, level)))
  }

  ghost predicate Inv(n: nat, s: Net) {
    && (forall id :: id in s.place ==> Placed(n, s.place[id]))
    && s.fragmented <= NQueues(n) && (s.fragmented > 0 ==> Nothing(s, Source))
    && (forall stage, q: nat :: q < NQueues(n) ==> QueueInv(n, s, stage, q))
    && (forall stage, t: nat :: t < n ==> ThreadInv(n, s, stage, t))
  }

  lemma QueueOfBound(n: nat, t: nat)
    requires t < n
    ensures QueueOf(t) < NQueues(n) && t in Threads(n, QueueOf(t))
  {
  }

  // A queue is terminated exactly when all the threads counted for it are done.
  lemma TerminatedIff(n: nat, s: Net, stage: Stage, q: nat)
    requires Inv(n, s) && q < NQueues(n)
    ensures IsTerminated(n, s, OutputOf(stage), q) <==> DoneAt(n, s, stage, q) == Threads(n, q)
    ensures |DoneAt(n, s, stage, q)| <= ThreadsPerQueue(n, q)
  {
    ProducerCount(n, q);
    assert QueueInv(n, s, stage, q);
    assert DoneAt(n, s, stage, q) <= Threads(n, q);
    SubsetSize(DoneAt(n, s, stage, q), Threads(n, q));
    if |DoneAt(n, s, stage, q)| == |Threads(n, q)| {
      SubsetEqual(DoneAt(n, s, stage, q), Threads(n, q));
    }
  }

  /** No thread ever puts a chunk into a terminated queue. */
  lemma EnqueueSafe(n: nat, s: Net, stage: Stage, t: nat, level: Level, ids: set<Id>, s': Net)
    requires Inv(n, s) && Next(n, s, Enqueue(stage, t, level, ids), s')
    ensures !IsTerminated(n, s, level, QueueOf(t))
  {
    var q := QueueOf(t);
    QueueOfBound(n, t);
    TerminatedIff(n, s, stage, q);
    assert t !in DoneAt(n, s, stage, q);
    var id :| id in ids;
    assert Placed(n, s.place[id]);
    if level != OutputOf(stage) {
      // a duplicate: the Compress thread with the same number is not done either
      assert stage == Dedup && level == ReorderQueue;
      TerminatedIff(n, s, Compress, q);
      assert ThreadInv(n, s, Compress, t);
      assert OutputOf(Compress) == ReorderQueue && InputOf(Compress) == OutputOf(Dedup);
    }
  }

  /* ---------- every step keeps the invariant ---------- */

  // Moving chunks to a place that no finished thread looks at.
  lemma MoveInv(n: nat, s: Net, ids: set<Id>, p: Place)
    requires Inv(n, s) && Placed(n, p) && p != Source
    requires forall stage, t: nat :: t < n && (stage, t) in s.phase && s.phase[(stage, t)] != Working ==>
      p != Queued(InputOf(stage), QueueOf(t)) && p != Received(stage, t)
    requires forall stage, t: nat, level :: t < n && (stage, t) in s.phase && s.phase[(stage, t)] == Done ==>
      p != ToSend(stage, t, level)
    ensures Inv(n, Move(s, ids, p))
  {
    var s' := Move(s, ids, p);
    forall stage, q: nat | q < NQueues(n) ensures QueueInv(n, s', stage, q) {
      assert QueueInv(n, s, stage, q) && DoneAt(n, s', stage, q) == DoneAt(n, s, stage, q);
    }
    forall stage, t: nat | t < n ensures ThreadInv(n, s', stage, t) {
      assert ThreadInv(n, s, stage, t);
    }
  }

  lemma SendInv(n: nat, s: Net, ids: set<Id>, q: nat, s': Net)
    requires Inv(n, s) && Next(n, s, Send(ids, q), s')
    ensures Inv(n, s')
  {
    forall stage, t: nat | t < n && (stage, t) in s.phase && s.phase[(stage, t)] != Working
      ensures Queued(RefineQueue, q) != Queued(InputOf(stage), QueueOf(t))
    {
      assert ThreadInv(n, s, stage, t) && QueueInv(n, s, stage, q);
    }
    MoveInv(n, s, ids, Queued(RefineQueue, q));
  }

  lemma EnqueueInv(n: nat, s: Net, stage: Stage, t: nat, level: Level, ids: set<Id>, s': Net)
    requires Inv(n, s) && Next(n, s, Enqueue(stage, t, level, ids), s')
    ensures Inv(n, s')
  {
    EnqueueSafe(n, s, stage, t, level, ids, s');
    QueueOfBound(n, t);
    forall st, u: nat | u < n && (st, u) in s.phase && s.phase[(st, u)] != Working
      ensures Queued(level, QueueOf(t)) != Queued(InputOf(st), QueueOf(u))
    {
      assert ThreadInv(n, s, st, u);
    }
    MoveInv(n, s, ids, Queued(level, QueueOf(t)));
  }

  lemma EndInputInv(n: nat, s: Net, s': Net)
    requires Inv(n, s) && Next(n, s, EndInput, s')
    ensures Inv(n, s')
  {
    forall stage, q: nat | q < NQueues(n) ensures QueueInv(n, s', stage, q) {
      assert QueueInv(n, s, stage, q) && DoneAt(n, s', stage, q) == DoneAt(n, s, stage, q);
    }
    forall stage, t: nat | t < n ensures ThreadInv(n, s', stage, t) {
      QueueOfBound(n, t);
      assert ThreadInv(n, s, stage, t) && QueueInv(n, s, stage, s.fragmented);
    }
  }

  lemma SeeEndInv(n: nat, s: Net, stage: Stage, t: nat, s': Net)
    requires Inv(n, s) && Next(n, s, SeeEnd(stage, t), s')
    ensures Inv(n, s')
  {
    forall st, q: nat | q < NQueues(n) ensures QueueInv(n, s', st, q) {
      assert QueueInv(n, s, st, q) && DoneAt(n, s', st, q) == DoneAt(n, s, st, q);
    }
    forall st, u: nat | u < n ensures ThreadInv(n, s', st, u) {
      assert ThreadInv(n, s, st, u);
    }
  }

  // Another thread is done, and nothing else changes.
  ghost predicate OneMoreDone(s: Net, s': Net, stage: Stage, t: nat) {
    s'.phase == s.phase[(stage, t) := Done]
  }

  lemma DoneMore(n: nat, s: Net, s': Net, stage: Stage, t: nat)
    requires OneMoreDone(s, s', stage, t) && t < n && t !in DoneAt(n, s, stage, QueueOf(t))
    ensures |DoneAt(n, s', stage, QueueOf(t))| == |DoneAt(n, s, stage, QueueOf(t))| + 1
  {
    assert DoneAt(n, s', stage, QueueOf(t)) == DoneAt(n, s, stage, QueueOf(t)) + {t};
  }

  lemma DoneElsewhere(n: nat, s: Net, s': Net, stage: Stage, t: nat, st: Stage, q: nat)
    requires OneMoreDone(s, s', stage, t) && (st != stage || q != QueueOf(t))
    ensures DoneAt(n, s', st, q) == DoneAt(n, s, st, q)
  {
  }

  lemma TerminateCounts(n: nat, s: Net, stage: Stage, t: nat, s': Net, st: Stage, q: nat)
    requires Inv(n, s) && Next(n, s, Terminate(stage, t), s') && q < NQueues(n)
    ensures QueueInv(n, s', st, q)
  {
    assert QueueInv(n, s, st, q);
    assert t !in DoneAt(n, s, stage, QueueOf(t));
    if st == stage && q == QueueOf(t) { DoneMore(n, s, s', stage, t); } else { DoneElsewhere(n, s, s', stage, t, st, q); }
  }

  // A terminated queue stays terminated: the thread that ends was not counted yet.
  lemma TerminateThreads(n: nat, s: Net, stage: Stage, t: nat, s': Net, st: Stage, u: nat)
    requires Inv(n, s) && Next(n, s, Terminate(stage, t), s') && u < n
    ensures ThreadInv(n, s', st, u)
  {
    QueueOfBound(n, t);
    TerminatedIff(n, s, stage, QueueOf(t));
    assert t !in DoneAt(n, s, stage, QueueOf(t));
    assert ThreadInv(n, s, st, u);
    assert ThreadInv(n, s, stage, t);
  }

  lemma TerminateInv(n: nat, s: Net, stage: Stage, t: nat, s': Net)
    requires Inv(n, s) && Next(n, s, Terminate(stage, t), s')
    ensures Inv(n, s')
  {
    forall st, q: nat | q < NQueues(n) ensures QueueInv(n, s', st, q) {
      TerminateCounts(n, s, stage, t, s', st, q);
    }
    forall st, u: nat | u < n ensures ThreadInv(n, s', st, u) {
      TerminateThreads(n, s, stage, t, s', st, u);
    }
  }

  lemma NextInv(n: nat, s: Net, e: Step, s': Net)
    requires Inv(n, s) && Next(n, s, e, s')
    ensures Inv(n, s')
  {
    match e
    case Send(ids, q) => SendInv(n, s, ids, q, s');
    case EndInput => EndInputInv(n, s, s');
    case Dequeue(stage, t, ids) => MoveInv(n, s, ids, Received(stage, t));
    case Process(stage, t, id, dup) => MoveInv(n, s, {id}, ToSend(stage, t, Target(stage, dup)));
    case Enqueue(stage, t, level, ids) => EnqueueInv(n, s, stage, t, level, ids, s');
    case SeeEnd(stage, t) => SeeEndInv(n, s, stage, t, s');
    case Terminate(stage, t) => TerminateInv(n, s, stage, t, s');
    case Fetch(ids) =>
      MoveInv(n, s, ids, Written);
      ReorderInv(n, Move(s, ids, Written), s'.reorder);
    case Miss => ReorderInv(n, s, s'.reorder);
  }

  // None of it is about the scan.
  lemma ReorderInv(n: nat, s: Net, scan: Scan)
    requires Inv(n, s)
    ensures Inv(n, s.(reorder := scan))
  {
    var s' := s.(reorder := scan);
    forall stage, q: nat | q < NQueues(n) ensures QueueInv(n, s', stage, q) {
      assert QueueInv(n, s, stage, q) && DoneAt(n, s', stage, q) == DoneAt(n, s, stage, q);
    }
    forall stage, t: nat | t < n ensures ThreadInv(n, s', stage, t) {
      assert ThreadInv(n, s, stage, t);
    }
  }

  /* ---------- the scan of Reorder ---------- */

  // The queues that have told their end in a row are over, although they were asked one by one.
  ghost predicate ScanInv(n: nat, s: Net) {
    var r := s.reorder;
    && r.seen <= NQueues(n) && r.first < NQueues(n) && r.qid == Around(n, r.first, r.seen)
    && (r.stopped ==> r.seen == NQueues(n)) && (!r.stopped ==> r.seen < NQueues(n))
    && forall j: nat :: j < r.seen ==> OverAt(n, s, r.first, j)
  }

  // The queue j places after the first.
  function Around(n: nat, first: nat, j: nat): int {
    if first + j < NQueues(n) then first + j else first + j - NQueues(n)
  }

  ghost predicate OverAt(n: nat, s: Net, first: nat, j: nat) {
    Around(n, first, j) >= 0 && Over(n, s, Around(n, first, j))
  }

  /** A reorder queue that is over stays over. */
  lemma OverStays(n: nat, s: Net, e: Step, s': Net, q: nat)
    requires Inv(n, s) && Next(n, s, e, s') && q < NQueues(n) && Over(n, s, q)
    ensures Over(n, s', q)
  {
    match e
    case Enqueue(stage, t, level, ids) => EnqueueSafe(n, s, stage, t, level, ids, s');
    case Terminate(stage, t) =>
      TerminatedIff(n, s, Compress, q);
      QueueOfBound(n, t);
      assert stage == Compress && QueueOf(t) == q ==> t in DoneAt(n, s, Compress, q);
    case EndInput =>
    case _ =>
  }

  lemma NextQueue(n: nat, first: nat, seen: nat)
    requires first < NQueues(n) && seen < NQueues(n)
    ensures 0 <= Around(n, first, seen) < NQueues(n)
    ensures After(n, Around(n, first, seen)) == Around(n, first, seen + 1)
  {
    var m, qid := NQueues(n), Around(n, first, seen);
    if qid + 1 < m { assert (qid + 1) % m == qid + 1; } else { assert m % m == 0; }
  }

  lemma StillOver(n: nat, s: Net, e: Step, s': Net, first: nat, j: nat)
    requires Inv(n, s) && Next(n, s, e, s') && first < NQueues(n) && j < NQueues(n) && OverAt(n, s, first, j)
    ensures OverAt(n, s', first, j)
  {
    OverStays(n, s, e, s', Around(n, first, j));
  }

  lemma NextScan(n: nat, s: Net, e: Step, s': Net)
    requires Inv(n, s) && ScanInv(n, s) && Next(n, s, e, s')
    ensures ScanInv(n, s')
  {
    var r := s.reorder;
    forall j: nat | j < r.seen ensures OverAt(n, s', r.first, j) {
      assert OverAt(n, s, r.first, j);
      StillOver(n, s, e, s', r.first, j);
    }
    if e.Miss? { MissScan(n, s, s'); }
    if e.Fetch? { NextQueue(n, r.first, r.seen); }
  }

  lemma MissScan(n: nat, s: Net, s': Net)
    requires Inv(n, s) && ScanInv(n, s) && Next(n, s, Miss, s')
    requires forall j: nat :: j < s.reorder.seen ==> OverAt(n, s', s.reorder.first, j)
    ensures ScanInv(n, s')
  {
    var r := s.reorder;
    NextQueue(n, r.first, r.seen);
    StillOver(n, s, Miss, s', r.first, r.seen);
  }

  /* ---------- the end ---------- */

  ghost predicate ReorderEnds(n: nat, s: Net) {
    forall q: nat :: q < NQueues(n) ==> Over(n, s, q)
  }

  /** Once Reorder has left its loop, every reorder queue is over. */
  lemma ScanEnds(n: nat, s: Net)
    requires ScanInv(n, s) && s.reorder.stopped
    ensures ReorderEnds(n, s)
  {
    forall q: nat | q < NQueues(n) ensures Over(n, s, q) {
      var first := s.reorder.first;
      var j := if q >= first then q - first else q + NQueues(n) - first;
      assert OverAt(n, s, first, j);
    }
  }

  // If the output of a stage is terminated, its threads are done and its input was too.
  lemma StageDone(n: nat, s: Net, stage: Stage, t: nat)
    requires Inv(n, s) && t < n && IsTerminated(n, s, OutputOf(stage), QueueOf(t))
    ensures (stage, t) in s.phase && s.phase[(stage, t)] == Done
    ensures IsTerminated(n, s, InputOf(stage), QueueOf(t)) && Nothing(s, Queued(InputOf(stage), QueueOf(t)))
    ensures Nothing(s, Received(stage, t)) && forall level :: Nothing(s, ToSend(stage, t, level))
  {
    QueueOfBound(n, t);
    TerminatedIff(n, s, stage, QueueOf(t));
    assert t in DoneAt(n, s, stage, QueueOf(t));
    assert ThreadInv(n, s, stage, t);
  }

  lemma AllDone(n: nat, s: Net, t: nat)
    requires Inv(n, s) && ReorderEnds(n, s) && t < n
    ensures forall stage :: Nothing(s, Received(stage, t))
    ensures forall stage, level :: Nothing(s, ToSend(stage, t, level))
    ensures forall level :: Nothing(s, Queued(level, QueueOf(t)))
    ensures s.fragmented > 0
  {
    QueueOfBound(n, t);
    assert Over(n, s, QueueOf(t));
    StageDone(n, s, Compress, t);
    StageDone(n, s, Dedup, t);
    StageDone(n, s, Refine, t);
    assert QueueInv(n, s, Refine, QueueOf(t));
    forall stage ensures Nothing(s, Received(stage, t)) && forall level :: Nothing(s, ToSend(stage, t, level)) {
      match stage case Refine => case Dedup => case Compress =>
    }
    forall level ensures Nothing(s, Queued(level, QueueOf(t))) {
      match level case RefineQueue => case DedupQueue => case CompressQueue => case ReorderQueue =>
    }
  }

  /** When Reorder stops, every chunk has reached it. */
  lemma AllWritten(n: nat, s: Net, id: Id)
    requires n > 0 && Inv(n, s) && ScanInv(n, s) && s.reorder.stopped && id in s.place
    ensures s.place[id] == Written
  {
    ScanEnds(n, s);
    AllDone(n, s, 0);
    assert Placed(n, s.place[id]);
    match s.place[id]
    case Source =>
    case Queued(level, q) =>
      ProducerCount(n, q);
      AllDone(n, s, MAX_THREADS_PER_QUEUE * q);
    case Received(stage, t) => AllDone(n, s, t);
    case ToSend(stage, t, level) => AllDone(n, s, t);
    case Written =>
  }

  ghost predicate Init(n: nat, s: Net) {
    && (forall id :: id in s.place ==> s.place[id] == Source) && s.fragmented == 0
    && (forall level, q: nat :: q < NQueues(n) ==> (level, q) in s.terminated && s.terminated[(level, q)] == 0)
    && (forall stage, t: nat :: t < n ==> (stage, t) in s.phase && s.phase[(stage, t)] == Working)
    && s.reorder == Scan(0, 0, false, 0)
  }

  lemma InitInv(n: nat, s: Net)
    requires Init(n, s)
    ensures Inv(n, s)
  {
    forall stage, q: nat | q < NQueues(n) ensures QueueInv(n, s, stage, q) {
      assert DoneAt(n, s, stage, q) == {};
    }
  }

  ghost predicate IsRun(n: nat, ss: seq<Net>, es: seq<Step>) {
    |ss| == |es| + 1 && Init(n, ss[0]) && forall k :: 0 <= k < |es| ==> StepsAt(n, ss, es, k)
  }

  ghost predicate StepsAt(n: nat, ss: seq<Net>, es: seq<Step>, k: int)
    requires |ss| == |es| + 1 && 0 <= k < |es|
  {
    Next(n, ss[k], es[k], ss[k + 1])
  }

  lemma {:induction false} RunInv(n: nat, ss: seq<Net>, es: seq<Step>, k: nat)
    requires n > 0 && IsRun(n, ss, es) && k < |ss|
    ensures Inv(n, ss[k]) && ScanInv(n, ss[k]) && ss[k].place.Keys == ss[0].place.Keys
  {
    if k == 0 {
      InitInv(n, ss[0]);
    } else {
      RunInv(n, ss, es, k - 1);
      assert StepsAt(n, ss, es, k - 1);
      NextInv(n, ss[k - 1], es[k - 1], ss[k]);
      NextScan(n, ss[k - 1], es[k - 1], ss[k]);
      KeysKept(n, ss[k - 1], es[k - 1], ss[k]);
    }
  }

  // No chunk appears or disappears.
  lemma KeysKept(n: nat, s: Net, e: Step, s': Net)
    requires Next(n, s, e, s')
    ensures s'.place.Keys == s.place.Keys
  {
  }

  /** In every run: no enqueue ever hits a terminated queue, and once Reorder has left its loop
      every chunk of the input has reached it. */
  lemma Shutdown(n: nat, ss: seq<Net>, es: seq<Step>, k: nat)
    requires n > 0 && IsRun(n, ss, es) && k < |ss|
    ensures k < |es| && es[k].Enqueue? ==> !IsTerminated(n, ss[k], es[k].level, QueueOf(es[k].tid))
    ensures ss[k].reorder.stopped ==> forall id :: id in ss[0].place ==> id in ss[k].place && ss[k].place[id] == Written
  {
    RunInv(n, ss, es, k);
    if k < |es| && es[k].Enqueue? {
      assert StepsAt(n, ss, es, k);
      EnqueueSafe(n, ss[k], es[k].stage, es[k].tid, es[k].level, es[k].ids, ss[k + 1]);
    }
    if ss[k].reorder.stopped {
      forall id | id in ss[k].place ensures ss[k].place[id] == Written { AllWritten(n, ss[k], id); }
    }
  }

  /* ---------- every run ends ---------- */

  // How many places a chunk has still to pass, at most.
  function Rank(p: Place): nat {
    match p
    case Source => 11
    case Queued(level, _) =>
      (match level case RefineQueue => 10 case DedupQueue => 7 case CompressQueue => 4 case ReorderQueue => 1)
    case Received(stage, _) => (match stage case Refine => 9 case Dedup => 6 case Compress => 3)
    case ToSend(stage, _, _) => (match stage case Refine => 8 case Dedup => 5 case Compress => 2)
    case Written => 0
  }

  ghost function Ranks(s: Net): map<Id, int> {
    map id | id in s.place :: Rank(s.place[id])
  }

  function PhasesLeft(p: Phase): nat {
    match p case Working => 2 case Draining => 1 case Done => 0
  }

  ghost function Phases(s: Net): map<(Stage, nat), int> {
    map t | t in s.phase :: PhasesLeft(s.phase[t])
  }

  ghost function ChunksLeft(s: Net): int {
    Sum(Ranks(s), Ranks(s).Keys)
  }

  ghost function ThreadsLeft(s: Net): int {
    Sum(Phases(s), Phases(s).Keys)
  }

  // A row of the scan may start again after each chunk, so chunks weigh more than a row.
  ghost function Measure(n: nat, s: Net): int {
    (NQueues(n) + 1) * ChunksLeft(s) + ThreadsLeft(s) + (NQueues(n) - s.fragmented) + (NQueues(n) - s.reorder.seen)
  }

  lemma MovedLess(s: Net, ids: set<Id>, from: Place, p: Place, s': Net)
    requires AllAt(s, ids, from) && Rank(p) < Rank(from) && s'.place == Move(s, ids, p).place
    ensures ChunksLeft(s') < ChunksLeft(s)
  {
    var id :| id in ids;
    assert Ranks(s').Keys == Ranks(s).Keys;
    SumLess(Ranks(s'), Ranks(s), Ranks(s).Keys, id);
  }

  lemma PhaseLess(s: Net, t: (Stage, nat), p: Phase, s': Net)
    requires t in s.phase && PhasesLeft(p) < PhasesLeft(s.phase[t]) && s'.phase == s.phase[t := p]
    ensures ThreadsLeft(s') < ThreadsLeft(s)
  {
    assert Phases(s').Keys == Phases(s).Keys;
    SumLess(Phases(s'), Phases(s), Phases(s).Keys, t);
  }

  lemma {:induction false} Weighed(w: nat, x: int, y: int)
    requires x < y
    ensures w * x + w <= w * y
  {
    if w > 0 {
      Weighed(w - 1, x, y);
      assert w * x == (w - 1) * x + x && w * y == (w - 1) * y + y;
    }
  }

  // Every move of chunks is to a later place.
  lemma ChunkStep(n: nat, s: Net, e: Step, s': Net)
    requires Inv(n, s) && Next(n, s, e, s') && (e.Send? || e.Dequeue? || e.Process? || e.Enqueue? || e.Fetch?)
    ensures ChunksLeft(s') < ChunksLeft(s)
  {
    match e
    case Send(ids, q) => MovedLess(s, ids, Source, Queued(RefineQueue, q), s');
    case Dequeue(stage, t, ids) => MovedLess(s, ids, Queued(InputOf(stage), QueueOf(t)), Received(stage, t), s');
    case Process(stage, t, id, dup) => MovedLess(s, {id}, Received(stage, t), ToSend(stage, t, Target(stage, dup)), s');
    case Enqueue(stage, t, level, ids) =>
      var id :| id in ids;
      assert Placed(n, s.place[id]);
      MovedLess(s, ids, ToSend(stage, t, level), Queued(level, QueueOf(t)), s');
    case Fetch(ids) => MovedLess(s, ids, Queued(ReorderQueue, s.reorder.qid), Written, s');
  }

  lemma ChunkShrinks(n: nat, s: Net, e: Step, s': Net)
    requires Inv(n, s) && ScanInv(n, s) && Next(n, s, e, s')
    requires e.Send? || e.Dequeue? || e.Process? || e.Enqueue? || e.Fetch?
    ensures Measure(n, s') < Measure(n, s)
  {
    ChunkStep(n, s, e, s');
    Weighed(NQueues(n) + 1, ChunksLeft(s'), ChunksLeft(s));
    assert Phases(s') == Phases(s);
  }

  lemma ThreadShrinks(n: nat, s: Net, t: (Stage, nat), p: Phase, s': Net)
    requires t in s.phase && PhasesLeft(p) < PhasesLeft(s.phase[t]) && s'.phase == s.phase[t := p]
    requires s'.place == s.place && s'.fragmented == s.fragmented && s'.reorder == s.reorder
    ensures Measure(n, s') < Measure(n, s)
  {
    PhaseLess(s, t, p, s');
    assert Ranks(s') == Ranks(s);
  }

  /** Every step lowers the measure. */
  lemma StepShrinks(n: nat, s: Net, e: Step, s': Net)
    requires Inv(n, s) && ScanInv(n, s) && Next(n, s, e, s')
    ensures Measure(n, s') < Measure(n, s)
  {
    match e
    case EndInput => assert Ranks(s') == Ranks(s) && Phases(s') == Phases(s);
    case Miss => assert Ranks(s') == Ranks(s) && Phases(s') == Phases(s);
    case SeeEnd(stage, t) => ThreadShrinks(n, s, (stage, t), Draining, s');
    case Terminate(stage, t) => ThreadShrinks(n, s, (stage, t), Phase.Done, s');
    case _ => ChunkShrinks(n, s, e, s');
  }

  lemma MeasureNatural(n: nat, s: Net)
    requires Inv(n, s) && ScanInv(n, s)
    ensures Measure(n, s) >= 0
  {
    SumNatural(Ranks(s), Ranks(s).Keys);
    SumNatural(Phases(s), Phases(s).Keys);
    assert (NQueues(n) + 1) * ChunksLeft(s) >= 0;
  }

  lemma {:induction false} RunBound(n: nat, ss: seq<Net>, es: seq<Step>, k: nat)
    requires n > 0 && IsRun(n, ss, es) && k < |ss|
    ensures Measure(n, ss[k]) <= Measure(n, ss[0]) - k
  {
    if k > 0 {
      RunBound(n, ss, es, k - 1);
      RunInv(n, ss, es, k - 1);
      assert StepsAt(n, ss, es, k - 1);
      StepShrinks(n, ss[k - 1], es[k - 1], ss[k]);
    }
  }

  /* ---------- and it ends with everything written ---------- */

  // The chunk has reached Reorder or its queue.
  predicate Late(p: Place) {
    p == Written || (p.Queued? && p.level == ReorderQueue)
  }

  // A chunk anywhere else can be moved on, or the thread in its way can.
  lemma ChunkProgress(n: nat, s: Net, id: Id) returns (e: Step, s': Net)
    requires n > 0 && Inv(n, s) && id in s.place && !Late(s.place[id])
    ensures Next(n, s, e, s')
  {
    assert Placed(n, s.place[id]);
    match s.place[id]
    case Source => e, s' := Send({id}, 0), Move(s, {id}, Queued(RefineQueue, 0));
    case Received(stage, t) => e, s' := ReceivedProgress(n, s, stage, t, id);
    case ToSend(stage, t, level) =>
      assert ThreadInv(n, s, stage, t);
      e, s' := Enqueue(stage, t, level, {id}), Move(s, {id}, Queued(level, QueueOf(t)));
    case Queued(level, q) =>
      ProducerCount(n, q);
      var stage := match level case RefineQueue => Refine case DedupQueue => Dedup case _ => Compress;
      var t := MAX_THREADS_PER_QUEUE * q;
      assert ThreadInv(n, s, stage, t);
      if other :| other in s.place && s.place[other] == Received(stage, t) {
        e, s' := ReceivedProgress(n, s, stage, t, other);
      } else {
        e, s' := Dequeue(stage, t, {id}), Move(s, {id}, Received(stage, t));
      }
  }

  lemma ReceivedProgress(n: nat, s: Net, stage: Stage, t: nat, id: Id) returns (e: Step, s': Net)
    requires Inv(n, s) && t < n && id in s.place && s.place[id] == Received(stage, t)
    ensures Next(n, s, e, s')
  {
    assert ThreadInv(n, s, stage, t);
    e, s' := Process(stage, t, id, false), Move(s, {id}, ToSend(stage, t, Target(stage, false)));
  }

  // The first stage with a thread that is not done can go on: all its queues are terminated.
  lemma ThreadProgress(n: nat, s: Net, stage: Stage, t: nat) returns (e: Step, s': Net)
    requires Inv(n, s) && t < n && (stage, t) in s.phase && s.phase[(stage, t)] != Phase.Done
    requires (forall id :: id in s.place ==> Late(s.place[id])) && IsTerminated(n, s, InputOf(stage), QueueOf(t))
    ensures Next(n, s, e, s')
  {
    QueueOfBound(n, t);
    assert QueueInv(n, s, stage, QueueOf(t));
    if s.phase[(stage, t)] == Working {
      e, s' := SeeEnd(stage, t), s.(phase := s.phase[(stage, t) := Draining]);
    } else {
      var q := (OutputOf(stage), QueueOf(t));
      e := Terminate(stage, t);
      s' := s.(phase := s.phase[(stage, t) := Phase.Done], terminated := s.terminated[q := s.terminated[q] + 1]);
    }
  }

  ghost predicate AllTerminated(n: nat, s: Net, level: Level) {
    forall q: nat :: q < NQueues(n) ==> IsTerminated(n, s, level, q)
  }

  ghost predicate AllDoneAt(n: nat, s: Net, stage: Stage) {
    forall t: nat :: t < n ==> (stage, t) in s.phase && s.phase[(stage, t)] == Phase.Done
  }

  lemma OutputTerminated(n: nat, s: Net, stage: Stage, q: nat)
    requires Inv(n, s) && q < NQueues(n) && AllDoneAt(n, s, stage)
    ensures IsTerminated(n, s, OutputOf(stage), q)
  {
    TerminatedIff(n, s, stage, q);
    assert DoneAt(n, s, stage, q) == Threads(n, q);
  }

  // A stage whose input is terminated is done, or can go on.
  lemma StageProgress(n: nat, s: Net, stage: Stage) returns (e: Step, s': Net)
    requires Inv(n, s) && !AllDoneAt(n, s, stage)
    requires (forall id :: id in s.place ==> Late(s.place[id]))
    requires AllTerminated(n, s, InputOf(stage))
    ensures Next(n, s, e, s')
  {
    var t: nat :| t < n && !((stage, t) in s.phase && s.phase[(stage, t)] == Phase.Done);
    assert ThreadInv(n, s, stage, t);
    QueueOfBound(n, t);
    e, s' := ThreadProgress(n, s, stage, t);
  }

  lemma AfterStage(n: nat, s: Net, stage: Stage)
    requires Inv(n, s) && AllDoneAt(n, s, stage)
    ensures AllTerminated(n, s, OutputOf(stage))
  {
    forall q: nat | q < NQueues(n) ensures IsTerminated(n, s, OutputOf(stage), q) { OutputTerminated(n, s, stage, q); }
  }

  // When all threads are done, the scan goes on.
  lemma ScanProgress(n: nat, s: Net) returns (e: Step, s': Net)
    requires n > 0 && Inv(n, s) && ScanInv(n, s) && !s.reorder.stopped && AllDoneAt(n, s, Compress)
    ensures Next(n, s, e, s')
  {
    var q, next := s.reorder.qid, After(n, s.reorder.qid);
    NextQueue(n, s.reorder.first, s.reorder.seen);
    OutputTerminated(n, s, Compress, q);
    if id :| id in s.place && s.place[id] == Queued(ReorderQueue, q) {
      e, s' := Fetch({id}), Move(s, {id}, Written).(reorder := Scan(next, 0, false, next));
    } else {
      e := Miss;
      s' := s.(reorder := Scan(next, s.reorder.seen + 1, s.reorder.seen + 1 == NQueues(n), s.reorder.first));
    }
  }

  /** Until Reorder has left its loop some step is possible. */
  lemma Progress(n: nat, s: Net) returns (e: Step, s': Net)
    requires n > 0 && Inv(n, s) && ScanInv(n, s) && !s.reorder.stopped
    ensures Next(n, s, e, s')
  {
    if id :| id in s.place && !Late(s.place[id]) {
      e, s' := ChunkProgress(n, s, id);
    } else if s.fragmented < NQueues(n) {
      assert QueueInv(n, s, Refine, s.fragmented);
      var q := (RefineQueue, s.fragmented);
      e, s' := EndInput, s.(terminated := s.terminated[q := s.terminated[q] + 1], fragmented := s.fragmented + 1);
    } else {
      forall q: nat | q < NQueues(n) ensures IsTerminated(n, s, RefineQueue, q) { assert QueueInv(n, s, Refine, q); }
      e, s' := StagesProgress(n, s);
    }
  }

  lemma StagesProgress(n: nat, s: Net) returns (e: Step, s': Net)
    requires n > 0 && Inv(n, s) && ScanInv(n, s) && !s.reorder.stopped
    requires (forall id :: id in s.place ==> Late(s.place[id]))
    requires AllTerminated(n, s, RefineQueue)
    ensures Next(n, s, e, s')
  {
    if !AllDoneAt(n, s, Refine) {
      e, s' := StageProgress(n, s, Refine);
    } else {
      AfterStage(n, s, Refine);
      assert AllTerminated(n, s, InputOf(Dedup));
      if !AllDoneAt(n, s, Dedup) {
        e, s' := StageProgress(n, s, Dedup);
      } else {
        AfterStage(n, s, Dedup);
        assert AllTerminated(n, s, InputOf(Compress));
        if !AllDoneAt(n, s, Compress) { e, s' := StageProgress(n, s, Compress); } else { e, s' := ScanProgress(n, s); }
      }
    }
  }

  /** Every run ends: it has no more steps than the measure of its first state, and when no step
      is left Reorder has left its loop and has got every chunk. */
  lemma ShutdownComes(n: nat, ss: seq<Net>, es: seq<Step>)
    requires n > 0 && IsRun(n, ss, es)
    ensures |es| <= Measure(n, ss[0])
    ensures (exists e, s' :: Next(n, ss[|es|], e, s')) ||
      (ss[|es|].reorder.stopped && forall id :: id in ss[0].place ==> id in ss[|es|].place && ss[|es|].place[id] == Written)
  {
    RunBound(n, ss, es, |es|);
    RunInv(n, ss, es, |es|);
    MeasureNatural(n, ss[|es|]);
    if ss[|es|].reorder.stopped {
      Shutdown(n, ss, es, |es|);
    } else {
      var e, s' := Progress(n, ss[|es|]);
    }
  }
}

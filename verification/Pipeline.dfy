/** The running network: a queue of bounded capacity in front of each stage and one behind
    the last, and a worker for each stage.  A step is one pop, one push or one close. */
module Pipeline {
  import opened Stages

  datatype Worker<V> = Running(todo: seq<V>) | Done

  datatype Net<V> = Net(
    queue: seq<seq<V>>,
    closed: seq<bool>,
    worker: seq<Worker<V>>,
    input: seq<V>,
    delivered: seq<V>)

  datatype Step = Feed | CloseInput | Pop(i: nat) | Push(i: nat) | Finish(i: nat) | Deliver

  ghost predicate Sized<V>(fs: seq<V -> seq<V>>, caps: seq<nat>, s: Net<V>) {
    && |s.worker| == |fs| && |s.queue| == |fs| + 1 && |s.closed| == |fs| + 1 && |caps| == |fs| + 1
    && forall k :: 0 <= k < |caps| ==> caps[k] >= 1
  }

  ghost predicate Idle<V>(fs: seq<V -> seq<V>>, s: Net<V>, k: int)
    requires |s.worker| == |fs| && |s.queue| == |fs| + 1 && |s.closed| == |fs| + 1 && 0 <= k <= |fs|
  {
    s.queue[k] == [] && !s.closed[k] && (k < |fs| ==> s.worker[k] == Running([]))
  }

  ghost predicate Init<V>(fs: seq<V -> seq<V>>, caps: seq<nat>, input: seq<V>, s: Net<V>) {
    && Sized(fs, caps, s) && s.input == input && s.delivered == []
    && forall k :: 0 <= k <= |fs| ==> Idle(fs, s, k)
  }

  ghost predicate Enabled<V>(fs: seq<V -> seq<V>>, caps: seq<nat>, s: Net<V>, e: Step)
    requires Sized(fs, caps, s)
  {
    match e
    case Feed => s.input != [] && |s.queue[0]| < caps[0] && !s.closed[0]
    case CloseInput => s.input == [] && !s.closed[0]
    case Pop(i) => i < |fs| && s.worker[i] == Running([]) && s.queue[i] != []
    case Push(i) => i < |fs| && s.worker[i].Running? && s.worker[i].todo != [] && |s.queue[i + 1]| < caps[i + 1]
    case Finish(i) => i < |fs| && s.worker[i] == Running([]) && s.queue[i] == [] && s.closed[i]
    case Deliver => s.queue[|fs|] != []
  }

  function Do<V>(fs: seq<V -> seq<V>>, caps: seq<nat>, s: Net<V>, e: Step): Net<V>
    requires Sized(fs, caps, s) && Enabled(fs, caps, s, e)
  {
    match e
    case Feed => s.(queue := s.queue[0 := s.queue[0] + [s.input[0]]], input := s.input[1..])
    case CloseInput => s.(closed := s.closed[0 := true])
    case Pop(i) =>
      s.(queue := s.queue[i := s.queue[i][1..]], worker := s.worker[i := Running(fs[i](s.queue[i][0]))])
    case Push(i) =>
      var todo := s.worker[i].todo;
      s.(queue := s.queue[i + 1 := s.queue[i + 1] + [todo[0]]], worker := s.worker[i := Running(todo[1..])])
    case Finish(i) => s.(closed := s.closed[i + 1 := true], worker := s.worker[i := Done])
    case Deliver =>
      var n := |fs|;
      s.(queue := s.queue[n := s.queue[n][1..]], delivered := s.delivered + [s.queue[n][0]])
  }

  function Todo<V>(w: Worker<V>): seq<V> {
    if w.Running? then w.todo else []
  }

  // What the queues from k on and the workers behind them still owe the consumer, in order.
  ghost function Owed<V>(fs: seq<V -> seq<V>>, queue: seq<seq<V>>, worker: seq<Worker<V>>, k: nat): seq<V>
    requires |worker| == |fs| && |queue| == |fs| + 1 && k <= |fs|
    decreases |fs| - k
  {
    if k == |fs| then queue[k]
    else Owed(fs, queue, worker, k + 1) + From(fs, k + 1, Todo(worker[k])) + From(fs, k, queue[k])
  }

  ghost function Busy<V>(w: Worker<V>): nat {
    if w.Running? then 1 else 0
  }

  ghost function Left<V>(fs: seq<V -> seq<V>>, queue: seq<seq<V>>, worker: seq<Worker<V>>, k: nat): nat
    requires |worker| == |fs| && |queue| == |fs| + 1 && k <= |fs|
    decreases |fs| - k
  {
    if k == |fs| then |queue[k]| else
      Left(fs, queue, worker, k + 1) + |Todo(worker[k])| + Work(fs, k + 1, Todo(worker[k]))
      + Work(fs, k, queue[k]) + Busy(worker[k])
  }

  // The consumer's whole share, delivered or owed.
  ghost function Total<V>(fs: seq<V -> seq<V>>, s: Net<V>): seq<V>
    requires |s.worker| == |fs| && |s.queue| == |fs| + 1
  {
    s.delivered + Owed(fs, s.queue, s.worker, 0) + From(fs, 0, s.input)
  }

  // The exact number of steps still to be made.
  ghost function Measure<V>(fs: seq<V -> seq<V>>, s: Net<V>): nat
    requires |s.worker| == |fs| && |s.queue| == |fs| + 1 && |s.closed| == |fs| + 1
  {
    Left(fs, s.queue, s.worker, 0) + |s.input| + Work(fs, 0, s.input) + if s.closed[0] then 0 else 1
  }

  lemma Regroup<V>(a: seq<V>, b: seq<V>, c: seq<V>, d: seq<V>)
    ensures a + (b + c) + d == [] + ((a + b) + c + d)
    ensures a + [] + (b + c) == [] + (a + b + c)
    ensures a + (b + c) + d == (a + b) + (c + d)
    ensures a + (b + c) == a + b + c
    ensures (a + (b + c + d)) == a + b + c + d
  {
  }

  /* ---------- what a step changes ---------- */

  ghost predicate Fits<V>(fs: seq<V -> seq<V>>, q: seq<seq<V>>, w: seq<Worker<V>>) {
    |w| == |fs| && |q| == |fs| + 1
  }

  lemma {:induction false} SameBeyond<V>(fs: seq<V -> seq<V>>, q: seq<seq<V>>, w: seq<Worker<V>>,
                                         q': seq<seq<V>>, w': seq<Worker<V>>, k: nat)
    requires Fits(fs, q, w) && Fits(fs, q', w') && k <= |fs|
    requires forall j :: k <= j <= |fs| ==> q'[j] == q[j]
    requires forall j :: k <= j < |fs| ==> w'[j] == w[j]
    ensures Owed(fs, q', w', k) == Owed(fs, q, w, k) && Left(fs, q', w', k) == Left(fs, q, w, k)
    decreases |fs| - k
  {
    if k < |fs| {
      SameBeyond(fs, q, w, q', w', k + 1);
    }
  }

  // From k on the network has given up `given` and made d steps' worth of progress.
  ghost predicate Moved<V>(fs: seq<V -> seq<V>>, q: seq<seq<V>>, w: seq<Worker<V>>,
                           q': seq<seq<V>>, w': seq<Worker<V>>, k: nat, given: seq<V>, d: nat)
    requires Fits(fs, q, w) && Fits(fs, q', w') && k <= |fs|
  {
    Owed(fs, q, w, k) == given + Owed(fs, q', w', k) && Left(fs, q, w, k) == d + Left(fs, q', w', k)
  }

  lemma {:induction false} MovedBelow<V>(fs: seq<V -> seq<V>>, q: seq<seq<V>>, w: seq<Worker<V>>,
                                         q': seq<seq<V>>, w': seq<Worker<V>>, k: nat, given: seq<V>, d: nat)
    requires Fits(fs, q, w) && Fits(fs, q', w') && k <= |fs| && Moved(fs, q, w, q', w', k, given, d)
    requires forall j :: 0 <= j < k ==> q'[j] == q[j] && w'[j] == w[j]
    ensures Moved(fs, q, w, q', w', 0, given, d)
  {
    if k > 0 {
      var i := k - 1;
      Regroup(given, Owed(fs, q', w', k), From(fs, k, Todo(w[i])), From(fs, i, q[i]));
      MovedBelow(fs, q, w, q', w', i, given, d);
    }
  }

  // At queue i and the worker behind it.
  lemma PopHere<V>(fs: seq<V -> seq<V>>, q: seq<seq<V>>, w: seq<Worker<V>>, q': seq<seq<V>>, w': seq<Worker<V>>, i: nat)
    requires Fits(fs, q, w) && i < |fs| && q[i] != [] && w[i] == Running([])
    requires q' == q[i := q[i][1..]] && w' == w[i := Running(fs[i](q[i][0]))]
    ensures Moved(fs, q, w, q', w', i, [], 1)
  {
    SameBeyond(fs, q, w, q', w', i + 1);
    FromHead(fs, i, q[i]);
    FromNothing(fs, i + 1);
    Regroup(Owed(fs, q, w, i + 1), From(fs, i + 1, fs[i](q[i][0])), From(fs, i, q'[i]), []);
  }

  lemma PopMoved<V>(fs: seq<V -> seq<V>>, caps: seq<nat>, s: Net<V>, i: nat)
    requires Sized(fs, caps, s) && Enabled(fs, caps, s, Pop(i))
    ensures var s' := Do(fs, caps, s, Pop(i));
      Moved(fs, s.queue, s.worker, s'.queue, s'.worker, 0, [], 1)
  {
    var s' := Do(fs, caps, s, Pop(i));
    PopHere(fs, s.queue, s.worker, s'.queue, s'.worker, i);
    MovedBelow(fs, s.queue, s.worker, s'.queue, s'.worker, i, [], 1);
  }

  // The values a worker still has to push, behind those already in the next queue.
  lemma PushOwed<V>(fs: seq<V -> seq<V>>, q: seq<seq<V>>, w: seq<Worker<V>>, q': seq<seq<V>>, w': seq<Worker<V>>,
                    k: nat, x: V)
    requires Fits(fs, q, w) && Fits(fs, q', w') && k <= |fs|
    requires q' == q[k := q[k] + [x]] && forall j :: k <= j < |fs| ==> w'[j] == w[j]
    ensures Owed(fs, q', w', k) == Owed(fs, q, w, k) + From(fs, k, [x])
    ensures Left(fs, q', w', k) == Left(fs, q, w, k) + Work(fs, k, [x])
  {
    if k < |fs| {
      SameBeyond(fs, q, w, q', w', k + 1);
      FromAppend(fs, k, q[k], [x]);
      Regroup(Owed(fs, q, w, k + 1) + From(fs, k + 1, Todo(w[k])), From(fs, k, q[k]), From(fs, k, [x]), []);
    }
  }

  lemma PushMoved<V>(fs: seq<V -> seq<V>>, caps: seq<nat>, s: Net<V>, i: nat)
    requires Sized(fs, caps, s) && Enabled(fs, caps, s, Push(i))
    ensures var s' := Do(fs, caps, s, Push(i));
      Moved(fs, s.queue, s.worker, s'.queue, s'.worker, 0, [], 1)
  {
    var s' := Do(fs, caps, s, Push(i));
    var todo := s.worker[i].todo;
    PushOwed(fs, s.queue, s.worker, s'.queue, s'.worker, i + 1, todo[0]);
    assert todo == [todo[0]] + todo[1..];
    FromAppend(fs, i + 1, [todo[0]], todo[1..]);
    Regroup(Owed(fs, s.queue, s.worker, i + 1), From(fs, i + 1, [todo[0]]), From(fs, i + 1, todo[1..]),
            From(fs, i, s.queue[i]));
    MovedBelow(fs, s.queue, s.worker, s'.queue, s'.worker, i, [], 1);
  }

  lemma FinishMoved<V>(fs: seq<V -> seq<V>>, caps: seq<nat>, s: Net<V>, i: nat)
    requires Sized(fs, caps, s) && Enabled(fs, caps, s, Finish(i))
    ensures var s' := Do(fs, caps, s, Finish(i));
      Moved(fs, s.queue, s.worker, s'.queue, s'.worker, 0, [], 1)
  {
    var s' := Do(fs, caps, s, Finish(i));
    SameBeyond(fs, s.queue, s.worker, s'.queue, s'.worker, i + 1);
    assert Owed(fs, s.queue, s.worker, i) == [] + Owed(fs, s'.queue, s'.worker, i);
    MovedBelow(fs, s.queue, s.worker, s'.queue, s'.worker, i, [], 1);
  }

  lemma DeliverMoved<V>(fs: seq<V -> seq<V>>, caps: seq<nat>, s: Net<V>)
    requires Sized(fs, caps, s) && Enabled(fs, caps, s, Deliver)
    ensures var s' := Do(fs, caps, s, Deliver);
      Moved(fs, s.queue, s.worker, s'.queue, s'.worker, 0, [s.queue[|fs|][0]], 1)
  {
    var s' := Do(fs, caps, s, Deliver);
    MovedBelow(fs, s.queue, s.worker, s'.queue, s'.worker, |fs|, [s.queue[|fs|][0]], 1);
  }

  lemma FeedTotal<V>(fs: seq<V -> seq<V>>, caps: seq<nat>, s: Net<V>)
    requires Sized(fs, caps, s) && Enabled(fs, caps, s, Feed)
    ensures Total(fs, Do(fs, caps, s, Feed)) == Total(fs, s)
    ensures Measure(fs, Do(fs, caps, s, Feed)) == Measure(fs, s) - 1
  {
    var s' := Do(fs, caps, s, Feed);
    var x, rest := s.input[0], s.input[1..];
    PushOwed(fs, s.queue, s.worker, s'.queue, s'.worker, 0, x);
    assert s.input == [x] + rest;
    FromAppend(fs, 0, [x], rest);
    Regroup(s.delivered, Owed(fs, s.queue, s.worker, 0), From(fs, 0, [x]), From(fs, 0, rest));
  }

  lemma MovedTotal<V>(fs: seq<V -> seq<V>>, s: Net<V>, s': Net<V>, given: seq<V>)
    requires Fits(fs, s.queue, s.worker) && Fits(fs, s'.queue, s'.worker)
    requires |s.closed| == |s'.closed| == |fs| + 1 && s'.closed[0] == s.closed[0]
    requires Moved(fs, s.queue, s.worker, s'.queue, s'.worker, 0, given, 1)
    requires s'.delivered == s.delivered + given && s'.input == s.input
    ensures Total(fs, s') == Total(fs, s) && Measure(fs, s') == Measure(fs, s) - 1
  {
    var owed := Owed(fs, s'.queue, s'.worker, 0);
    assert s.delivered + (given + owed) == (s.delivered + given) + owed;
  }

  lemma StepMoved<V>(fs: seq<V -> seq<V>>, caps: seq<nat>, s: Net<V>, e: Step)
    requires Sized(fs, caps, s) && Enabled(fs, caps, s, e) && (e.Pop? || e.Push? || e.Finish?)
    ensures var s' := Do(fs, caps, s, e);
      Sized(fs, caps, s') && Moved(fs, s.queue, s.worker, s'.queue, s'.worker, 0, [], 1)
  {
    match e
    case Pop(i) => PopMoved(fs, caps, s, i);
    case Push(i) => PushMoved(fs, caps, s, i);
    case Finish(i) => FinishMoved(fs, caps, s, i);
  }

  /** Every step keeps what is delivered or owed, and counts down the remaining steps by one. */
  lemma StepTotal<V>(fs: seq<V -> seq<V>>, caps: seq<nat>, s: Net<V>, e: Step)
    requires Sized(fs, caps, s) && Enabled(fs, caps, s, e)
    ensures Sized(fs, caps, Do(fs, caps, s, e))
    ensures Total(fs, Do(fs, caps, s, e)) == Total(fs, s)
    ensures Measure(fs, Do(fs, caps, s, e)) == Measure(fs, s) - 1
  {
    if e.Feed? {
      FeedTotal(fs, caps, s);
    } else if e.Deliver? {
      DeliverMoved(fs, caps, s);
      MovedTotal(fs, s, Do(fs, caps, s, e), [s.queue[|fs|][0]]);
    } else if !e.CloseInput? {
      StepMoved(fs, caps, s, e);
      MovedTotal(fs, s, Do(fs, caps, s, e), []);
    }
  }

  /* ---------- closing ---------- */

  // A queue behind a stage is closed exactly when its worker is done, and then everything in
  // front of it has been used up.
  ghost predicate Closing<V>(fs: seq<V -> seq<V>>, s: Net<V>)
    requires |s.worker| == |fs| && |s.queue| == |fs| + 1 && |s.closed| == |fs| + 1
  {
    && (s.closed[0] ==> s.input == [])
    && forall i :: 0 <= i < |fs| ==>
         (s.closed[i + 1] <==> s.worker[i] == Done) && (s.worker[i] == Done ==> s.closed[i] && s.queue[i] == [])
  }

  lemma StepClosing<V>(fs: seq<V -> seq<V>>, caps: seq<nat>, s: Net<V>, e: Step)
    requires Sized(fs, caps, s) && Enabled(fs, caps, s, e) && Closing(fs, s)
    ensures Closing(fs, Do(fs, caps, s, e))
    ensures e.Push? ==> !s.closed[e.i + 1]
  {
  }

  // No queue holds more than its capacity.
  ghost predicate Bounded<V>(fs: seq<V -> seq<V>>, caps: seq<nat>, s: Net<V>)
    requires |s.queue| == |caps| == |fs| + 1
  {
    forall k :: 0 <= k <= |fs| ==> |s.queue[k]| <= caps[k]
  }

  lemma StepBounded<V>(fs: seq<V -> seq<V>>, caps: seq<nat>, s: Net<V>, e: Step)
    requires Sized(fs, caps, s) && Enabled(fs, caps, s, e) && Bounded(fs, caps, s)
    ensures Sized(fs, caps, Do(fs, caps, s, e)) && Bounded(fs, caps, Do(fs, caps, s, e))
  {
  }

  // Behind closed queues nothing is left.
  lemma {:induction false} AllClosed<V>(fs: seq<V -> seq<V>>, s: Net<V>, k: nat)
    requires |s.worker| == |fs| && |s.queue| == |fs| + 1 && |s.closed| == |fs| + 1 && Closing(fs, s)
    requires k <= |fs| && s.closed[|fs|] && s.queue[|fs|] == []
    ensures s.closed[k] && s.queue[k] == [] && Owed(fs, s.queue, s.worker, k) == []
    decreases |fs| - k
  {
    if k < |fs| {
      AllClosed(fs, s, k + 1);
      FromNothing(fs, k + 1);
      FromNothing(fs, k);
    }
  }

  // An empty queue that is not closed is about to be filled or closed.
  lemma {:induction false} Upstream<V>(fs: seq<V -> seq<V>>, caps: seq<nat>, s: Net<V>, k: nat) returns (e: Step)
    requires Sized(fs, caps, s) && Closing(fs, s) && k <= |fs| && s.queue[k] == [] && !s.closed[k]
    ensures Enabled(fs, caps, s, e)
    decreases k
  {
    if k == 0 {
      e := if s.input == [] then CloseInput else Feed;
    } else {
      var i := k - 1;
      if s.worker[i] != Running([]) {
        e := Push(i);
      } else if s.queue[i] != [] {
        e := Pop(i);
      } else if s.closed[i] {
        e := Finish(i);
      } else {
        e := Upstream(fs, caps, s, i);
      }
    }
  }

  // Everything delivered and every queue closed.
  ghost predicate Finished<V>(fs: seq<V -> seq<V>>, s: Net<V>)
    requires |s.queue| == |fs| + 1 && |s.closed| == |fs| + 1
  {
    s.closed[|fs|] && s.queue[|fs|] == []
  }

  /** Until the output queue is closed and drained some step is enabled. */
  lemma NeverStuck<V>(fs: seq<V -> seq<V>>, caps: seq<nat>, s: Net<V>)
    requires Sized(fs, caps, s) && Closing(fs, s)
    ensures Finished(fs, s) || exists e :: Enabled(fs, caps, s, e)
  {
    if s.queue[|fs|] != [] {
      assert Enabled(fs, caps, s, Deliver);
    } else if !s.closed[|fs|] {
      var e := Upstream(fs, caps, s, |fs|);
    }
  }

  /* ---------- runs ---------- */

  ghost predicate IsRun<V>(fs: seq<V -> seq<V>>, caps: seq<nat>, input: seq<V>, ss: seq<Net<V>>, es: seq<Step>) {
    |ss| == |es| + 1 && Init(fs, caps, input, ss[0]) && forall k :: 0 <= k < |es| ==> StepsAt(fs, caps, ss, es, k)
  }

  ghost predicate StepsAt<V>(fs: seq<V -> seq<V>>, caps: seq<nat>, ss: seq<Net<V>>, es: seq<Step>, k: int)
    requires |ss| == |es| + 1 && 0 <= k < |es|
  {
    Sized(fs, caps, ss[k]) && Enabled(fs, caps, ss[k], es[k]) && ss[k + 1] == Do(fs, caps, ss[k], es[k])
  }

  lemma EmptyStage<V>(fs: seq<V -> seq<V>>, q: seq<seq<V>>, w: seq<Worker<V>>, k: nat)
    requires Fits(fs, q, w) && k < |fs| && q[k] == [] && w[k] == Running([])
    ensures Owed(fs, q, w, k) == Owed(fs, q, w, k + 1)
  {
    FromNothing(fs, k + 1);
    FromNothing(fs, k);
  }

  lemma {:induction false} InitOwed<V>(fs: seq<V -> seq<V>>, caps: seq<nat>, input: seq<V>, s: Net<V>, k: nat)
    requires Init(fs, caps, input, s) && k <= |fs|
    ensures Owed(fs, s.queue, s.worker, k) == s.queue[|fs|]
    decreases |fs| - k
  {
    if k < |fs| {
      InitOwed(fs, caps, input, s, k + 1);
      assert Idle(fs, s, k);
      EmptyStage(fs, s.queue, s.worker, k);
    }
  }

  lemma InitTotal<V>(fs: seq<V -> seq<V>>, caps: seq<nat>, input: seq<V>, s: Net<V>)
    requires Init(fs, caps, input, s)
    ensures Total(fs, s) == From(fs, 0, input) && Closing(fs, s) && Bounded(fs, caps, s)
  {
    forall k | 0 <= k <= |fs| ensures |s.queue[k]| <= caps[k] { assert Idle(fs, s, k); }
    InitOwed(fs, caps, input, s, 0);
    assert Idle(fs, s, |fs|) && Idle(fs, s, 0);
    forall i | 0 <= i < |fs| ensures !s.closed[i + 1] && s.worker[i] == Running([]) {
      assert Idle(fs, s, i) && Idle(fs, s, i + 1);
    }
    assert [] + [] + From(fs, 0, input) == From(fs, 0, input);
  }

  lemma {:induction false} RunTotal<V>(fs: seq<V -> seq<V>>, caps: seq<nat>, input: seq<V>,
                                       ss: seq<Net<V>>, es: seq<Step>, k: nat)
    requires IsRun(fs, caps, input, ss, es) && k < |ss|
    ensures Sized(fs, caps, ss[k]) && Closing(fs, ss[k]) && Bounded(fs, caps, ss[k])
    ensures Total(fs, ss[k]) == From(fs, 0, input)
    ensures Measure(fs, ss[k]) == Measure(fs, ss[0]) - k
  {
    if k == 0 {
      InitTotal(fs, caps, input, ss[0]);
    } else {
      RunTotal(fs, caps, input, ss, es, k - 1);
      assert StepsAt(fs, caps, ss, es, k - 1);
      StepTotal(fs, caps, ss[k - 1], es[k - 1]);
      StepClosing(fs, caps, ss[k - 1], es[k - 1]);
      StepBounded(fs, caps, ss[k - 1], es[k - 1]);
    }
  }

  /** Determinism: whatever the schedule and the queue capacities, what has been delivered is
      at every step a prefix of the composed stages applied to the input, and no queue holds more
      than its capacity; no run is longer than Measure; a run that cannot go on has delivered
      everything and closed the output. */
  lemma Deterministic<V>(fs: seq<V -> seq<V>>, caps: seq<nat>, input: seq<V>, ss: seq<Net<V>>, es: seq<Step>)
    requires IsRun(fs, caps, input, ss, es)
    ensures Sized(fs, caps, ss[|es|])
    ensures ss[|es|].delivered <= From(fs, 0, input)
    ensures forall k :: 0 <= k <= |fs| ==> |ss[|es|].queue[k]| <= caps[k]
    ensures |es| <= Measure(fs, ss[0])
    ensures Finished(fs, ss[|es|]) ==> ss[|es|].delivered == From(fs, 0, input) && |es| == Measure(fs, ss[0])
    ensures Finished(fs, ss[|es|]) || exists e :: Enabled(fs, caps, ss[|es|], e)
  {
    var s := ss[|es|];
    RunTotal(fs, caps, input, ss, es, |es|);
    NeverStuck(fs, caps, s);
    var owed := Owed(fs, s.queue, s.worker, 0) + From(fs, 0, s.input);
    assert Total(fs, s) == s.delivered + owed;
    if Finished(fs, s) {
      AllClosed(fs, s, 0);
      FromNothing(fs, 0);
      AllClosedLeft(fs, s, 0);
    }
  }

  lemma {:induction false} AllClosedLeft<V>(fs: seq<V -> seq<V>>, s: Net<V>, k: nat)
    requires |s.worker| == |fs| && |s.queue| == |fs| + 1 && |s.closed| == |fs| + 1 && Closing(fs, s)
    requires k <= |fs| && s.closed[|fs|] && s.queue[|fs|] == []
    ensures Left(fs, s.queue, s.worker, k) == 0
    decreases |fs| - k
  {
    if k < |fs| {
      AllClosed(fs, s, k + 1);
      AllClosed(fs, s, k);
      AllClosedLeft(fs, s, k + 1);
      FromNothing(fs, k + 1);
      FromNothing(fs, k);
    }
  }

  /** A queue source fused into the first stage (merge_on_front) delivers the same values as
      one that copies through a queue of its own. */
  lemma FusionSame<V>(fs: seq<V -> seq<V>>, caps: seq<nat>, caps': seq<nat>, input: seq<V>,
                      ss: seq<Net<V>>, es: seq<Step>, ss': seq<Net<V>>, es': seq<Step>)
    requires IsRun(fs, caps, input, ss, es) && IsRun([Identity<V>()] + fs, caps', input, ss', es')
    requires |ss[|es|].queue| == |ss[|es|].closed| == |fs| + 1 && Finished(fs, ss[|es|])
    requires |ss'[|es'|].queue| == |ss'[|es'|].closed| == |fs| + 2 && Finished([Identity<V>()] + fs, ss'[|es'|])
    ensures ss[|es|].delivered == ss'[|es'|].delivered
  {
    Deterministic(fs, caps, input, ss, es);
    Deterministic([Identity<V>()] + fs, caps', input, ss', es');
    FusedSame(fs, input);
  }
}

/** `parallel(s, n)` of include/pipeline.h: n clones of a segment, each a running chain with its
    own bounded queues and workers, take their values from one queue; a collector empties their
    output queues one after another. */
module PipelineParallel {
  import opened Stages
  import opened Sequences
  import P = Pipeline

  // The first queue of a replica stays empty: its first worker pops from the common queue.
  // What the collector has taken from a replica is what the replica has delivered.
  datatype Fan<V> = Fan(
    input: seq<V>,
    inQueue: seq<V>,
    inClosed: bool,
    net: seq<P.Net<V>>,
    turn: nat,
    held: seq<V>,
    outQueue: seq<V>,
    outClosed: bool,
    delivered: seq<V>,
    // history: the values taken so far, and by whom
    popped: seq<V>,
    owner: seq<nat>)

  datatype Move = Feed | CloseInput | Take(i: nat) | Inner(i: nat, e: P.Step)
    | Collect | Forward | NextTurn | CloseOutput | Deliver

  // The segment, the capacities of a replica's queues, and the number of replicas.
  datatype Plan<!V> = Plan(fs: seq<V -> seq<V>>, caps: seq<nat>, n: nat, inCap: nat, outCap: nat) {
    ghost predicate Valid() {
      |fs| >= 1 && |caps| == |fs| + 1 && n >= 1 && inCap >= 1 && outCap >= 1
      && forall k :: 0 <= k < |caps| ==> caps[k] >= 1
    }
  }

  ghost predicate Sized<V>(p: Plan<V>, s: Fan<V>) {
    && |s.net| == p.n && s.turn <= p.n && |s.owner| == |s.popped| && |p.fs| >= 1
    && forall i :: 0 <= i < p.n ==> P.Sized(p.fs, p.caps, s.net[i])
  }

  ghost predicate Idle<V>(p: Plan<V>, net: P.Net<V>) {
    P.Init(p.fs, p.caps, [], net)
  }

  ghost predicate Init<V>(p: Plan<V>, input: seq<V>, s: Fan<V>) {
    && Sized(p, s) && s.input == input && !s.inClosed && !s.outClosed && s.turn == 0
    && s.inQueue == [] && s.held == [] && s.outQueue == [] && s.delivered == [] && s.popped == []
    && forall i :: 0 <= i < p.n ==> Idle(p, s.net[i])
  }

  // A step inside a replica; its first worker looks at the common queue.
  ghost predicate InnerEnabled<V>(p: Plan<V>, s: Fan<V>, i: nat, e: P.Step)
    requires Sized(p, s)
  {
    && i < p.n && (e.Pop? || e.Push? || e.Finish?)
    && P.Enabled(p.fs, p.caps, s.net[i], e)
    && (e == P.Finish(0) ==> s.inQueue == [])
  }

  ghost predicate Enabled<V>(p: Plan<V>, s: Fan<V>, e: Move)
    requires Sized(p, s)
  {
    match e
    case Feed => s.input != [] && |s.inQueue| < p.inCap && !s.inClosed
    case CloseInput => s.input == [] && !s.inClosed
    case Take(i) => i < p.n && s.net[i].worker[0] == P.Running([]) && s.inQueue != []
    case Inner(i, e) => InnerEnabled(p, s, i, e)
    case Collect => s.turn < p.n && s.held == [] && P.Enabled(p.fs, p.caps, s.net[s.turn], P.Deliver)
    case Forward => s.held != [] && |s.outQueue| < p.outCap
    case NextTurn => s.turn < p.n && s.held == [] && P.Finished(p.fs, s.net[s.turn])
    case CloseOutput => s.turn == p.n && s.held == [] && !s.outClosed
    case Deliver => s.outQueue != []
  }

  // The common queue holds x for the replica.
  function Offered<V>(net: P.Net<V>, x: V): P.Net<V>
    requires |net.queue| > 0
  {
    net.(queue := net.queue[0 := net.queue[0] + [x]])
  }

  function Closed<V>(net: P.Net<V>): P.Net<V>
    requires |net.closed| > 0
  {
    net.(closed := net.closed[0 := true])
  }

  function Do<V>(p: Plan<V>, s: Fan<V>, e: Move): Fan<V>
    requires Sized(p, s) && Enabled(p, s, e)
  {
    match e
    case Feed => s.(inQueue := s.inQueue + [s.input[0]], input := s.input[1..])
    case CloseInput =>
      s.(inClosed := true, net := seq(p.n, i requires 0 <= i < p.n => Closed(s.net[i])))
    case Take(i) =>
      var x := s.inQueue[0];
      s.(inQueue := s.inQueue[1..], net := s.net[i := P.Do(p.fs, p.caps, Offered(s.net[i], x), P.Pop(0))],
         popped := s.popped + [x], owner := s.owner + [i])
    case Inner(i, e) => s.(net := s.net[i := P.Do(p.fs, p.caps, s.net[i], e)])
    case Collect =>
      var t := s.turn;
      s.(held := [s.net[t].queue[|p.fs|][0]], net := s.net[t := P.Do(p.fs, p.caps, s.net[t], P.Deliver)])
    case Forward => s.(outQueue := s.outQueue + [s.held[0]], held := s.held[1..])
    case NextTurn => s.(turn := s.turn + 1)
    case CloseOutput => s.(outClosed := true)
    case Deliver => s.(delivered := s.delivered + [s.outQueue[0]], outQueue := s.outQueue[1..])
  }

  /* ---------- what each replica has got ---------- */

  // The values that replica i has taken, in the order of the input.
  function Share<V>(s: seq<V>, owner: seq<nat>, i: nat): seq<V>
    requires |owner| == |s|
  {
    if s == [] then [] else
      var n := |s| - 1;
      Share(s[..n], owner[..n], i) + if owner[n] == i then [s[n]] else []
  }

  lemma ShareNext<V>(s: seq<V>, owner: seq<nat>, x: V, o: nat, i: nat)
    requires |owner| == |s|
    ensures o == i ==> Share(s + [x], owner + [o], i) == Share(s, owner, i) + [x]
    ensures o != i ==> Share(s + [x], owner + [o], i) == Share(s, owner, i)
  {
    assert (s + [x])[..|s|] == s && (owner + [o])[..|s|] == owner;
    assert Share(s, owner, i) + [] == Share(s, owner, i);
  }

  // The results of replica i for its share, delivered to the collector or still owed.
  ghost predicate Honest<V>(p: Plan<V>, net: P.Net<V>, share: seq<V>)
    requires P.Sized(p.fs, p.caps, net)
  {
    && P.Total(p.fs, net) == From(p.fs, 0, share) && P.Closing(p.fs, net)
    && net.input == [] && net.queue[0] == []
  }

  ghost predicate ReplicaInv<V>(p: Plan<V>, s: Fan<V>, i: nat)
    requires Sized(p, s) && i < p.n
  {
    var net := s.net[i];
    && Honest(p, net, Share(s.popped, s.owner, i))
    && net.closed[0] == s.inClosed
    && (net.worker[0] == P.Done ==> s.inQueue == [])
    && (i > s.turn ==> |net.delivered| == 0)
    && (i < s.turn ==> P.Finished(p.fs, net))
    && P.Bounded(p.fs, p.caps, net)
  }

  lemma InnerHonest<V>(p: Plan<V>, net: P.Net<V>, share: seq<V>, e: P.Step)
    requires p.Valid() && P.Sized(p.fs, p.caps, net) && Honest(p, net, share) && P.Bounded(p.fs, p.caps, net)
    requires P.Enabled(p.fs, p.caps, net, e) && (e.Pop? || e.Push? || e.Finish? || e.Deliver?)
    ensures var net' := P.Do(p.fs, p.caps, net, e);
      && P.Sized(p.fs, p.caps, net') && Honest(p, net', share) && net'.closed[0] == net.closed[0]
      && P.Bounded(p.fs, p.caps, net')
  {
    P.StepBounded(p.fs, p.caps, net, e);
    P.StepTotal(p.fs, p.caps, net, e);
    P.StepClosing(p.fs, p.caps, net, e);
  }

  lemma OfferTotal<V>(p: Plan<V>, net: P.Net<V>, share: seq<V>, x: V)
    requires p.Valid() && P.Sized(p.fs, p.caps, net) && Honest(p, net, share)
    ensures P.Sized(p.fs, p.caps, Offered(net, x))
    ensures P.Total(p.fs, Offered(net, x)) == From(p.fs, 0, share + [x])
    ensures P.Left(p.fs, Offered(net, x).queue, net.worker, 0) == P.Left(p.fs, net.queue, net.worker, 0) + Work(p.fs, 0, [x])
    ensures |P.Owed(p.fs, Offered(net, x).queue, net.worker, 0)|
         == |P.Owed(p.fs, net.queue, net.worker, 0)| + |From(p.fs, 0, [x])|
  {
    var net' := Offered(net, x);
    P.PushOwed(p.fs, net.queue, net.worker, net'.queue, net'.worker, 0, x);
    FromAppend(p.fs, 0, share, [x]);
    FromNothing(p.fs, 0);
    Behind(net.delivered, P.Owed(p.fs, net.queue, net.worker, 0), From(p.fs, 0, [x]), From(p.fs, 0, net.input));
  }

  lemma Behind<V>(a: seq<V>, b: seq<V>, c: seq<V>, none: seq<V>)
    requires none == []
    ensures a + (b + c) + none == a + b + none + c
  {
  }

  lemma TakeHonest<V>(p: Plan<V>, net: P.Net<V>, share: seq<V>, x: V)
    requires p.Valid() && P.Sized(p.fs, p.caps, net) && Honest(p, net, share) && net.worker[0] == P.Running([])
    requires P.Bounded(p.fs, p.caps, net)
    ensures P.Sized(p.fs, p.caps, Offered(net, x)) && P.Enabled(p.fs, p.caps, Offered(net, x), P.Pop(0))
    ensures var net' := P.Do(p.fs, p.caps, Offered(net, x), P.Pop(0));
      && P.Sized(p.fs, p.caps, net') && Honest(p, net', share + [x])
      && net'.closed == net.closed && net'.delivered == net.delivered && net'.worker[0] != P.Done
      && P.Bounded(p.fs, p.caps, net')
  {
    OfferTotal(p, net, share, x);
    P.StepTotal(p.fs, p.caps, Offered(net, x), P.Pop(0));
    P.StepClosing(p.fs, p.caps, Offered(net, x), P.Pop(0));
  }

  /* ---------- the invariant ---------- */

  function Outputs<V>(net: seq<P.Net<V>>): seq<seq<V>> {
    seq(|net|, i requires 0 <= i < |net| => net[i].delivered)
  }

  ghost predicate Replicas<V>(p: Plan<V>, s: Fan<V>)
    requires Sized(p, s)
  {
    forall i: nat :: i < p.n ==> ReplicaInv(p, s, i)
  }

  ghost predicate Inv<V>(p: Plan<V>, input: seq<V>, s: Fan<V>) {
    && Sized(p, s) && Replicas(p, s)
    && s.popped + s.inQueue + s.input == input
    && (s.inClosed ==> s.input == [])
    && (s.turn == p.n ==> s.held == [])
    && (s.outClosed ==> s.turn == p.n)
    && |s.inQueue| <= p.inCap && |s.outQueue| <= p.outCap
    && s.delivered + s.outQueue + s.held == Concat(Outputs(s.net))
    && forall k :: 0 <= k < |s.owner| ==> s.owner[k] < p.n
  }

  lemma ReplicaTake<V>(p: Plan<V>, input: seq<V>, s: Fan<V>, r: nat, i: nat)
    requires p.Valid() && Inv(p, input, s) && Enabled(p, s, Take(r)) && i < p.n
    ensures Sized(p, Do(p, s, Take(r))) && ReplicaInv(p, Do(p, s, Take(r)), i)
  {
    var x := s.inQueue[0];
    assert ReplicaInv(p, s, i) && ReplicaInv(p, s, r);
    ShareNext(s.popped, s.owner, x, r, i);
    TakeHonest(p, s.net[r], Share(s.popped, s.owner, r), x);
  }

  lemma ReplicaInner<V>(p: Plan<V>, input: seq<V>, s: Fan<V>, r: nat, e: P.Step, i: nat)
    requires p.Valid() && Inv(p, input, s) && Enabled(p, s, Inner(r, e)) && i < p.n
    ensures Sized(p, Do(p, s, Inner(r, e))) && ReplicaInv(p, Do(p, s, Inner(r, e)), i)
  {
    assert ReplicaInv(p, s, i) && ReplicaInv(p, s, r);
    InnerSized(p, s, r, e);
    if i == r {
      InnerHonest(p, s.net[r], Share(s.popped, s.owner, r), e);
      if r < s.turn { FinishedStays(p, s.net[r], e); }
    }
  }

  lemma InnerSized<V>(p: Plan<V>, s: Fan<V>, r: nat, e: P.Step)
    requires Sized(p, s) && Enabled(p, s, Inner(r, e))
    ensures Sized(p, Do(p, s, Inner(r, e)))
  {
  }

  // A replica whose output has been closed and emptied makes no further step.
  lemma FinishedStays<V>(p: Plan<V>, net: P.Net<V>, e: P.Step)
    requires P.Sized(p.fs, p.caps, net) && P.Closing(p.fs, net) && P.Finished(p.fs, net)
    requires e.Pop? || e.Push? || e.Finish?
    ensures !P.Enabled(p.fs, p.caps, net, e)
  {
    if e.i < |p.fs| { P.AllClosed(p.fs, net, e.i + 1); }
  }

  lemma ReplicaCollect<V>(p: Plan<V>, input: seq<V>, s: Fan<V>, i: nat)
    requires p.Valid() && Inv(p, input, s) && Enabled(p, s, Collect) && i < p.n
    ensures Sized(p, Do(p, s, Collect)) && ReplicaInv(p, Do(p, s, Collect), i)
  {
    assert ReplicaInv(p, s, i) && ReplicaInv(p, s, s.turn);
    InnerHonest(p, s.net[s.turn], Share(s.popped, s.owner, s.turn), P.Deliver);
  }

  lemma ReplicaClose<V>(p: Plan<V>, input: seq<V>, s: Fan<V>, i: nat)
    requires p.Valid() && Inv(p, input, s) && Enabled(p, s, CloseInput) && i < p.n
    ensures Sized(p, Do(p, s, CloseInput)) && ReplicaInv(p, Do(p, s, CloseInput), i)
  {
    assert ReplicaInv(p, s, i);
  }

  lemma ReplicaOther<V>(p: Plan<V>, input: seq<V>, s: Fan<V>, e: Move, i: nat)
    requires p.Valid() && Inv(p, input, s) && Enabled(p, s, e) && i < p.n
    requires e.Feed? || e.Forward? || e.NextTurn? || e.CloseOutput? || e.Deliver?
    ensures Sized(p, Do(p, s, e)) && ReplicaInv(p, Do(p, s, e), i)
  {
    assert ReplicaInv(p, s, i);
  }

  lemma ReplicaStep<V>(p: Plan<V>, input: seq<V>, s: Fan<V>, e: Move, i: nat)
    requires p.Valid() && Inv(p, input, s) && Enabled(p, s, e) && i < p.n
    ensures Sized(p, Do(p, s, e)) && ReplicaInv(p, Do(p, s, e), i)
  {
    match e
    case Take(r) => ReplicaTake(p, input, s, r, i);
    case Inner(r, f) => ReplicaInner(p, input, s, r, f, i);
    case Collect => ReplicaCollect(p, input, s, i);
    case CloseInput => ReplicaClose(p, input, s, i);
    case _ => ReplicaOther(p, input, s, e, i);
  }

  lemma ReplicasStep<V>(p: Plan<V>, input: seq<V>, s: Fan<V>, e: Move)
    requires p.Valid() && Inv(p, input, s) && Enabled(p, s, e)
    ensures Sized(p, Do(p, s, e)) && Replicas(p, Do(p, s, e))
  {
    ReplicaStep(p, input, s, e, 0);
    forall i: nat | i < p.n ensures ReplicaInv(p, Do(p, s, e), i) {
      ReplicaStep(p, input, s, e, i);
    }
  }

  lemma {:induction false} ConcatEmpty<V>(cs: seq<seq<V>>)
    requires forall j :: 0 <= j < |cs| ==> |cs[j]| == 0
    ensures |Concat(cs)| == 0
  {
    if cs != [] {
      ConcatEmpty(cs[1..]);
    }
  }

  // A value appended to the last part that is not empty is appended to the whole.
  lemma {:induction false} ConcatGrow<V>(cs: seq<seq<V>>, t: nat, x: V)
    requires t < |cs| && forall j :: t < j < |cs| ==> |cs[j]| == 0
    ensures Concat(cs[t := cs[t] + [x]]) == Concat(cs) + [x]
    decreases t
  {
    var cs' := cs[t := cs[t] + [x]];
    if t == 0 {
      ConcatEmpty(cs[1..]);
      assert cs'[1..] == cs[1..];
    } else {
      ConcatGrow(cs[1..], t - 1, x);
      assert cs'[1..] == cs[1..][t - 1 := cs[1..][t - 1] + [x]];
    }
  }

  lemma OutputCollect<V>(p: Plan<V>, input: seq<V>, s: Fan<V>)
    requires Inv(p, input, s) && Enabled(p, s, Collect)
    ensures var s' := Do(p, s, Collect); s'.delivered + s'.outQueue + s'.held == Concat(Outputs(s'.net))
  {
    var t, x := s.turn, s.net[s.turn].queue[|p.fs|][0];
    forall j | t < j < p.n ensures |Outputs(s.net)[j]| == 0 { assert ReplicaInv(p, s, j); }
    ConcatGrow(Outputs(s.net), t, x);
    assert Outputs(Do(p, s, Collect).net) == Outputs(s.net)[t := Outputs(s.net)[t] + [x]];
  }

  // No other step changes what the replicas have delivered.
  lemma OutputsKept<V>(p: Plan<V>, s: Fan<V>, e: Move)
    requires Sized(p, s) && Enabled(p, s, e) && !e.Collect?
    ensures Outputs(Do(p, s, e).net) == Outputs(s.net)
  {
  }

  lemma Passed<V>(a: seq<V>, b: seq<V>, c: seq<V>)
    ensures c != [] ==> a + (b + [c[0]]) + c[1..] == a + b + c
    ensures b != [] ==> (a + [b[0]]) + b[1..] + c == a + b + c
  {
  }

  lemma OutputStep<V>(p: Plan<V>, input: seq<V>, s: Fan<V>, e: Move)
    requires Inv(p, input, s) && Enabled(p, s, e)
    ensures var s' := Do(p, s, e); s'.delivered + s'.outQueue + s'.held == Concat(Outputs(s'.net))
  {
    if e.Collect? {
      OutputCollect(p, input, s);
    } else {
      OutputsKept(p, s, e);
      Passed(s.delivered, s.outQueue, s.held);
    }
  }

  lemma InputStep<V>(p: Plan<V>, input: seq<V>, s: Fan<V>, e: Move)
    requires Inv(p, input, s) && Enabled(p, s, e)
    ensures var s' := Do(p, s, e);
      && s'.popped + s'.inQueue + s'.input == input && (s'.inClosed ==> s'.input == [])
      && forall k :: 0 <= k < |s'.owner| ==> s'.owner[k] < p.n
  {
    Passed(s.popped, s.inQueue, s.input);
  }

  /** Every step keeps it. */
  lemma StepInv<V>(p: Plan<V>, input: seq<V>, s: Fan<V>, e: Move)
    requires p.Valid() && Inv(p, input, s) && Enabled(p, s, e)
    ensures Inv(p, input, Do(p, s, e))
  {
    ReplicasStep(p, input, s, e);
    OutputStep(p, input, s, e);
    InputStep(p, input, s, e);
  }

  lemma InitInv<V>(p: Plan<V>, input: seq<V>, s: Fan<V>)
    requires p.Valid() && Init(p, input, s)
    ensures Inv(p, input, s)
  {
    forall i: nat | i < p.n ensures ReplicaInv(p, s, i) {
      assert Idle(p, s.net[i]);
      P.InitTotal(p.fs, p.caps, [], s.net[i]);
      assert P.Idle(p.fs, s.net[i], 0);
    }
    ConcatEmpty(Outputs(s.net));
  }

  /* ---------- the number of steps ---------- */

  function Sum<S>(w: S -> nat, ss: seq<S>): nat {
    if ss == [] then 0 else w(ss[0]) + Sum(w, ss[1..])
  }

  lemma {:induction false} SumUpdate<S>(w: S -> nat, ss: seq<S>, i: nat, x: S)
    requires i < |ss|
    ensures Sum(w, ss[i := x]) == Sum(w, ss) - w(ss[i]) + w(x)
  {
    if i == 0 {
      assert ss[0 := x][1..] == ss[1..];
    } else {
      SumUpdate(w, ss[1..], i - 1, x);
      assert ss[i := x][1..] == ss[1..][i - 1 := x];
    }
  }

  lemma {:induction false} SumSame<S>(w: S -> nat, ss: seq<S>, ss': seq<S>)
    requires |ss'| == |ss| && forall i :: 0 <= i < |ss| ==> w(ss'[i]) == w(ss[i])
    ensures Sum(w, ss') == Sum(w, ss)
  {
    if ss != [] { SumSame(w, ss[1..], ss'[1..]); }
  }

  lemma {:induction false} SumNothing<S>(w: S -> nat, ss: seq<S>)
    requires forall i :: 0 <= i < |ss| ==> w(ss[i]) == 0
    ensures Sum(w, ss) == 0
  {
    if ss != [] { SumNothing(w, ss[1..]); }
  }

  // The steps of a replica, and two for each of its results: out of the collector and out of
  // the output queue.
  ghost function Weight<V>(p: Plan<V>, net: P.Net<V>): nat {
    if |net.worker| == |p.fs| && |net.queue| == |p.fs| + 1
    then P.Left(p.fs, net.queue, net.worker, 0) + 2 * |P.Owed(p.fs, net.queue, net.worker, 0)| else 0
  }

  ghost function Weigh<V>(p: Plan<V>): P.Net<V> -> nat {
    net => Weight(p, net)
  }

  // What values not yet taken will cause, and the two steps for each of their results.
  ghost function Ahead<V>(p: Plan<V>, s: seq<V>): nat {
    Work(p.fs, 0, s) + 2 * |From(p.fs, 0, s)|
  }

  // The exact number of steps still to be made.
  ghost function Measure<V>(p: Plan<V>, s: Fan<V>): nat
    requires Sized(p, s)
  {
    |s.input| + Ahead(p, s.inQueue + s.input) + Sum(Weigh(p), s.net) + 2 * |s.held| + |s.outQueue| + (p.n - s.turn)
    + (if s.inClosed then 0 else 1) + (if s.outClosed then 0 else 1)
  }

  lemma AheadHead<V>(p: Plan<V>, s: seq<V>)
    requires s != []
    ensures Ahead(p, s) == Ahead(p, [s[0]]) + Ahead(p, s[1..])
  {
    assert s == [s[0]] + s[1..];
    FromAppend(p.fs, 0, [s[0]], s[1..]);
  }

  // A step inside a replica.
  lemma InnerWeight<V>(p: Plan<V>, net: P.Net<V>, e: P.Step)
    requires P.Sized(p.fs, p.caps, net) && P.Enabled(p.fs, p.caps, net, e)
    requires e.Pop? || e.Push? || e.Finish? || e.Deliver?
    ensures Weight(p, net) == Weight(p, P.Do(p.fs, p.caps, net, e)) + if e.Deliver? then 3 else 1
  {
    match e
    case Pop(i) => P.PopMoved(p.fs, p.caps, net, i);
    case Push(i) => P.PushMoved(p.fs, p.caps, net, i);
    case Finish(i) => P.FinishMoved(p.fs, p.caps, net, i);
    case Deliver => P.DeliverMoved(p.fs, p.caps, net);
  }

  lemma OfferWeight<V>(p: Plan<V>, net: P.Net<V>, x: V)
    requires P.Sized(p.fs, p.caps, net) && |p.fs| >= 1
    ensures P.Sized(p.fs, p.caps, Offered(net, x))
    ensures Weight(p, Offered(net, x)) == Weight(p, net) + Ahead(p, [x])
  {
    P.PushOwed(p.fs, net.queue, net.worker, Offered(net, x).queue, net.worker, 0, x);
  }

  lemma TakeWeight<V>(p: Plan<V>, net: P.Net<V>, x: V)
    requires P.Sized(p.fs, p.caps, net) && |p.fs| >= 1 && net.worker[0] == P.Running([])
    ensures P.Sized(p.fs, p.caps, Offered(net, x)) && P.Enabled(p.fs, p.caps, Offered(net, x), P.Pop(0))
    ensures Weight(p, P.Do(p.fs, p.caps, Offered(net, x), P.Pop(0))) == Weight(p, net) + Ahead(p, [x]) - 1
  {
    OfferWeight(p, net, x);
    InnerWeight(p, Offered(net, x), P.Pop(0));
  }

  lemma TakeSum<V>(p: Plan<V>, s: Fan<V>, r: nat)
    requires Sized(p, s) && Enabled(p, s, Take(r))
    ensures Sum(Weigh(p), Do(p, s, Take(r)).net) == Sum(Weigh(p), s.net) + Ahead(p, [s.inQueue[0]]) - 1
  {
    var x, net := s.inQueue[0], s.net[r];
    TakeWeight(p, net, x);
    SumUpdate(Weigh(p), s.net, r, P.Do(p.fs, p.caps, Offered(net, x), P.Pop(0)));
  }

  lemma TakeMeasure<V>(p: Plan<V>, s: Fan<V>, r: nat)
    requires Sized(p, s) && Enabled(p, s, Take(r)) && Sized(p, Do(p, s, Take(r)))
    ensures Measure(p, Do(p, s, Take(r))) == Measure(p, s) - 1
  {
    TakeSum(p, s, r);
    AheadHead(p, s.inQueue + s.input);
    assert (s.inQueue + s.input)[1..] == s.inQueue[1..] + s.input;
  }

  lemma NetSum<V>(p: Plan<V>, s: Fan<V>, r: nat, e: P.Step)
    requires Sized(p, s) && r < p.n && P.Enabled(p.fs, p.caps, s.net[r], e)
    requires e.Pop? || e.Push? || e.Finish? || e.Deliver?
    ensures Sum(Weigh(p), s.net[r := P.Do(p.fs, p.caps, s.net[r], e)])
         == Sum(Weigh(p), s.net) - if e.Deliver? then 3 else 1
  {
    InnerWeight(p, s.net[r], e);
    SumUpdate(Weigh(p), s.net, r, P.Do(p.fs, p.caps, s.net[r], e));
  }

  lemma FeedMeasure<V>(p: Plan<V>, s: Fan<V>)
    requires Sized(p, s) && Enabled(p, s, Feed)
    ensures Measure(p, Do(p, s, Feed)) == Measure(p, s) - 1
  {
    assert (s.inQueue + [s.input[0]]) + s.input[1..] == s.inQueue + s.input;
  }

  /** Every step brings the end exactly one step nearer. */
  lemma StepMeasure<V>(p: Plan<V>, input: seq<V>, s: Fan<V>, e: Move)
    requires p.Valid() && Inv(p, input, s) && Enabled(p, s, e) && Sized(p, Do(p, s, e))
    ensures Measure(p, Do(p, s, e)) == Measure(p, s) - 1
  {
    match e
    case Feed => FeedMeasure(p, s);
    case CloseInput => SumSame(Weigh(p), s.net, Do(p, s, e).net);
    case Take(r) => TakeMeasure(p, s, r);
    case Inner(r, f) => NetSum(p, s, r, f);
    case Collect => NetSum(p, s, s.turn, P.Deliver);
    case Forward =>
    case NextTurn =>
    case CloseOutput =>
    case Deliver =>
  }

  /* ---------- progress ---------- */

  // An empty queue of replica t that is not closed is about to be filled or closed.
  lemma {:induction false} Upstream<V>(p: Plan<V>, input: seq<V>, s: Fan<V>, t: nat, k: nat) returns (e: Move)
    requires p.Valid() && Inv(p, input, s) && t < p.n && 1 <= k <= |p.fs|
    requires s.net[t].queue[k] == [] && !s.net[t].closed[k]
    ensures Enabled(p, s, e)
    decreases k
  {
    var i, net := k - 1, s.net[t];
    assert ReplicaInv(p, s, t);
    if net.worker[i] != P.Running([]) {
      e := Inner(t, P.Push(i));
    } else if i == 0 {
      e := if s.inQueue != [] then Take(t)
           else if s.inClosed then Inner(t, P.Finish(0))
           else if s.input != [] then Feed else CloseInput;
    } else if net.queue[i] != [] {
      e := Inner(t, P.Pop(i));
    } else if net.closed[i] {
      e := Inner(t, P.Finish(i));
    } else {
      e := Upstream(p, input, s, t, i);
    }
  }

  // The output is closed and drained.
  predicate Finished<V>(s: Fan<V>) {
    s.outClosed && s.outQueue == []
  }

  /** Emptying the replicas' queues one after another never gets stuck, although the chains of
      later replicas may be blocked behind their full queues. */
  lemma NeverStuck<V>(p: Plan<V>, input: seq<V>, s: Fan<V>) returns (e: Move)
    requires p.Valid() && Inv(p, input, s) && !Finished(s)
    ensures Enabled(p, s, e)
  {
    if s.outQueue != [] {
      e := Deliver;
    } else if s.held != [] {
      e := Forward;
    } else if s.turn == p.n {
      e := CloseOutput;
    } else {
      var n := |p.fs|;
      assert ReplicaInv(p, s, s.turn);
      if s.net[s.turn].queue[n] != [] {
        e := Collect;
      } else if s.net[s.turn].closed[n] {
        e := NextTurn;
      } else {
        e := Upstream(p, input, s, s.turn, n);
      }
    }
  }

  /* ---------- runs ---------- */

  ghost predicate IsRun<V>(p: Plan<V>, input: seq<V>, ss: seq<Fan<V>>, es: seq<Move>) {
    Steps(p, ss, es) && Init(p, input, ss[0])
  }

  ghost predicate StepsAt<V>(p: Plan<V>, ss: seq<Fan<V>>, es: seq<Move>, k: int)
    requires |ss| == |es| + 1 && 0 <= k < |es|
  {
    Sized(p, ss[k]) && Enabled(p, ss[k], es[k]) && ss[k + 1] == Do(p, ss[k], es[k])
  }

  // The number of steps to go in a state that keeps the invariant, -1 in any other.
  ghost function Remaining<V>(p: Plan<V>, input: seq<V>, s: Fan<V>): int {
    if Inv(p, input, s) then Measure(p, s) else -1
  }

  lemma RunStart<V>(p: Plan<V>, input: seq<V>, s: Fan<V>)
    requires p.Valid() && Init(p, input, s)
    ensures Remaining(p, input, s) == Measure(p, s)
  {
    InitInv(p, input, s);
  }

  lemma RunStep<V>(p: Plan<V>, input: seq<V>, ss: seq<Fan<V>>, es: seq<Move>, i: nat, k: nat, m: int)
    requires p.Valid() && |ss| == |es| + 1 && i + 1 == k <= |es| && StepsAt(p, ss, es, i)
    requires Remaining(p, input, ss[i]) == m >= 0
    ensures m > 0 && Remaining(p, input, ss[k]) == m - 1
  {
    StepInv(p, input, ss[i], es[i]);
    StepMeasure(p, input, ss[i], es[i]);
  }

  ghost predicate Steps<V>(p: Plan<V>, ss: seq<Fan<V>>, es: seq<Move>) {
    |ss| == |es| + 1 && forall k :: 0 <= k < |es| ==> StepsAt(p, ss, es, k)
  }

  lemma {:induction false} RunInv<V>(p: Plan<V>, input: seq<V>, ss: seq<Fan<V>>, es: seq<Move>, k: nat, m: nat)
    requires p.Valid() && Steps(p, ss, es) && k < |ss| && Remaining(p, input, ss[0]) == m
    ensures Remaining(p, input, ss[k]) == m - k >= 0
  {
    if k > 0 {
      RunInv(p, input, ss, es, k - 1, m);
      RunStep(p, input, ss, es, k - 1, k, Remaining(p, input, ss[k - 1]));
    }
  }

  // The replicas' results one after another.
  function Results<V>(p: Plan<V>, input: seq<V>, owner: seq<nat>): seq<seq<V>>
    requires |owner| == |input|
  {
    seq(p.n, i requires 0 <= i < p.n => From(p.fs, 0, Share(input, owner, i)))
  }

  ghost predicate Delivers<V>(p: Plan<V>, input: seq<V>, owner: seq<nat>, out: seq<V>) {
    && |owner| == |input| && (forall k :: 0 <= k < |owner| ==> owner[k] < p.n)
    && out == Concat(Results(p, input, owner))
  }

  // A finished replica has delivered all its results and has no step left.
  lemma FinishedReplica<V>(p: Plan<V>, input: seq<V>, s: Fan<V>, i: nat)
    requires p.Valid() && Inv(p, input, s) && Finished(s) && i < p.n
    ensures s.net[i].delivered == From(p.fs, 0, Share(s.popped, s.owner, i))
    ensures Weight(p, s.net[i]) == 0 && s.inClosed && s.inQueue == []
  {
    var net := s.net[i];
    assert ReplicaInv(p, s, i);
    P.AllClosed(p.fs, net, 0);
    P.AllClosed(p.fs, net, 1);
    P.AllClosedLeft(p.fs, net, 0);
    FromNothing(p.fs, 0);
    assert net.delivered + [] + [] == net.delivered;
  }

  lemma FinishedOutput<V>(p: Plan<V>, input: seq<V>, s: Fan<V>)
    requires p.Valid() && Inv(p, input, s) && Finished(s)
    ensures Measure(p, s) == 0 && Delivers(p, input, s.owner, s.delivered)
  {
    FinishedReplica(p, input, s, 0);
    assert s.popped + [] + [] == s.popped;
    forall i | 0 <= i < p.n
      ensures Outputs(s.net)[i] == From(p.fs, 0, Share(s.popped, s.owner, i)) && Weight(p, s.net[i]) == 0
    {
      FinishedReplica(p, input, s, i);
    }
    assert Outputs(s.net) == Results(p, input, s.owner);
    SumNothing(Weigh(p), s.net);
    FromNothing(p.fs, 0);
    assert s.inQueue + s.input == [];
    assert s.delivered + [] + [] == s.delivered;
  }

  /** Whatever the schedule and the capacities: no run is longer than Measure, and no queue
      ever holds more than its capacity; a run that cannot go on has closed and drained the
      output, after exactly that many steps; and then every input value has been taken by one
      replica, and what was delivered is, replica after replica, the segment applied to the
      values it took, in input order. */
  lemma PartitionedOutput<V>(p: Plan<V>, input: seq<V>, ss: seq<Fan<V>>, es: seq<Move>)
    requires p.Valid() && IsRun(p, input, ss, es)
    ensures Sized(p, ss[0]) && Sized(p, ss[|es|])
    ensures |es| <= Measure(p, ss[0])
    ensures |ss[|es|].inQueue| <= p.inCap && |ss[|es|].outQueue| <= p.outCap
    ensures forall i :: 0 <= i < p.n ==> P.Bounded(p.fs, p.caps, ss[|es|].net[i])
    ensures Finished(ss[|es|]) || exists e :: Enabled(p, ss[|es|], e)
    ensures Finished(ss[|es|]) ==>
      |es| == Measure(p, ss[0]) && exists owner :: Delivers(p, input, owner, ss[|es|].delivered)
    ensures Finished(ss[|es|]) ==> multiset(ss[|es|].delivered) == multiset(From(p.fs, 0, input))
  {
    var s := ss[|es|];
    RunStart(p, input, ss[0]);
    RunInv(p, input, ss, es, |es|, Measure(p, ss[0]));
    forall i | 0 <= i < p.n ensures P.Bounded(p.fs, p.caps, s.net[i]) { assert ReplicaInv(p, s, i); }
    if Finished(s) {
      FinishedOutput(p, input, s);
      SameResults(p, input, s.owner);
    } else {
      var e := NeverStuck(p, input, s);
    }
  }

  /* ---------- the same values as without replicas ---------- */

  lemma Union<V>(a: multiset<V>, b: multiset<V>, c: multiset<V>)
    ensures (a + c) + b == (a + b) + c && a + (b + c) == (a + b) + c
  {
  }

  lemma {:induction false} ConcatAdd<V>(cs: seq<seq<V>>, t: nat, y: seq<V>)
    requires t < |cs|
    ensures multiset(Concat(cs[t := cs[t] + y])) == multiset(Concat(cs)) + multiset(y)
    decreases t
  {
    var cs' := cs[t := cs[t] + y];
    if t == 0 {
      assert cs'[1..] == cs[1..];
      Union(multiset(cs[0]), multiset(Concat(cs[1..])), multiset(y));
    } else {
      ConcatAdd(cs[1..], t - 1, y);
      assert cs'[1..] == cs[1..][t - 1 := cs[1..][t - 1] + y];
      Union(multiset(cs[0]), multiset(Concat(cs[1..])), multiset(y));
    }
  }

  lemma ResultsNext<V>(p: Plan<V>, s: seq<V>, owner: seq<nat>, x: V, o: nat)
    requires |owner| == |s| && o < p.n
    ensures var rs := Results(p, s, owner);
      Results(p, s + [x], owner + [o]) == rs[o := rs[o] + From(p.fs, 0, [x])]
  {
    forall i | 0 <= i < p.n
      ensures Results(p, s + [x], owner + [o])[i]
           == if i == o then Results(p, s, owner)[i] + From(p.fs, 0, [x]) else Results(p, s, owner)[i]
    {
      ShareNext(s, owner, x, o, i);
      FromAppend(p.fs, 0, Share(s, owner, i), [x]);
    }
  }

  /** Whoever took which value, the results are a permutation of those of a single chain. */
  lemma {:induction false} SameResults<V>(p: Plan<V>, input: seq<V>, owner: seq<nat>)
    requires |owner| == |input| && forall k :: 0 <= k < |owner| ==> owner[k] < p.n
    ensures multiset(Concat(Results(p, input, owner))) == multiset(From(p.fs, 0, input))
  {
    if input == [] {
      FromNothing(p.fs, 0);
      ConcatEmpty(Results(p, input, owner));
    } else {
      var n := |input| - 1;
      var s, os, x, o := input[..n], owner[..n], input[n], owner[n];
      assert input == s + [x] && owner == os + [o];
      SameResults(p, s, os);
      ResultsNext(p, s, os, x, o);
      ConcatAdd(Results(p, s, os), o, From(p.fs, 0, [x]));
      FromAppend(p.fs, 0, s, [x]);
    }
  }
}

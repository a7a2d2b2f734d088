/** The reusable barrier of src/flex_barrier.cc.

    Every stretch of code between acquiring the mutex and releasing or waiting on it is one
    step.  Threads asleep on a condition variable wake when notified, or spuriously.  The
    completion function never returns 0 and at least one participant remains, so neither
    exception is thrown. */
module FlexBarrier {

  type Tid = nat

  // The fields guarded by the mutex.
  datatype Counts = Counts(threadCount: int, newThreadCount: int, numWaiting: int, numToLeave: int)

  // What a thread does when it gets past idle_.wait.
  datatype Kind = Wait | Drop

  datatype PC =
    | Out
    | AtIdle(kind: Kind, asleep: bool)
    | AtReady(asleep: bool, gen: nat)

  /** `completions` counts the calls of the completion function; `gen` in a program counter is
      the number of completions when that thread arrived; `departed` holds the threads that
      have returned from arrive_and_wait, with the number of completions at that moment, and
      `start` and `dropped` count the participants of this generation and its drops. */
  datatype Barrier = Barrier(
    b: Counts,
    pc: map<Tid, PC>,
    completions: nat,
    start: int,
    dropped: int,
    departed: set<(Tid, nat)>)

  datatype Step = Call(t: Tid, kind: Kind) | Run(t: Tid, result: int) | Spurious(t: Tid)

  /* ---------- the critical sections ---------- */

  function Reset(b: Counts, result: int): Counts {
    b.(newThreadCount := if result > 0 then result else b.threadCount)
  }

  // The last arrival: num_to_leave_ is set and the completion function runs.
  function Release(b: Counts, result: int): Counts {
    Reset(b.(numToLeave := b.threadCount), result)
  }

  function Leave(b: Counts): Counts {
    if b.numToLeave == 1
    then b.(threadCount := b.newThreadCount, numWaiting := 0, numToLeave := 0)
    else b.(numToLeave := b.numToLeave - 1)
  }

  // notify_all on ready_ and on idle_
  function NotifyReady(pc: map<Tid, PC>): map<Tid, PC> {
    map t | t in pc :: if pc[t].AtReady? then AtReady(false, pc[t].gen) else pc[t]
  }

  function NotifyIdle(pc: map<Tid, PC>): map<Tid, PC> {
    map t | t in pc :: if pc[t].AtIdle? then AtIdle(pc[t].kind, false) else pc[t]
  }

  // A thread that has been released leaves the barrier.
  function Depart(s: Barrier, t: Tid): Barrier
    requires t in s.pc
  {
    var pc := s.pc[t := Out];
    var s' := s.(b := Leave(s.b), departed := s.departed + {(t, s.completions)});
    if s.b.numToLeave == 1 then s'.(pc := NotifyIdle(pc), start := s.b.newThreadCount, dropped := 0)
    else s'.(pc := pc)
  }

  // arrive_and_wait past idle_.wait
  function Arrive(s: Barrier, t: Tid, result: int): Barrier
    requires t in s.pc
  {
    var b := s.b.(numWaiting := s.b.numWaiting + 1);
    if b.numWaiting == b.threadCount then
      Depart(s.(b := Release(b, result), completions := s.completions + 1, pc := NotifyReady(s.pc)), t)
    else s.(b := b, pc := s.pc[t := AtReady(true, s.completions)])
  }

  // arrive_and_drop past idle_.wait
  function ArriveDrop(s: Barrier, t: Tid, result: int): Barrier
    requires t in s.pc
  {
    var b := s.b.(threadCount := s.b.threadCount - 1);
    var s' := s.(dropped := s.dropped + 1, pc := s.pc[t := Out]);
    if b.numWaiting == b.threadCount then
      s'.(b := Release(b, result), completions := s.completions + 1, pc := NotifyReady(s'.pc))
    else s'.(b := b)
  }

  // The next stretch of an awake thread.
  function Stretch(s: Barrier, t: Tid, result: int): Barrier
    requires t in s.pc
  {
    match s.pc[t]
    case Out => s
    case AtIdle(kind, _) =>
      if s.b.numToLeave != 0 then s.(pc := s.pc[t := AtIdle(kind, true)])
      else if kind == Wait then Arrive(s, t, result)
      else ArriveDrop(s, t, result)
    case AtReady(_, g) =>
      if s.b.numWaiting != s.b.threadCount then s.(pc := s.pc[t := AtReady(true, g)])
      else Depart(s, t)
  }

  function Awake(p: PC): PC {
    match p
    case Out => Out
    case AtIdle(kind, _) => AtIdle(kind, false)
    case AtReady(_, g) => AtReady(false, g)
  }

  ghost predicate Next(s: Barrier, e: Step, s': Barrier) {
    && e.t in s.pc
    && match e
       case Call(t, kind) => s.pc[t] == Out && s' == s.(pc := s.pc[t := AtIdle(kind, false)])
       case Spurious(t) => s.pc[t] != Out && s' == s.(pc := s.pc[t := Awake(s.pc[t])])
       case Run(t, result) =>
         && s.pc[t] != Out && !s.pc[t].asleep && result != 0
         && (s.pc[t].AtIdle? && s.pc[t].kind == Drop && s.b.numToLeave == 0 ==> s.b.threadCount > 1)
         && s' == Stretch(s, t, result)
  }

  ghost predicate Init(s: Barrier) {
    && s.b.threadCount >= 1 && s.b.numWaiting == 0 && s.b.numToLeave == 0
    && s.start == s.b.threadCount && s.dropped == 0 && s.completions == 0 && s.departed == {}
    && forall t :: t in s.pc ==> s.pc[t] == Out
  }

  /* ---------- the invariant ---------- */

  // The threads that have arrived and not left.
  ghost function Inside(s: Barrier): set<Tid> {
    set t | t in s.pc && s.pc[t].AtReady?
  }

  // Gathering: nobody is released, and the generation is not complete.
  ghost predicate Gathering(s: Barrier) {
    && s.b.numToLeave == 0
    && |Inside(s)| == s.b.numWaiting < s.b.threadCount
    && s.b.threadCount == s.start - s.dropped
    && forall t :: t in s.pc ==>
         && (s.pc[t].AtIdle? ==> !s.pc[t].asleep)
         && (s.pc[t].AtReady? ==> s.pc[t].gen == s.completions)
  }

  // Leaving: those released and not left are exactly num_to_leave_, all awake.
  ghost predicate Leaving(s: Barrier) {
    && s.b.numToLeave == |Inside(s)| > 0
    && s.b.numWaiting == s.b.threadCount == s.start - s.dropped && s.b.newThreadCount >= 1
    && forall t :: t in s.pc && s.pc[t].AtReady? ==> !s.pc[t].asleep && s.pc[t].gen + 1 == s.completions
  }

  ghost predicate Inv(s: Barrier) {
    s.b.threadCount >= 1 && (Gathering(s) || Leaving(s))
  }

  lemma InitInv(s: Barrier)
    requires Init(s)
    ensures Inv(s)
  {
    assert Inside(s) == {};
  }

  lemma DepartInv(s: Barrier, t: Tid)
    requires Leaving(s) && s.b.threadCount >= 1 && t in s.pc && s.pc[t].AtReady?
    ensures Inv(Depart(s, t))
  {
    var s' := Depart(s, t);
    assert Inside(s') == Inside(s) - {t};
    assert forall u :: u in s'.pc && s'.pc[u].AtReady? ==> u in Inside(s');
  }

  // The last arrival and its own departure are one step.
  lemma CompleteInv(s: Barrier, t: Tid, result: int)
    requires Gathering(s) && t in s.pc && s.pc[t].AtIdle? && result != 0
    requires s.b.numWaiting + 1 == s.b.threadCount
    ensures Inv(Arrive(s, t, result))
  {
    var s' := Arrive(s, t, result);
    assert Inside(s') == Inside(s);
    assert forall u :: u in s'.pc && s'.pc[u].AtReady? ==> u in Inside(s');
  }

  lemma ArriveInv(s: Barrier, t: Tid, result: int)
    requires Gathering(s) && t in s.pc && s.pc[t].AtIdle? && result != 0
    ensures Inv(Arrive(s, t, result))
  {
    if s.b.numWaiting + 1 == s.b.threadCount {
      CompleteInv(s, t, result);
    } else {
      assert Inside(Arrive(s, t, result)) == Inside(s) + {t};
    }
  }

  lemma DropInv(s: Barrier, t: Tid, result: int)
    requires Gathering(s) && t in s.pc && s.pc[t].AtIdle? && result != 0 && s.b.threadCount > 1
    ensures Inv(ArriveDrop(s, t, result))
  {
    assert Inside(ArriveDrop(s, t, result)) == Inside(s);
  }

  /** Every step keeps: num_to_leave_ is the number of threads released and not yet gone; they
      are all awake; nobody is counted while it is not 0. */
  lemma NextInv(s: Barrier, e: Step, s': Barrier)
    requires Inv(s) && Next(s, e, s')
    ensures Inv(s')
  {
    var t := e.t;
    if e.Run? && s.pc[t].AtIdle? && s.b.numToLeave == 0 {
      if s.pc[t].kind == Wait { ArriveInv(s, t, e.result); } else { DropInv(s, t, e.result); }
    } else if e.Run? && s.pc[t].AtReady? && s.b.numWaiting == s.b.threadCount {
      DepartInv(s, t);
    } else {
      assert Inside(s') == Inside(s);
    }
  }

  /* ---------- generations ---------- */

  // The participants of the next generation, if the step runs the completion function.
  function NextCount(s: Barrier, e: Step): int
    requires e.t in s.pc && e.Run? && s.pc[e.t].AtIdle?
  {
    if e.result > 0 then e.result else s.b.threadCount - if s.pc[e.t].kind == Drop then 1 else 0
  }

  /** What the completion function returns decides the next generation: a positive number is
      the number of its participants, otherwise those who have not dropped out stay. */
  lemma StepCounts(s: Barrier, e: Step, s': Barrier)
    requires Inv(s) && Next(s, e, s')
    ensures s'.completions != s.completions ==>
      && e.Run? && s.pc[e.t].AtIdle?
      && if s'.b.numToLeave > 0 then s'.b.newThreadCount == NextCount(s, e)
         else s'.start == s'.b.threadCount == NextCount(s, e)
    ensures s.b.numToLeave > 0 ==>
      if s'.b.numToLeave > 0 then s'.b.newThreadCount == s.b.newThreadCount
      else s'.start == s'.b.threadCount == s.b.newThreadCount
  {
    if s.b.numToLeave > 0 && e.Run? && s.pc[e.t].AtReady? { DepartInv(s, e.t); }
  }

  /** The completion function runs once per generation, when the last of its participants
      arrives or drops out; nobody leaves before it has run, and nobody who arrives is counted
      for the next generation before everybody has left. */
  lemma StepGenerations(s: Barrier, e: Step, s': Barrier)
    requires Inv(s) && Next(s, e, s')
    ensures s'.completions != s.completions ==>
      && s'.completions == s.completions + 1 && s.b.numToLeave == 0
      && |Inside(s)| + s.dropped + 1 == s.start
      && forall u :: u in Inside(s) ==> s.pc[u].gen == s.completions
    ensures forall u :: u in Inside(s) && u !in Inside(s') ==>
      s.pc[u].gen + 1 == s.completions == s'.completions && s'.departed == s.departed + {(u, s.completions)}
    ensures forall u :: u in Inside(s') && u !in Inside(s) ==>
      s.b.numToLeave == 0 && s'.pc[u].gen == s.completions == s'.completions
    ensures s'.departed != s.departed ==> s'.departed == s.departed + {(e.t, s'.completions)}
  {
  }

  /** No wakeup is lost: a thread sleeps only while what it waits for is not the case. */
  lemma NoLostWakeup(s: Barrier, t: Tid)
    requires Inv(s) && t in s.pc && s.pc[t] != Out && s.pc[t].asleep
    ensures s.pc[t].AtIdle? ==> s.b.numToLeave != 0
    ensures s.pc[t].AtReady? ==> s.b.numWaiting != s.b.threadCount
  {
    assert s.pc[t].AtReady? ==> t in Inside(s);
  }

  /** Once released, every thread inside can leave, and each that does brings the next
      generation nearer. */
  lemma ReleasedLeave(s: Barrier, t: Tid)
    requires Inv(s) && s.b.numToLeave != 0 && t in Inside(s)
    ensures Next(s, Run(t, 1), Depart(s, t))
    ensures Depart(s, t).b.numToLeave == s.b.numToLeave - 1 == |Inside(Depart(s, t))|
  {
    DepartInv(s, t);
    assert Inside(Depart(s, t)) == Inside(s) - {t};
  }

  ghost predicate IsRun(ss: seq<Barrier>, es: seq<Step>) {
    |ss| == |es| + 1 && Init(ss[0]) && forall k :: 0 <= k < |es| ==> Next(ss[k], es[k], ss[k + 1])
  }

  lemma {:induction false} RunInv(ss: seq<Barrier>, es: seq<Step>, k: nat)
    requires IsRun(ss, es) && k < |ss|
    ensures Inv(ss[k])
  {
    if k == 0 {
      InitInv(ss[0]);
    } else {
      RunInv(ss, es, k - 1);
      NextInv(ss[k - 1], es[k - 1], ss[k]);
    }
  }

  /** In every reachable state: num_to_leave_ is the number of threads released and not yet
      gone, and the threads inside either all wait for a completion still to come or are all
      released by the last one. */
  lemma Reachable(ss: seq<Barrier>, es: seq<Step>, k: nat)
    requires IsRun(ss, es) && k < |ss|
    ensures ss[k].b.numToLeave == 0 || ss[k].b.numToLeave == |Inside(ss[k])|
    ensures forall t :: t in Inside(ss[k]) ==>
      ss[k].pc[t].gen + (if ss[k].b.numToLeave == 0 then 0 else 1) == ss[k].completions
    ensures forall t :: t in ss[k].pc && ss[k].pc[t] != Out && ss[k].pc[t].asleep ==>
      if ss[k].pc[t].AtIdle? then ss[k].b.numToLeave != 0 else ss[k].b.numWaiting != ss[k].b.threadCount
  {
    RunInv(ss, es, k);
    forall t | t in ss[k].pc && ss[k].pc[t] != Out && ss[k].pc[t].asleep
      ensures if ss[k].pc[t].AtIdle? then ss[k].b.numToLeave != 0 else ss[k].b.numWaiting != ss[k].b.threadCount
    {
      NoLostWakeup(ss[k], t);
    }
  }

  /* ---------- what each step does ---------- */

  // Somebody who has been released has not left yet.
  ghost predicate BeingReleased(s: Barrier) {
    exists u :: u in Inside(s) && s.pc[u].gen < s.completions
  }

  // The step of t that comes next makes the generation complete.
  ghost predicate LastOne(s: Barrier) {
    |Inside(s)| + s.dropped + 1 == s.start
  }

  // t has returned after completion number c.
  ghost predicate HasLeft(s: Barrier, t: Tid, c: nat) {
    t in s.pc && s.pc[t] == Out && s.completions == c && (t, c) in s.departed
  }

  ghost predicate IsAt(s: Barrier, t: Tid, p: PC, c: nat) {
    t in s.pc && s.pc[t] == p && s.completions == c
  }

  lemma ReleasedIff(s: Barrier)
    requires Inv(s)
    ensures BeingReleased(s) <==> s.b.numToLeave != 0
    ensures s.b.numToLeave == 0 ==> (LastOne(s) <==> s.b.numWaiting + 1 == s.b.threadCount)
  {
    if s.b.numToLeave != 0 {
      assert |Inside(s)| > 0;
      var u :| u in Inside(s);
      assert s.pc[u].gen < s.completions;
    }
  }

  /** An arrival, in any run: while a released thread is still inside, the arriving thread waits; else
      the last one of its generation completes it and goes on, and any other waits inside. */
  lemma ArrivalDecided(ss: seq<Barrier>, es: seq<Step>, k: nat, t: Tid, result: int)
    requires IsRun(ss, es) && k < |es| && es[k] == Run(t, result)
    requires t in ss[k].pc && ss[k].pc[t].AtIdle? && ss[k].pc[t].kind == Wait
    ensures var s, s', c := ss[k], ss[k + 1], ss[k].completions;
      if BeingReleased(s) then IsAt(s', t, AtIdle(Wait, true), c) && Inside(s') == Inside(s)
      else if LastOne(s) then HasLeft(s', t, c + 1) && Inside(s') == Inside(s)
      else IsAt(s', t, AtReady(true, c), c) && Inside(s') == Inside(s) + {t}
  {
    RunInv(ss, es, k);
    ReleasedIff(ss[k]);
  }

  /** A drop: as an arrival, but the thread never waits inside, and it is gone for good. */
  lemma DropDecided(ss: seq<Barrier>, es: seq<Step>, k: nat, t: Tid, result: int)
    requires IsRun(ss, es) && k < |es| && es[k] == Run(t, result)
    requires t in ss[k].pc && ss[k].pc[t].AtIdle? && ss[k].pc[t].kind == Drop
    ensures var s, s', c := ss[k], ss[k + 1], ss[k].completions;
      && Inside(s') == Inside(s)
      && if BeingReleased(s) then IsAt(s', t, AtIdle(Drop, true), c) && s'.dropped == s.dropped
         else IsAt(s', t, Out, if LastOne(s) then c + 1 else c) && s'.dropped == s.dropped + 1
  {
    RunInv(ss, es, k);
    ReleasedIff(ss[k]);
  }

  /** A thread inside: it leaves when its generation has been completed, and else waits on. */
  lemma ReadyDecided(ss: seq<Barrier>, es: seq<Step>, k: nat, t: Tid, result: int)
    requires IsRun(ss, es) && k < |es| && es[k] == Run(t, result) && t in ss[k].pc && ss[k].pc[t].AtReady?
    ensures var s, s', c, g := ss[k], ss[k + 1], ss[k].completions, ss[k].pc[t].gen;
      if g < c then HasLeft(s', t, c) && Inside(s') == Inside(s) - {t}
      else IsAt(s', t, AtReady(true, g), c) && Inside(s') == Inside(s)
  {
    RunInv(ss, es, k);
    ReleasedIff(ss[k]);
    assert t in Inside(ss[k]);
  }

  // Calls and spurious wakeups.
  lemma OtherDecided(ss: seq<Barrier>, es: seq<Step>, k: nat, t: Tid)
    requires IsRun(ss, es) && k < |es| && es[k].t == t && !es[k].Run?
    ensures var s, s', c := ss[k], ss[k + 1], ss[k].completions;
      && Inside(s') == Inside(s) && s'.departed == s.departed && t in s.pc
      && if es[k].Call? then IsAt(s', t, AtIdle(es[k].kind, false), c)
         else s.pc[t] != Out &&
              IsAt(s', t, if s.pc[t].AtIdle? then AtIdle(s.pc[t].kind, false) else AtReady(false, s.pc[t].gen), c)
  {
  }

  lemma CallPossible(s: Barrier, t: Tid, kind: Kind)
    requires t in s.pc && s.pc[t] == Out
    ensures exists s' :: Next(s, Call(t, kind), s')
  {
    assert Next(s, Call(t, kind), s.(pc := s.pc[t := AtIdle(kind, false)]));
  }

  // A thread asleep may wake without a reason.
  lemma SpuriousPossible(s: Barrier, t: Tid)
    requires t in s.pc && s.pc[t] != Out && s.pc[t].asleep
    ensures exists s' :: Next(s, Spurious(t), s') && s'.pc[t] != Out && !s'.pc[t].asleep
  {
    assert Next(s, Spurious(t), s.(pc := s.pc[t := Awake(s.pc[t])]));
  }

  lemma StepPossible(s: Barrier, t: Tid)
    requires Inv(s) && t in s.pc && s.pc[t] != Out && !s.pc[t].asleep
    requires s.pc[t].AtIdle? && s.pc[t].kind == Drop && !BeingReleased(s) ==> s.start - s.dropped > 1
    ensures exists s' :: Next(s, Run(t, 1), s')
  {
    ReleasedIff(s);
    assert Next(s, Run(t, 1), Stretch(s, t, 1));
  }

  /* ---------- generations over whole runs ---------- */

  ghost predicate Completes(ss: seq<Barrier>, k: nat)
    requires k + 1 < |ss|
  {
    ss[k + 1].completions != ss[k].completions
  }

  // Those who make up the generation that the step completes.
  ghost function Completed(s: Barrier, e: Step): set<Tid>
    requires e.t in s.pc
  {
    Inside(s) + if s.pc[e.t].AtIdle? && s.pc[e.t].kind == Wait then {e.t} else {}
  }

  // Since completion number c: the threads of p have left, or are leaving, and n threads make
  // up the next generation.
  ghost predicate Since(s: Barrier, c: nat, p: set<Tid>, n: int) {
    && s.completions == c
    && (forall u :: u in p ==> (u, c) in s.departed || (u in Inside(s) && s.b.numToLeave > 0))
    && n == if s.b.numToLeave > 0 then s.b.newThreadCount else s.start
  }

  lemma SinceStarts(s: Barrier, e: Step, s': Barrier)
    requires Inv(s) && Next(s, e, s') && s'.completions != s.completions
    ensures e.Run? && s.pc[e.t].AtIdle? && Since(s', s.completions + 1, Completed(s, e), NextCount(s, e))
  {
    StepCounts(s, e, s');
    StepGenerations(s, e, s');
    NextInv(s, e, s');
    assert Inside(s) != {} ==> |Inside(s)| > 0;
  }

  lemma SinceStep(s: Barrier, e: Step, s': Barrier, c: nat, p: set<Tid>, n: int)
    requires Inv(s) && Next(s, e, s') && s'.completions == s.completions && Since(s, c, p, n)
    ensures Since(s', c, p, n)
  {
    StepCounts(s, e, s');
    StepGenerations(s, e, s');
    NextInv(s, e, s');
    assert s'.b.numToLeave == 0 ==> s.b.numToLeave == 0 || |Inside(s')| == 0 || Gathering(s');
  }

  lemma {:induction false} SinceRun(ss: seq<Barrier>, es: seq<Step>, i: nat, k: nat, c: nat, p: set<Tid>, n: int)
    requires IsRun(ss, es) && i <= k < |ss| && Since(ss[i], c, p, n)
    requires forall x :: i <= x < k ==> !Completes(ss, x)
    ensures Since(ss[k], c, p, n)
    decreases k
  {
    if i < k {
      SinceRun(ss, es, i, k - 1, c, p, n);
      assert !Completes(ss, k - 1);
      RunInv(ss, es, k - 1);
      SinceStep(ss[k - 1], es[k - 1], ss[k], c, p, n);
    }
  }

  /** Over whole runs: between one call of the completion function and the next, everybody of
      the completed generation has left; the next call comes when arrivals and drops make up
      as many participants as the previous call decided. */
  lemma OncePerGeneration(ss: seq<Barrier>, es: seq<Step>, j: nat, k: nat)
    requires IsRun(ss, es) && j < k < |es| && Completes(ss, j) && Completes(ss, k)
    requires forall i :: j < i < k ==> !Completes(ss, i)
    ensures es[j].t in ss[j].pc && es[j].Run? && ss[j].pc[es[j].t].AtIdle?
    ensures ss[k].completions == ss[j].completions + 1 && ss[k + 1].completions == ss[j].completions + 2
    ensures forall u :: u in Completed(ss[j], es[j]) ==> (u, ss[k].completions) in ss[k].departed
    ensures |Inside(ss[k])| + ss[k].dropped + 1 == ss[k].start == NextCount(ss[j], es[j])
  {
    RunInv(ss, es, j);
    SinceStarts(ss[j], es[j], ss[j + 1]);
    SinceRun(ss, es, j + 1, k, ss[j].completions + 1, Completed(ss[j], es[j]), NextCount(ss[j], es[j]));
    RunInv(ss, es, k);
    StepGenerations(ss[k], es[k], ss[k + 1]);
  }

  /* ---------- the fields updated in place ---------- */

  /** What one thread does to the fields while it holds the mutex; `result` is what the
      completion function returns if it is called. */
  class FlexBarrier {
    var threadCount: int
    var newThreadCount: int
    var numWaiting: int
    var numToLeave: int

    function Fields(): Counts
      reads this
    {
      Counts(threadCount, newThreadCount, numWaiting, numToLeave)
    }

    constructor (numThreads: int)
      requires numThreads != 0
      ensures threadCount == numThreads && numWaiting == 0 && numToLeave == 0
    {
      threadCount, newThreadCount := numThreads, 0;
      numWaiting, numToLeave := 0, 0;
    }

    method ResetCount(numThreads: int)
      requires numThreads != 0
      modifies this
      ensures Fields() == Reset(old(Fields()), numThreads)
    {
      if numThreads > 0 {
        newThreadCount := numThreads;
      } else {
        newThreadCount := threadCount;
      }
    }

    // The end of arrive_and_wait.
    method LeaveBarrier() returns (notifyIdle: bool)
      modifies this
      ensures Fields() == Leave(old(Fields())) && notifyIdle == (old(numToLeave) == 1)
    {
      notifyIdle := false;
      if numToLeave == 1 {
        threadCount := newThreadCount;
        numWaiting := 0;
        notifyIdle := true;
      }
      numToLeave := numToLeave - 1;
    }

    // arrive_and_wait from idle_.wait to its end, or to the wait on ready_.
    method ArriveAndWait(result: int) returns (waits: bool, notifyReady: bool, notifyIdle: bool)
      requires numToLeave == 0 && result != 0
      modifies this
      ensures var b := old(Fields()).(numWaiting := old(numWaiting) + 1);
        && waits == (b.numWaiting != b.threadCount) && notifyReady == !waits
        && notifyIdle == (!waits && b.threadCount == 1)
        && Fields() == if waits then b else Leave(Release(b, result))
    {
      waits, notifyReady, notifyIdle := false, false, false;
      numWaiting := numWaiting + 1;
      if numWaiting == threadCount {
        numToLeave := threadCount;
        ResetCount(result);
        notifyReady := true;
      } else {
        waits := true;
        return;
      }
      notifyIdle := LeaveBarrier();
    }

    // arrive_and_drop from idle_.wait on.
    method ArriveAndDrop(result: int) returns (notifyReady: bool)
      requires numToLeave == 0 && result != 0 && threadCount != 0
      modifies this
      ensures var b := old(Fields()).(threadCount := old(threadCount) - 1);
        && notifyReady == (b.numWaiting == b.threadCount)
        && Fields() == if notifyReady then Release(b, result) else b
    {
      notifyReady := false;
      threadCount := threadCount - 1;
      if numWaiting == threadCount {
        numToLeave := threadCount;
        ResetCount(result);
        notifyReady := true;
      }
    }
  }
}

/** The bounded queue with two condition variables of include/buffer_queue.h.

    Every stretch of code between acquiring the mutex and releasing or waiting on it is one
    step; sleeping threads wake when notified, or spuriously; copies do not throw.  The
    counters waiting_empty_ and waiting_full_ are those of the code: they decide whether
    notify_one is called, and are not corrected after a spurious wakeup. */
module BufferQueue {
  import opened Wrappers

  type Tid = nat

  datatype PC<V> =
    | Out
    | PopEnter | PopAsleep | PopWoken
    | PushEnter(x: V) | PushAsleep(x: V) | PushWoken(x: V)

  // `pushed` and `popped` are all values ever put in and taken out.
  datatype Queue<V> = Queue(
    cap: nat,
    items: seq<V>,
    closed: bool,
    waitingEmpty: nat,
    waitingFull: nat,
    pc: map<Tid, PC<V>>,
    pushed: seq<V>,
    popped: seq<V>)

  datatype Step<V> =
    | CallPop(t: Tid)
    | CallPush(t: Tid, x: V)
    | Run(t: Tid, wakes: Option<Tid>)
    | TryPop(t: Tid, wakes: Option<Tid>)
    | TryPush(t: Tid, x: V, wakes: Option<Tid>)
    | Close
    | Spurious(t: Tid)

  /* ---------- the threads at the condition variables ---------- */

  ghost function PopSleepers<V>(pc: map<Tid, PC<V>>): set<Tid> {
    set t | t in pc && pc[t].PopAsleep?
  }

  ghost function PushSleepers<V>(pc: map<Tid, PC<V>>): set<Tid> {
    set t | t in pc && pc[t].PushAsleep?
  }

  ghost function PopWokens<V>(pc: map<Tid, PC<V>>): set<Tid> {
    set t | t in pc && pc[t].PopWoken?
  }

  ghost function PushWokens<V>(pc: map<Tid, PC<V>>): set<Tid> {
    set t | t in pc && pc[t].PushWoken?
  }

  function Woken<V>(p: PC<V>): PC<V> {
    match p
    case PopAsleep => PopWoken
    case PushAsleep(x) => PushWoken(x)
    case _ => p
  }

  // notify_one: some sleeper, if there is one
  ghost predicate MayWake(sleepers: set<Tid>, wakes: Option<Tid>) {
    match wakes
    case None => sleepers == {}
    case Some(w) => w in sleepers
  }

  function Wake<V>(pc: map<Tid, PC<V>>, wakes: Option<Tid>): map<Tid, PC<V>> {
    match wakes
    case None => pc
    case Some(w) => if w in pc then pc[w := Woken(pc[w])] else pc
  }

  function WakeAll<V>(pc: map<Tid, PC<V>>): map<Tid, PC<V>> {
    map t | t in pc :: Woken(pc[t])
  }

  /* ---------- the critical sections ---------- */

  // pop_from
  function Take<V>(s: Queue<V>, t: Tid, wakes: Option<Tid>): Queue<V>
    requires s.items != []
  {
    var s1 := s.(items := s.items[1..], popped := s.popped + [s.items[0]], pc := s.pc[t := Out]);
    if s.waitingFull > 0 then s1.(waitingFull := s.waitingFull - 1, pc := Wake(s1.pc, wakes)) else s1
  }

  // push_at
  function Put<V>(s: Queue<V>, t: Tid, x: V, wakes: Option<Tid>): Queue<V> {
    var s1 := s.(items := s.items + [x], pushed := s.pushed + [x], pc := s.pc[t := Out]);
    if s.waitingEmpty > 0 then s1.(waitingEmpty := s.waitingEmpty - 1, pc := Wake(s1.pc, wakes)) else s1
  }

  // One turn of the loop of wait_pop.
  function PopTurn<V>(s: Queue<V>, t: Tid, wakes: Option<Tid>): Queue<V> {
    if s.items != [] then Take(s, t, wakes)
    else if s.closed then s.(pc := s.pc[t := Out])
    else s.(waitingEmpty := s.waitingEmpty + 1, pc := s.pc[t := PopAsleep])
  }

  // One turn of the loop of wait_push.
  function PushTurn<V>(s: Queue<V>, t: Tid, x: V, wakes: Option<Tid>): Queue<V> {
    if s.closed then s.(pc := s.pc[t := Out])
    else if |s.items| < s.cap then Put(s, t, x, wakes)
    else s.(waitingFull := s.waitingFull + 1, pc := s.pc[t := PushAsleep(x)])
  }

  // A turn of the loop of wait_pop or wait_push by a thread at p that has got the mutex.
  ghost predicate Turn<V>(s: Queue<V>, t: Tid, p: PC<V>, wakes: Option<Tid>, s': Queue<V>) {
    match p
    case PopEnter => MayWake(PushSleepers(s.pc), wakes) && s' == PopTurn(s, t, wakes)
    case PopWoken => MayWake(PushSleepers(s.pc), wakes) && s' == PopTurn(s, t, wakes)
    case PushEnter(x) => MayWake(PopSleepers(s.pc), wakes) && s' == PushTurn(s, t, x, wakes)
    case PushWoken(x) => MayWake(PopSleepers(s.pc), wakes) && s' == PushTurn(s, t, x, wakes)
    case _ => false
  }

  ghost predicate Next<V>(s: Queue<V>, e: Step<V>, s': Queue<V>) {
    match e
    case CallPop(t) => t in s.pc && s.pc[t] == Out && s' == s.(pc := s.pc[t := PopEnter])
    case CallPush(t, x) => t in s.pc && s.pc[t] == Out && s' == s.(pc := s.pc[t := PushEnter(x)])
    case Run(t, wakes) =>
      && t in s.pc
      && Turn(s, t, s.pc[t], wakes, s')
    case TryPop(t, wakes) =>
      && t in s.pc && s.pc[t] == Out && MayWake(PushSleepers(s.pc), wakes)
      && s' == if s.items == [] then s else Take(s, t, wakes)
    case TryPush(t, x, wakes) =>
      && t in s.pc && s.pc[t] == Out && MayWake(PopSleepers(s.pc), wakes)
      && s' == if s.closed || |s.items| == s.cap then s else Put(s, t, x, wakes)
    case Close => s' == s.(closed := true, pc := WakeAll(s.pc))
    case Spurious(t) => t in s.pc && s' == s.(pc := s.pc[t := Woken(s.pc[t])])
  }

  ghost predicate Init<V>(s: Queue<V>) {
    && s.cap >= 1 && s.items == [] && s.pushed == [] && s.popped == [] && !s.closed
    && s.waitingEmpty == 0 && s.waitingFull == 0
    && forall t :: t in s.pc ==> s.pc[t] == Out
  }

  /* ---------- no wakeup is lost ---------- */

  // How many threads sleep and how many have been woken, on either side.
  datatype Tally = Tally(popAsleep: nat, pushAsleep: nat, popWoken: nat, pushWoken: nat)

  ghost function Count<V>(pc: map<Tid, PC<V>>): Tally {
    Tally(|PopSleepers(pc)|, |PushSleepers(pc)|, |PopWokens(pc)|, |PushWokens(pc)|)
  }

  ghost predicate Balanced<V>(s: Queue<V>, n: Tally) {
    // each counter is at least the number of sleepers
    && n.popAsleep <= s.waitingEmpty
    && n.pushAsleep <= s.waitingFull
    // while someone sleeps, every element (free slot) has a woken thread coming for it
    && (n.popAsleep > 0 ==> |s.items| <= n.popWoken)
    && (n.pushAsleep > 0 ==> s.cap - |s.items| <= n.pushWoken)
    && (s.closed ==> n.popAsleep == 0 && n.pushAsleep == 0)
  }

  ghost predicate Inv<V>(s: Queue<V>) {
    && s.cap >= 1 && |s.items| <= s.cap && s.popped + s.items == s.pushed
    && Balanced(s, Count(s.pc))
  }

  lemma InitInv<V>(s: Queue<V>)
    requires Init(s)
    ensures Inv(s)
  {
    assert PopSleepers(s.pc) == {} && PushSleepers(s.pc) == {};
  }

  function One(b: bool): int {
    if b then 1 else 0
  }

  lemma SetMoved(a: set<Tid>, b: set<Tid>, t: Tid, there: bool)
    requires (t in b <==> there) && forall u :: u != t ==> (u in a <==> u in b)
    ensures |b| == |a| - One(t in a) + One(there)
  {
    assert b == a - {t} + if there then {t} else {};
  }

  // The tally after one thread's program counter changes.
  lemma Moved<V>(pc: map<Tid, PC<V>>, t: Tid, p: PC<V>)
    requires t in pc
    ensures var n, m, q := Count(pc), Count(pc[t := p]), pc[t];
      && m.popAsleep == n.popAsleep - One(q.PopAsleep?) + One(p.PopAsleep?)
      && m.pushAsleep == n.pushAsleep - One(q.PushAsleep?) + One(p.PushAsleep?)
      && m.popWoken == n.popWoken - One(q.PopWoken?) + One(p.PopWoken?)
      && m.pushWoken == n.pushWoken - One(q.PushWoken?) + One(p.PushWoken?)
  {
    var pc' := pc[t := p];
    SetMoved(PopSleepers(pc), PopSleepers(pc'), t, p.PopAsleep?);
    SetMoved(PushSleepers(pc), PushSleepers(pc'), t, p.PushAsleep?);
    SetMoved(PopWokens(pc), PopWokens(pc'), t, p.PopWoken?);
    SetMoved(PushWokens(pc), PushWokens(pc'), t, p.PushWoken?);
  }

  // notify_one moves one sleeper, if there is one, to the woken.
  lemma WokenPop<V>(pc: map<Tid, PC<V>>, wakes: Option<Tid>)
    requires MayWake(PopSleepers(pc), wakes)
    ensures var n, m := Count(pc), Count(Wake(pc, wakes));
      m == if n.popAsleep > 0 then n.(popAsleep := n.popAsleep - 1, popWoken := n.popWoken + 1) else n
  {
    match wakes
    case None =>
    case Some(w) =>
      assert PopSleepers(pc) != {};
      Moved(pc, w, PopWoken);
  }

  lemma WokenPush<V>(pc: map<Tid, PC<V>>, wakes: Option<Tid>)
    requires MayWake(PushSleepers(pc), wakes)
    ensures var n, m := Count(pc), Count(Wake(pc, wakes));
      m == if n.pushAsleep > 0 then n.(pushAsleep := n.pushAsleep - 1, pushWoken := n.pushWoken + 1) else n
  {
    match wakes
    case None =>
    case Some(w) =>
      assert PushSleepers(pc) != {};
      Moved(pc, w, PushWoken(pc[w].x));
  }

  lemma TakeInv<V>(s: Queue<V>, t: Tid, wakes: Option<Tid>)
    requires Inv(s) && s.items != [] && t in s.pc && MayWake(PushSleepers(s.pc), wakes)
    requires s.pc[t].PopEnter? || s.pc[t].PopWoken? || s.pc[t].Out?
    ensures Inv(Take(s, t, wakes))
  {
    var pc := s.pc[t := Out];
    Moved(s.pc, t, Out);
    assert PushSleepers(pc) == PushSleepers(s.pc);
    if s.waitingFull > 0 { WokenPush(pc, wakes); }
    assert s.items == [s.items[0]] + s.items[1..];
  }

  lemma PutInv<V>(s: Queue<V>, t: Tid, x: V, wakes: Option<Tid>)
    requires Inv(s) && |s.items| < s.cap && !s.closed && t in s.pc && MayWake(PopSleepers(s.pc), wakes)
    requires s.pc[t].PushEnter? || s.pc[t].PushWoken? || s.pc[t].Out?
    ensures Inv(Put(s, t, x, wakes))
  {
    var pc := s.pc[t := Out];
    Moved(s.pc, t, Out);
    assert PopSleepers(pc) == PopSleepers(s.pc);
    if s.waitingEmpty > 0 { WokenPop(pc, wakes); }
  }

  lemma TurnInv<V>(s: Queue<V>, t: Tid, wakes: Option<Tid>, s': Queue<V>)
    requires Inv(s) && t in s.pc && Turn(s, t, s.pc[t], wakes, s')
    ensures Inv(s')
  {
    var p := s.pc[t];
    if p.PopEnter? || p.PopWoken? {
      if s.items != [] { TakeInv(s, t, wakes); } else { Moved(s.pc, t, if s.closed then Out else PopAsleep); }
    } else {
      if !s.closed && |s.items| < s.cap {
        PutInv(s, t, p.x, wakes);
      } else {
        Moved(s.pc, t, if s.closed then Out else PushAsleep(p.x));
      }
    }
  }

  lemma NextInv<V>(s: Queue<V>, e: Step<V>, s': Queue<V>)
    requires Inv(s) && Next(s, e, s')
    ensures Inv(s')
  {
    match e
    case CallPop(t) => Moved(s.pc, t, PopEnter);
    case CallPush(t, x) => Moved(s.pc, t, PushEnter(x));
    case Run(t, wakes) => TurnInv(s, t, wakes, s');
    case TryPop(t, wakes) => if s.items != [] { TakeInv(s, t, wakes); }
    case TryPush(t, x, wakes) => if !s.closed && |s.items| != s.cap { PutInv(s, t, x, wakes); }
    case Close => assert PopSleepers(s'.pc) == {} && PushSleepers(s'.pc) == {};
    case Spurious(t) => Moved(s.pc, t, Woken(s.pc[t]));
  }

  ghost predicate IsRun<V>(ss: seq<Queue<V>>, es: seq<Step<V>>) {
    |ss| == |es| + 1 && Init(ss[0]) && forall k :: 0 <= k < |es| ==> StepsAt(ss, es, k)
  }

  ghost predicate StepsAt<V>(ss: seq<Queue<V>>, es: seq<Step<V>>, k: int)
    requires |ss| == |es| + 1 && 0 <= k < |es|
  {
    Next(ss[k], es[k], ss[k + 1])
  }

  lemma {:induction false} RunInv<V>(ss: seq<Queue<V>>, es: seq<Step<V>>, k: nat)
    requires IsRun(ss, es) && k < |ss|
    ensures Inv(ss[k])
  {
    if k == 0 {
      InitInv(ss[0]);
    } else {
      RunInv(ss, es, k - 1);
      assert StepsAt(ss, es, k - 1);
      NextInv(ss[k - 1], es[k - 1], ss[k]);
    }
  }

  /** No wakeup is lost, whatever the schedule and the spurious wakeups: a sleeping consumer
      means that every element has a woken consumer coming for it, a sleeping producer that
      every free slot has a woken producer; so a producer and a consumer never sleep with
      nobody woken, and once the queue is closed nobody sleeps.  Values leave in the order in
      which they came. */
  lemma NoLostWakeup<V>(ss: seq<Queue<V>>, es: seq<Step<V>>, k: nat)
    requires IsRun(ss, es) && k < |ss|
    ensures PopSleepers(ss[k].pc) != {} ==> |ss[k].items| <= |PopWokens(ss[k].pc)|
    ensures PushSleepers(ss[k].pc) != {} ==> ss[k].cap - |ss[k].items| <= |PushWokens(ss[k].pc)|
    ensures PopSleepers(ss[k].pc) != {} && PushSleepers(ss[k].pc) != {} ==>
      PopWokens(ss[k].pc) != {} || PushWokens(ss[k].pc) != {}
    ensures ss[k].closed ==> PopSleepers(ss[k].pc) == {} && PushSleepers(ss[k].pc) == {}
    ensures ss[k].popped + ss[k].items == ss[k].pushed && |ss[k].items| <= ss[k].cap
  {
    RunInv(ss, es, k);
    assert |PopSleepers(ss[k].pc)| > 0 || PopSleepers(ss[k].pc) == {};
    assert |PushSleepers(ss[k].pc)| > 0 || PushSleepers(ss[k].pc) == {};
  }

  /* ---------- what the calls do, and what close does ---------- */

  // Nothing is put in or taken out.
  ghost predicate Untouched<V>(s: Queue<V>, s': Queue<V>) {
    s'.items == s.items && s'.pushed == s.pushed && s'.popped == s.popped
  }

  ghost predicate TakesFront<V>(s: Queue<V>, s': Queue<V>) {
    |s.items| > 0 && s'.items == s.items[1..] && s'.popped == s.popped + [s.items[0]] && s'.pushed == s.pushed
  }

  ghost predicate Appends<V>(s: Queue<V>, x: V, s': Queue<V>) {
    |s.items| < s.cap && s'.items == s.items + [x] && s'.pushed == s.pushed + [x] && s'.popped == s.popped
  }

  ghost predicate ClosedBefore<V>(es: seq<Step<V>>, k: int)
    requires k <= |es|
  {
    exists j :: 0 <= j < k && es[j] == Close
  }

  lemma NextClosed<V>(s: Queue<V>, e: Step<V>, s': Queue<V>)
    requires Next(s, e, s')
    ensures s'.closed == (s.closed || e == Close) && s'.cap == s.cap && s'.pc.Keys == s.pc.Keys
  {
  }

  // The queue is closed when close has been called, and by nothing else.
  lemma {:induction false} ClosedIs<V>(ss: seq<Queue<V>>, es: seq<Step<V>>, k: nat)
    requires IsRun(ss, es) && k < |ss|
    ensures ss[k].closed <==> ClosedBefore(es, k)
  {
    if k > 0 {
      ClosedIs(ss, es, k - 1);
      assert StepsAt(ss, es, k - 1);
      NextClosed(ss[k - 1], es[k - 1], ss[k]);
      if ClosedBefore(es, k - 1) {
        var j :| 0 <= j < k - 1 && es[j] == Close;
        assert ClosedBefore(es, k);
      }
    }
  }

  /** A turn of wait_pop, in any run: it takes the oldest value; with nothing to take it returns
      when close has been called, and otherwise sleeps. */
  lemma PopTurnDecided<V>(ss: seq<Queue<V>>, es: seq<Step<V>>, k: nat, t: Tid, wakes: Option<Tid>)
    requires IsRun(ss, es) && k < |es| && es[k] == Run(t, wakes)
    requires t in ss[k].pc && !ss[k].pc[t].PushEnter? && !ss[k].pc[t].PushWoken?
    ensures ss[k].pc[t].PopEnter? || ss[k].pc[t].PopWoken?
    ensures t in ss[k + 1].pc
    ensures if |ss[k].items| > 0 then ss[k + 1].pc[t].Out? && TakesFront(ss[k], ss[k + 1])
            else ss[k + 1].pc[t] == (if ClosedBefore(es, k) then Out else PopAsleep) && Untouched(ss[k], ss[k + 1])
  {
    assert StepsAt(ss, es, k);
    ClosedIs(ss, es, k);
  }

  /** A turn of wait_push of x: when close has been called it returns without its value; else
      the value goes in if there is room, and if there is none the thread sleeps. */
  lemma PushTurnDecided<V>(ss: seq<Queue<V>>, es: seq<Step<V>>, k: nat, t: Tid, wakes: Option<Tid>, x: V)
    requires IsRun(ss, es) && k < |es| && es[k] == Run(t, wakes)
    requires t in ss[k].pc && (ss[k].pc[t] == PushEnter(x) || ss[k].pc[t] == PushWoken(x))
    ensures t in ss[k + 1].pc
    ensures if ClosedBefore(es, k) then ss[k + 1].pc[t].Out? && Untouched(ss[k], ss[k + 1])
            else if |ss[k].items| < ss[k].cap then ss[k + 1].pc[t].Out? && Appends(ss[k], x, ss[k + 1])
            else ss[k + 1].pc[t] == PushAsleep(x) && Untouched(ss[k], ss[k + 1])
  {
    assert StepsAt(ss, es, k);
    ClosedIs(ss, es, k);
  }

  /** The other steps: a try takes the oldest value or puts its own in when it can; a call, a
      close and a spurious wakeup touch no value, and who wakes spuriously sleeps no more. */
  lemma OtherStepDecided<V>(ss: seq<Queue<V>>, es: seq<Step<V>>, k: nat)
    requires IsRun(ss, es) && k < |es| && !es[k].Run?
    ensures match es[k]
      case TryPop(t, _) => if |ss[k].items| > 0 then TakesFront(ss[k], ss[k + 1]) else Untouched(ss[k], ss[k + 1])
      case TryPush(t, x, _) =>
        if ClosedBefore(es, k) || |ss[k].items| >= ss[k].cap then Untouched(ss[k], ss[k + 1])
        else Appends(ss[k], x, ss[k + 1])
      case CallPop(t) => Untouched(ss[k], ss[k + 1]) && t in ss[k + 1].pc && ss[k + 1].pc[t] == PopEnter
      case CallPush(t, x) => Untouched(ss[k], ss[k + 1]) && t in ss[k + 1].pc && ss[k + 1].pc[t] == PushEnter(x)
      case Spurious(t) =>
        && Untouched(ss[k], ss[k + 1]) && t in ss[k + 1].pc
        && !ss[k + 1].pc[t].PopAsleep? && !ss[k + 1].pc[t].PushAsleep?
      case _ => Untouched(ss[k], ss[k + 1])
  {
    assert StepsAt(ss, es, k);
    RunInv(ss, es, k);
    ClosedIs(ss, es, k);
  }

  // What happens to a waiting counter: one more when a thread goes to sleep, one fewer, if there
  // is any, when there is an element (a free slot) more to come for.
  function Waits(w: nat, sleeps: bool, wakes: bool): nat {
    if sleeps then w + 1 else if wakes && w > 0 then w - 1 else w
  }

  // The thread whose turn it was is asleep after it.
  predicate PopSleeps<V>(e: Step<V>, s': Queue<V>) {
    e.Run? && e.t in s'.pc && s'.pc[e.t].PopAsleep?
  }

  predicate PushSleeps<V>(e: Step<V>, s': Queue<V>) {
    e.Run? && e.t in s'.pc && s'.pc[e.t].PushAsleep?
  }

  /** The waiting counters, in any run. */
  lemma CountersDecided<V>(ss: seq<Queue<V>>, es: seq<Step<V>>, k: nat)
    requires IsRun(ss, es) && k < |es|
    ensures ss[k + 1].waitingEmpty ==
      Waits(ss[k].waitingEmpty, PopSleeps(es[k], ss[k + 1]), ss[k + 1].pushed != ss[k].pushed)
    ensures ss[k + 1].waitingFull ==
      Waits(ss[k].waitingFull, PushSleeps(es[k], ss[k + 1]), ss[k + 1].popped != ss[k].popped)
  {
    assert StepsAt(ss, es, k);
    NextCounters(ss[k], es[k], ss[k + 1]);
  }

  lemma NextCounters<V>(s: Queue<V>, e: Step<V>, s': Queue<V>)
    requires Next(s, e, s')
    ensures s'.waitingEmpty == Waits(s.waitingEmpty, PopSleeps(e, s'), s'.pushed != s.pushed)
    ensures s'.waitingFull == Waits(s.waitingFull, PushSleeps(e, s'), s'.popped != s.popped)
  {
    match e
    case Run(t, wakes) =>
      var p := s.pc[t];
      if p.PopEnter? || p.PopWoken? { PopTurnCounters(s, t, wakes); }
      else if p.PushEnter? { PushTurnCounters(s, t, p.x, wakes); }
      else { PushTurnCounters(s, t, p.x, wakes); }
    case _ =>
  }

  lemma PopTurnCounters<V>(s: Queue<V>, t: Tid, wakes: Option<Tid>)
    requires MayWake(PushSleepers(s.pc), wakes) && t in s.pc && !s.pc[t].PushAsleep?
    ensures var s' := PopTurn(s, t, wakes);
      && s'.waitingEmpty == Waits(s.waitingEmpty, s'.pc[t].PopAsleep?, false) && s'.pushed == s.pushed
      && s'.waitingFull == Waits(s.waitingFull, false, s'.popped != s.popped) && !s'.pc[t].PushAsleep?
  {
  }

  lemma PushTurnCounters<V>(s: Queue<V>, t: Tid, x: V, wakes: Option<Tid>)
    requires MayWake(PopSleepers(s.pc), wakes) && t in s.pc && !s.pc[t].PopAsleep?
    ensures var s' := PushTurn(s, t, x, wakes);
      && s'.waitingEmpty == Waits(s.waitingEmpty, false, s'.pushed != s.pushed) && !s'.pc[t].PopAsleep?
      && s'.waitingFull == Waits(s.waitingFull, s'.pc[t].PushAsleep?, false) && s'.popped == s.popped
  {
  }

  // A thread that is in a call, and not asleep, can take its turn.
  ghost predicate InCall<V>(p: PC<V>) {
    !p.Out? && !p.PopAsleep? && !p.PushAsleep?
  }

  lemma TurnPossible<V>(s: Queue<V>, t: Tid)
    requires t in s.pc && InCall(s.pc[t])
    ensures exists wakes, s' :: Next(s, Run(t, wakes), s')
  {
    var sleepers := if s.pc[t].PopEnter? || s.pc[t].PopWoken? then PushSleepers(s.pc) else PopSleepers(s.pc);
    var wakes := SomeSleeper(sleepers);
    match s.pc[t]
    case PopEnter => assert Next(s, Run(t, wakes), PopTurn(s, t, wakes));
    case PopWoken => assert Next(s, Run(t, wakes), PopTurn(s, t, wakes));
    case PushEnter(x) => assert Next(s, Run(t, wakes), PushTurn(s, t, x, wakes));
    case PushWoken(x) => assert Next(s, Run(t, wakes), PushTurn(s, t, x, wakes));
    case _ =>
  }

  // A thread asleep may wake without a reason.
  lemma SpuriousPossible<V>(s: Queue<V>, t: Tid)
    requires t in s.pc && !InCall(s.pc[t]) && !s.pc[t].Out?
    ensures exists s' :: Next(s, Spurious(t), s') && InCall(s'.pc[t])
  {
    assert Next(s, Spurious(t), s.(pc := s.pc[t := Woken(s.pc[t])]));
  }

  // A thread that is in no call can make any.
  lemma CallPossible<V>(s: Queue<V>, t: Tid, x: V)
    requires t in s.pc && s.pc[t].Out?
    ensures (exists s' :: Next(s, CallPop(t), s')) && (exists s' :: Next(s, CallPush(t, x), s'))
    ensures (exists wakes, s' :: Next(s, TryPop(t, wakes), s')) && (exists wakes, s' :: Next(s, TryPush(t, x, wakes), s'))
    ensures exists s' :: Next(s, Close, s')
  {
    assert Next(s, CallPop(t), s.(pc := s.pc[t := PopEnter]));
    assert Next(s, CallPush(t, x), s.(pc := s.pc[t := PushEnter(x)]));
    assert Next(s, Close, s.(closed := true, pc := WakeAll(s.pc)));
    var v, w := SomeSleeper(PushSleepers(s.pc)), SomeSleeper(PopSleepers(s.pc));
    assert Next(s, TryPop(t, v), if s.items == [] then s else Take(s, t, v));
    assert Next(s, TryPush(t, x, w), if s.closed || |s.items| == s.cap then s else Put(s, t, x, w));
  }

  ghost function SomeSleeper(sleepers: set<Tid>): (wakes: Option<Tid>)
    ensures MayWake(sleepers, wakes)
  {
    if sleepers == {} then None else
      var w :| w in sleepers;
      Some(w)
  }

  /** Close, in any run: from then on nobody sleeps, nothing is put in, every thread that is in
      a call can take its turn, and that turn is its last: a consumer gets a value or, when none is
      left, nothing; a producer returns without its value. */
  lemma AfterClose<V>(ss: seq<Queue<V>>, es: seq<Step<V>>, j: nat, k: nat)
    requires IsRun(ss, es) && j < k < |ss| && es[j] == Close
    ensures PopSleepers(ss[k].pc) == {} && PushSleepers(ss[k].pc) == {}
    ensures ss[k].pushed == ss[j].pushed
    ensures forall t :: t in ss[k].pc && !ss[k].pc[t].Out? ==> exists wakes, s' :: Next(ss[k], Run(t, wakes), s')
    ensures k < |es| && es[k].Run? ==> es[k].t in ss[k + 1].pc && ss[k + 1].pc[es[k].t].Out?
  {
    assert ClosedBefore(es, k);
    ClosedIs(ss, es, k);
    NoLostWakeup(ss, es, k);
    PushedStays(ss, es, j, k);
    forall t | t in ss[k].pc && !ss[k].pc[t].Out? ensures exists wakes, s' :: Next(ss[k], Run(t, wakes), s') {
      assert t !in PopSleepers(ss[k].pc) && t !in PushSleepers(ss[k].pc);
      TurnPossible(ss[k], t);
    }
    if k < |es| && es[k].Run? { assert StepsAt(ss, es, k); }
  }

  lemma {:induction false} PushedStays<V>(ss: seq<Queue<V>>, es: seq<Step<V>>, j: nat, k: nat)
    requires IsRun(ss, es) && j < k < |ss| && es[j] == Close
    ensures ss[k].pushed == ss[j].pushed
    decreases k
  {
    assert StepsAt(ss, es, k - 1);
    if k - 1 > j {
      PushedStays(ss, es, j, k - 1);
      assert ClosedBefore(es, k - 1);
      ClosedIs(ss, es, k - 1);
    }
  }

  /* ---------- the ring in place ---------- */

  datatype Status = Success | Empty | Full | Closed

  /** The buffer of num_slots_ cells, one of which is always free, and the counters, as the
      holder of the mutex sees them.  View is the state of the transition system: each method is
      one of its critical sections, of thread t, with the sleeper that notify_one wakes. */
  class Ring<V(0)> {
    const buffer: array<V>
    const numSlots: nat
    var pushIndex: nat
    var popIndex: nat
    var closed: bool
    var waitingEmpty: nat
    var waitingFull: nat
    ghost var items: seq<V>
    ghost var pc: map<Tid, PC<V>>
    ghost var pushed: seq<V>
    ghost var popped: seq<V>

    ghost predicate Valid()
      reads this, buffer
    {
      && numSlots >= 2 && buffer.Length == numSlots
      && pushIndex < numSlots && popIndex < numSlots
      && |items| == (if popIndex <= pushIndex then pushIndex - popIndex else pushIndex - popIndex + numSlots)
      && forall k :: 0 <= k < |items| ==> items[k] == buffer[Cell(k)]
    }

    // The cell of the k-th queued value.
    function Cell(k: nat): nat
      reads this
    {
      if popIndex + k < numSlots then popIndex + k
      else if popIndex + k - numSlots < numSlots then popIndex + k - numSlots else 0
    }

    ghost function View(): Queue<V>
      requires numSlots >= 1
      reads this
    {
      Queue(numSlots - 1, items, closed, waitingEmpty, waitingFull, pc, pushed, popped)
    }

    // init throws for fewer than one element
    constructor (maxElems: nat)
      requires maxElems >= 1
      ensures Valid() && numSlots == maxElems + 1 && fresh(buffer)
      ensures Init(View())
    {
      buffer := new V[maxElems + 1];
      numSlots, pushIndex, popIndex := maxElems + 1, 0, 0;
      closed, waitingEmpty, waitingFull := false, 0, 0;
      items, pc, pushed, popped := [], map[], [], [];
    }

    function NextIndex(idx: nat): nat
      requires numSlots > 0
    {
      (idx + 1) % numSlots
    }

    lemma NextIs(idx: nat)
      requires idx < numSlots
      ensures NextIndex(idx) == if idx + 1 == numSlots then 0 else idx + 1
    {
    }

    // pop_index_ moves on.
    method DropFirst(pdx: nat) returns (elem: V)
      requires Valid() && pdx == popIndex && items != []
      modifies this`popIndex, this`items
      ensures Valid() && items == old(items)[1..] && elem == old(items)[0]
    {
      assert items[0] == buffer[Cell(0)];
      NextIs(pdx);
      elem := buffer[pdx];
      popIndex := NextIndex(pdx);
      items := items[1..];
    }

    method PopFrom(pdx: nat, ghost t: Tid, ghost wakes: Option<Tid>) returns (elem: V, notify: bool)
      requires Valid() && pdx == popIndex && items != []
      modifies this
      ensures Valid() && View() == Take(old(View()), t, wakes)
      ensures elem == old(items)[0] && notify == (old(waitingFull) > 0)
    {
      elem := DropFirst(pdx);
      popped, pc := popped + [elem], pc[t := Out];
      notify := waitingFull > 0;
      if notify {
        waitingFull := waitingFull - 1;
        pc := Wake(pc, wakes);
      }
    }

    method PushReindex(nxt: nat, elem: V, ghost t: Tid, ghost wakes: Option<Tid>) returns (notify: bool)
      requires Valid() && nxt == NextIndex(pushIndex) != popIndex && buffer[pushIndex] == elem
      modifies this
      ensures Valid() && View() == Put(old(View()), t, elem, wakes) && notify == (old(waitingEmpty) > 0)
    {
      NextIs(pushIndex);
      pushIndex := nxt;
      items, pushed, pc := items + [elem], pushed + [elem], pc[t := Out];
      notify := waitingEmpty > 0;
      if notify {
        waitingEmpty := waitingEmpty - 1;
        pc := Wake(pc, wakes);
      }
    }

    // push_at: the copy, then the change to the queue
    method PushAt(elem: V, hdx: nat, nxt: nat, ghost t: Tid, ghost wakes: Option<Tid>) returns (notify: bool)
      requires Valid() && hdx == pushIndex && nxt == NextIndex(hdx) != popIndex
      modifies this, buffer
      ensures Valid() && View() == Put(old(View()), t, elem, wakes) && notify == (old(waitingEmpty) > 0)
    {
      NextIs(hdx);
      buffer[hdx] := elem;
      notify := PushReindex(nxt, elem, t, wakes);
    }

    /** close: from now on the turns and tries below return. */
    method Close()
      requires Valid()
      modifies this
      ensures Valid() && closed && items == old(items) && pushed == old(pushed) && popped == old(popped)
      ensures forall t :: t in pc ==> !pc[t].PopAsleep? && !pc[t].PushAsleep?
      ensures Next(old(View()), Step.Close, View())
    {
      closed := true;
      pc := WakeAll(pc);
    }

    /** try_pop_common: the oldest value, or the reason why there is none. */
    method TryPopCommon(ghost t: Tid, ghost wakes: Option<Tid>) returns (status: Status, elem: Option<V>, notify: bool)
      requires Valid()
      modifies this
      ensures Valid() && View() == if old(items) == [] then old(View()) else Take(old(View()), t, wakes)
      ensures status == if old(items) != [] then Success else if closed then Closed else Empty
      ensures elem == if status == Success then Some(old(items)[0]) else None
      ensures notify == (status == Success && old(waitingFull) > 0)
    {
      var pdx := popIndex;
      if pdx == pushIndex {
        return if closed then Closed else Empty, None, false;
      }
      var x;
      x, notify := PopFrom(pdx, t, wakes);
      return Success, Some(x), notify;
    }

    /** try_push_common: the value is appended unless the queue is closed or full. */
    method TryPushCommon(elem: V, ghost t: Tid, ghost wakes: Option<Tid>) returns (status: Status, notify: bool)
      requires Valid()
      modifies this, buffer
      ensures Valid()
      ensures status == if closed then Closed else if |old(items)| == numSlots - 1 then Full else Success
      ensures View() == if status == Success then Put(old(View()), t, elem, wakes) else old(View())
      ensures notify == (status == Success && old(waitingEmpty) > 0)
    {
      if closed {
        return Closed, false;
      }
      var hdx := pushIndex;
      NextIs(hdx);
      var nxt := NextIndex(hdx);
      if nxt == popIndex {
        return Full, false;
      }
      notify := PushAt(elem, hdx, nxt, t, wakes);
      return Success, notify;
    }

    /** A turn of the loop of wait_pop; no status when the thread goes to sleep on not_empty_. */
    method WaitPopTurn(ghost t: Tid, ghost wakes: Option<Tid>)
      returns (status: Option<Status>, elem: Option<V>, notify: bool)
      requires Valid()
      modifies this
      ensures Valid() && View() == PopTurn(old(View()), t, wakes)
      ensures status == if old(items) != [] then Some(Success) else if closed then Some(Closed) else None
      ensures elem == if old(items) != [] then Some(old(items)[0]) else None
      ensures notify == (old(items) != [] && old(waitingFull) > 0)
    {
      var pdx := popIndex;
      if pdx != pushIndex {
        var x;
        x, notify := PopFrom(pdx, t, wakes);
        return Some(Success), Some(x), notify;
      }
      if closed {
        pc := pc[t := Out];
        return Some(Closed), None, false;
      }
      waitingEmpty, pc := waitingEmpty + 1, pc[t := PopAsleep];
      return None, None, false;
    }

    /** A turn of the loop of wait_push; no status when the thread goes to sleep on not_full_. */
    method WaitPushTurn(elem: V, ghost t: Tid, ghost wakes: Option<Tid>) returns (status: Option<Status>, notify: bool)
      requires Valid()
      modifies this, buffer
      ensures Valid() && View() == PushTurn(old(View()), t, elem, wakes)
      ensures status == if closed then Some(Closed) else if |old(items)| < numSlots - 1 then Some(Success) else None
      ensures notify == (status == Some(Success) && old(waitingEmpty) > 0)
    {
      if closed {
        pc := pc[t := Out];
        return Some(Closed), false;
      }
      var hdx := pushIndex;
      NextIs(hdx);
      var nxt := NextIndex(hdx);
      if nxt != popIndex {
        notify := PushAt(elem, hdx, nxt, t, wakes);
        return Some(Success), notify;
      }
      waitingFull, pc := waitingFull + 1, pc[t := PushAsleep(elem)];
      return None, false;
    }
  }
}

/** What a call on the lock-free queue returns, and after how many accesses of its own, in any
    run and whatever the other threads do in between. */
module LockFreeOutcome {
  import opened LockFreeBufferQueue

  // The most accesses a thread at p can still make before it returns.
  function AccessesLeft<V>(p: PC<V>): nat {
    match p
    case PushStart(_) => 6
    case PushTailLoaded(_, _) => 5
    case PushNotFull(_, _) => 4
    case PushSawWaiting(_, _) => 3
    case PushReserved(_, _) => 2
    case PushStored(_, _) => 1
    case PopStart => 6
    case PopHeadLoaded(_) => 5
    case PopNotEmpty(_) => 4
    case PopSawValid(_) => 3
    case PopReserved(_) => 2
    case PopCopied(_, _) => 1
    case PopSawInvalid(_) => 2
    case PopSkipped(_) => 1
    case Idle => 0
    case Returning(_) => 0
  }

  // How many of the events n to m - 1 are accesses of thread t.
  function Accesses<V(==)>(es: seq<Event<V>>, t: Tid, n: nat, m: nat): nat
    requires n <= m <= |es|
    decreases m
  {
    if n == m then 0 else Accesses(es, t, n, m - 1) + if es[m - 1] == Access(t) then 1 else 0
  }

  lemma StepLowers<V>(r: Ring<V>, t: Tid, p: PC<V>)
    requires Sized(r) && !p.Idle? && !p.Returning?
    ensures AccessesLeft(Step(r, t, p).1) < AccessesLeft(p) && !Step(r, t, p).1.Idle?
  {
  }

  // Own accesses use up the bound, and nobody else's event raises it.
  lemma NextLowers<V>(s: Queue<V>, e: Event<V>, s': Queue<V>, t: Tid)
    requires Next(s, e, s') && t in s.pc && !s.pc[t].Idle? && !(e.Return? && e.tid == t)
    ensures t in s'.pc && !s'.pc[t].Idle?
    ensures AccessesLeft(s'.pc[t]) + (if e == Access(t) then 1 else 0) <= AccessesLeft(s.pc[t])
  {
    if e == Access(t) { StepLowers(s.ring, t, s.pc[t]); }
  }

  lemma {:induction false} BoundLowers<V>(ss: seq<Queue<V>>, es: seq<Event<V>>, t: Tid, op: Op<V>, n: nat, m: nat)
    requires IsRun(ss, es) && n < m <= |es| && es[n] == Invoke(t, op)
    requires forall i :: n < i < m ==> !es[i].Return? || es[i].tid != t
    ensures t in ss[m].pc && !ss[m].pc[t].Idle?
    ensures Accesses(es, t, n + 1, m) + AccessesLeft(ss[m].pc[t]) <= 6
    decreases m
  {
    assert Next(ss[m - 1], es[m - 1], ss[m]);
    if m > n + 1 {
      BoundLowers(ss, es, t, op, n, m - 1);
      NextLowers(ss[m - 1], es[m - 1], ss[m], t);
    }
  }

  /** No call waits for another thread: at most six accesses after its invocation it returns,
      and until then its next access is possible, wherever the other threads have stopped. */
  lemma WaitFree<V(!new)>(ss: seq<Queue<V>>, es: seq<Event<V>>, t: Tid, op: Op<V>, n: nat, m: nat)
    requires IsRun(ss, es) && n < m <= |es| && es[n] == Invoke(t, op)
    requires forall i :: n < i < m ==> !es[i].Return? || es[i].tid != t
    ensures Accesses(es, t, n + 1, m) <= 6
    ensures t in ss[m].pc && (Accesses(es, t, n + 1, m) == 6 ==> ss[m].pc[t].Returning?)
    ensures ss[m].pc[t].Returning? || exists s' :: Next(ss[m], Access(t), s')
  {
    BoundLowers(ss, es, t, op, n, m);
    RunInv(ss, es, m);
    var r, p := ss[m].ring, ss[m].pc[t];
    if !p.Returning? {
      assert Next(ss[m], Access(t), Queue(Step(r, t, p).0, ss[m].pc[t := Step(r, t, p).1]));
    }
  }

  // A thread that is in no call can make any, and one with a result can return it.
  lemma CallPossible<V>(s: Queue<V>, t: Tid, op: Op<V>)
    requires Sized(s.ring) && t in s.pc
    ensures s.pc[t].Idle? ==> exists s' :: Next(s, Invoke(t, op), s')
    ensures s.pc[t].Returning? ==> exists s' :: Next(s, Return(t, s.pc[t].r), s')
  {
    if s.pc[t].Idle? { assert Next(s, Invoke(t, op), s.(pc := s.pc[t := Begin(op)])); }
    if s.pc[t].Returning? { assert Next(s, Return(t, s.pc[t].r), s.(pc := s.pc[t := Idle])); }
  }

  /* ---------- how the result is decided ---------- */

  // A call of thread t: invoked at event n, returning r at event j, and making its accesses at
  // exactly the events in own.
  ghost predicate Call<V>(ss: seq<Queue<V>>, es: seq<Event<V>>, t: Tid, op: Op<V>, r: Result<V>, n: nat,
                          own: seq<nat>, j: nat) {
    && IsRun(ss, es) && n < j < |es| && es[n] == Invoke(t, op) && es[j] == Return(t, r)
    && (forall i :: 0 <= i < |own| ==> n < own[i] < j && es[own[i]] == Access(t))
    && (forall i, k :: 0 <= i < k < |own| ==> own[i] < own[k])
    && (forall i: nat :: n < i < j && es[i].tid == t ==> i in own)
  }

  // The event of the i-th access of the call, or of its return after the last.
  function Own(own: seq<nat>, j: nat, i: nat): nat {
    if i < |own| then own[i] else j
  }

  // What the others do leaves the program counter of t alone.
  lemma {:induction false} Stays<V(!new)>(ss: seq<Queue<V>>, es: seq<Event<V>>, t: Tid, n: nat, m: nat)
    requires IsRun(ss, es) && n <= m <= |es| && t in ss[n].pc
    requires forall i :: n <= i < m ==> es[i].tid != t
    ensures t in ss[m].pc && ss[m].pc[t] == ss[n].pc[t]
    decreases m
  {
    if n < m {
      Stays(ss, es, t, n, m - 1);
      assert Next(ss[m - 1], es[m - 1], ss[m]);
    }
  }

  lemma {:induction false} Card<V(!new)>(ss: seq<Queue<V>>, es: seq<Event<V>>, n: nat)
    requires IsRun(ss, es) && n < |ss|
    ensures ss[n].ring.card == ss[0].ring.card && Sized(ss[n].ring)
  {
    RunInv(ss, es, n);
    if n > 0 {
      Card(ss, es, n - 1);
      assert Next(ss[n - 1], es[n - 1], ss[n]);
    }
  }

  // Nothing of t happens between two of its accesses.
  lemma Gap(own: seq<nat>, j: nat, i: nat, k: nat)
    requires i < |own| && own[i] < k < Own(own, j, i + 1)
    requires forall a, b :: 0 <= a < b < |own| ==> own[a] < own[b]
    ensures k !in own
  {
  }

  lemma FirstOwn<V(!new)>(ss: seq<Queue<V>>, es: seq<Event<V>>, t: Tid, op: Op<V>, r: Result<V>, n: nat,
                          own: seq<nat>, j: nat)
    requires Call(ss, es, t, op, r, n, own, j)
    ensures var k := Own(own, j, 0); t in ss[k].pc && ss[k].pc[t] == Begin(op)
  {
    assert Next(ss[n], es[n], ss[n + 1]);
    Stays(ss, es, t, n + 1, Own(own, j, 0));
  }

  // From one own access to the next, or to the return.
  lemma NextOwn<V(!new)>(ss: seq<Queue<V>>, es: seq<Event<V>>, t: Tid, op: Op<V>, r: Result<V>, n: nat, own: seq<nat>,
                         j: nat, i: nat)
    requires Call(ss, es, t, op, r, n, own, j) && i < |own|
    ensures var a, k := own[i], Own(own, j, i + 1);
      && Inv(ss[a]) && t in ss[a].pc && t in ss[k].pc && !ss[a].pc[t].Returning?
      && Sized(ss[a].ring) && LocalInv(ss[a].ring, t, ss[a].pc[t])
      && ss[a + 1].ring == Step(ss[a].ring, t, ss[a].pc[t]).0
      && ss[k].pc[t] == Step(ss[a].ring, t, ss[a].pc[t]).1
  {
    var a, k := own[i], Own(own, j, i + 1);
    RunInv(ss, es, a);
    assert Next(ss[a], es[a], ss[a + 1]);
    forall c | a + 1 <= c < k ensures es[c].tid != t { Gap(own, j, i, c); }
    Stays(ss, es, t, a + 1, k);
  }

  // The call goes on from its i-th access exactly while it has not got its result.
  lemma GoesOn<V(!new)>(ss: seq<Queue<V>>, es: seq<Event<V>>, t: Tid, op: Op<V>, r: Result<V>, n: nat, own: seq<nat>,
                        j: nat, i: nat)
    requires Call(ss, es, t, op, r, n, own, j) && i <= |own| && t in ss[Own(own, j, i)].pc
    ensures i < |own| <==> !ss[Own(own, j, i)].pc[t].Returning?
    ensures i == |own| ==> ss[Own(own, j, i)].pc[t] == Returning(r)
  {
    if i < |own| {
      NextOwn(ss, es, t, op, r, n, own, j, i);
    } else {
      assert Next(ss[j], es[j], ss[j + 1]);
    }
  }

  // One access of the call, made at program counter p.
  lemma Access1<V(!new)>(ss: seq<Queue<V>>, es: seq<Event<V>>, t: Tid, op: Op<V>, r: Result<V>, n: nat, own: seq<nat>,
                         j: nat, i: nat, p: PC<V>)
    returns (p': PC<V>)
    requires Call(ss, es, t, op, r, n, own, j) && i <= |own| && !p.Returning?
    requires t in ss[Own(own, j, i)].pc && ss[Own(own, j, i)].pc[t] == p
    ensures i < |own| && var a := own[i];
      && Inv(ss[a]) && Sized(ss[a].ring) && LocalInv(ss[a].ring, t, p)
      && ss[a + 1].ring == Step(ss[a].ring, t, p).0 && p' == Step(ss[a].ring, t, p).1
    ensures t in ss[Own(own, j, i + 1)].pc && ss[Own(own, j, i + 1)].pc[t] == p'
    ensures i + 1 < |own| <==> !p'.Returning?
    ensures p'.Returning? ==> p' == Returning(r)
  {
    GoesOn(ss, es, t, op, r, n, own, j, i);
    NextOwn(ss, es, t, op, r, n, own, j, i);
    p' := ss[Own(own, j, i + 1)].pc[t];
    GoesOn(ss, es, t, op, r, n, own, j, i + 1);
  }

  ghost predicate Sizes<V>(ss: seq<Queue<V>>, c: nat) {
    c >= 1 && forall i :: 0 <= i < |ss| ==> ss[i].ring.card == |ss[i].ring.slots| == |ss[i].ring.values| == c
  }

  lemma RunSizes<V(!new)>(ss: seq<Queue<V>>, es: seq<Event<V>>)
    requires IsRun(ss, es)
    ensures Sizes(ss, ss[0].ring.card)
  {
    forall i | 0 <= i < |ss| ensures ss[i].ring.card == ss[0].ring.card && Sized(ss[i].ring) { Card(ss, es, i); }
  }

  // The program counter of t before event m.
  ghost predicate At<V>(ss: seq<Queue<V>>, m: nat, t: Tid, p: PC<V>) {
    m < |ss| && t in ss[m].pc && ss[m].pc[t] == p
  }

  lemma PushTail<V(!new)>(ss: seq<Queue<V>>, es: seq<Event<V>>, t: Tid, x: V, r: Result<V>, n: nat, own: seq<nat>, j: nat)
    requires Call(ss, es, t, Push(x), r, n, own, j) && 0 <= |own| && At(ss, Own(own, j, 0), t, PushStart(x))
    ensures |own| > 1 && At(ss, Own(own, j, 1), t, PushTailLoaded(x, ss[own[0]].ring.tail))
  {
    var p := Access1(ss, es, t, Push(x), r, n, own, j, 0, PushStart(x));
  }

  lemma PushHead<V(!new)>(ss: seq<Queue<V>>, es: seq<Event<V>>, t: Tid, x: V, r: Result<V>, n: nat, own: seq<nat>,
                          j: nat, k: nat)
    requires Call(ss, es, t, Push(x), r, n, own, j) && 1 <= |own| && At(ss, Own(own, j, 1), t, PushTailLoaded(x, k))
    ensures |own| > 1 && if k == ss[own[1]].ring.head + ss[own[1]].ring.card then r == Full && |own| == 2
                         else |own| > 2 && At(ss, Own(own, j, 2), t, PushNotFull(x, k))
  {
    var p := Access1(ss, es, t, Push(x), r, n, own, j, 1, PushTailLoaded(x, k));
  }

  lemma PushSlot<V(!new)>(ss: seq<Queue<V>>, es: seq<Event<V>>, t: Tid, x: V, r: Result<V>, n: nat, own: seq<nat>,
                          j: nat, k: nat)
    requires Call(ss, es, t, Push(x), r, n, own, j) && 2 <= |own| && At(ss, Own(own, j, 2), t, PushNotFull(x, k))
    ensures |own| > 2 && Sized(ss[own[2]].ring)
    ensures if ss[own[2]].ring.slots[k % ss[own[2]].ring.card] != Waiting then r == Busy && |own| == 3
            else |own| > 3 && At(ss, Own(own, j, 3), t, PushSawWaiting(x, k))
  {
    var p := Access1(ss, es, t, Push(x), r, n, own, j, 2, PushNotFull(x, k));
  }

  lemma PushExchange<V(!new)>(ss: seq<Queue<V>>, es: seq<Event<V>>, t: Tid, x: V, r: Result<V>, n: nat, own: seq<nat>,
                              j: nat, k: nat)
    requires Call(ss, es, t, Push(x), r, n, own, j) && 3 <= |own| && At(ss, Own(own, j, 3), t, PushSawWaiting(x, k))
    ensures |own| > 3 && if ss[own[3]].ring.tail != k then r == Busy && |own| == 4
      else
        && |own| > 4 && At(ss, Own(own, j, 4), t, PushReserved(x, k))
        && ss[own[3] + 1].ring.tail == k + 1 && ss[own[3] + 1].ring.log == ss[own[3]].ring.log + [x]
  {
    var p := Access1(ss, es, t, Push(x), r, n, own, j, 3, PushSawWaiting(x, k));
  }

  lemma PushStore<V(!new)>(ss: seq<Queue<V>>, es: seq<Event<V>>, t: Tid, x: V, r: Result<V>, n: nat, own: seq<nat>,
                           j: nat, k: nat)
    requires Call(ss, es, t, Push(x), r, n, own, j) && 4 <= |own| && At(ss, Own(own, j, 4), t, PushReserved(x, k))
    ensures |own| > 5 && At(ss, Own(own, j, 5), t, PushStored(x, k)) && Sized(ss[own[4]].ring)
    ensures ss[own[4] + 1].ring.values == ss[own[4]].ring.values[k % ss[own[4]].ring.card := x]
  {
    var p := Access1(ss, es, t, Push(x), r, n, own, j, 4, PushReserved(x, k));
  }

  lemma PushSet<V(!new)>(ss: seq<Queue<V>>, es: seq<Event<V>>, t: Tid, x: V, r: Result<V>, n: nat, own: seq<nat>,
                         j: nat, k: nat)
    requires Call(ss, es, t, Push(x), r, n, own, j) && 5 <= |own| && At(ss, Own(own, j, 5), t, PushStored(x, k))
    ensures |own| == 6 && r == Pushed && Sized(ss[own[5]].ring)
    ensures ss[own[5] + 1].ring.slots == ss[own[5]].ring.slots[k % ss[own[5]].ring.card := Valid]
  {
    var p := Access1(ss, es, t, Push(x), r, n, own, j, 5, PushStored(x, k));
    SetStateInv(ss[own[5]].ring, t, x, k);
  }

  /** A push in any run: the tail found by its first access is the ticket k it tries for.  It
      is full, busy or done as the ring is at its own accesses, and then these were its only
      ones. */
  lemma PushDecided<V(!new)>(ss: seq<Queue<V>>, es: seq<Event<V>>, t: Tid, x: V, r: Result<V>, n: nat, own: seq<nat>, j: nat)
    requires Call(ss, es, t, Push(x), r, n, own, j)
    ensures |own| >= 2 && Sizes(ss, ss[0].ring.card)
    ensures var c, k := ss[0].ring.card, ss[own[0]].ring.tail;
      if ss[own[1]].ring.head + c == k then r == Full && |own| == 2
      else |own| >= 3 && if ss[own[2]].ring.slots[k % c] != Waiting then r == Busy && |own| == 3
      else |own| >= 4 && if ss[own[3]].ring.tail != k then r == Busy && |own| == 4
      else
        && r == Pushed && |own| == 6
        && ss[own[3] + 1].ring.tail == k + 1 && ss[own[3] + 1].ring.log == ss[own[3]].ring.log + [x]
        && ss[own[4] + 1].ring.values == ss[own[4]].ring.values[k % c := x]
        && ss[own[5] + 1].ring.slots == ss[own[5]].ring.slots[k % c := Valid]
  {
    RunSizes(ss, es);
    FirstOwn(ss, es, t, Push(x), r, n, own, j);
    PushTail(ss, es, t, x, r, n, own, j);
    var c, k := ss[0].ring.card, ss[own[0]].ring.tail;
    PushHead(ss, es, t, x, r, n, own, j, k);
    if ss[own[1]].ring.head + c != k {
      PushSlot(ss, es, t, x, r, n, own, j, k);
      if ss[own[2]].ring.slots[k % c] == Waiting {
        PushExchange(ss, es, t, x, r, n, own, j, k);
        if ss[own[3]].ring.tail == k {
          PushStore(ss, es, t, x, r, n, own, j, k);
          PushSet(ss, es, t, x, r, n, own, j, k);
        }
      }
    }
  }

  lemma PopHead<V(!new)>(ss: seq<Queue<V>>, es: seq<Event<V>>, t: Tid, r: Result<V>, n: nat, own: seq<nat>, j: nat)
    requires Call(ss, es, t, Pop, r, n, own, j) && 0 <= |own| && At(ss, Own(own, j, 0), t, PopStart)
    ensures |own| > 1 && At(ss, Own(own, j, 1), t, PopHeadLoaded(ss[own[0]].ring.head))
  {
    var p := Access1(ss, es, t, Pop, r, n, own, j, 0, PopStart);
  }

  lemma PopTail<V(!new)>(ss: seq<Queue<V>>, es: seq<Event<V>>, t: Tid, r: Result<V>, n: nat, own: seq<nat>, j: nat, k: nat)
    requires Call(ss, es, t, Pop, r, n, own, j) && 1 <= |own| && At(ss, Own(own, j, 1), t, PopHeadLoaded(k))
    ensures |own| > 1 && if ss[own[1]].ring.tail == k then r == Empty && |own| == 2
                         else |own| > 2 && At(ss, Own(own, j, 2), t, PopNotEmpty(k))
  {
    var p := Access1(ss, es, t, Pop, r, n, own, j, 1, PopHeadLoaded(k));
  }

  lemma PopSlot<V(!new)>(ss: seq<Queue<V>>, es: seq<Event<V>>, t: Tid, r: Result<V>, n: nat, own: seq<nat>, j: nat, k: nat)
    requires Call(ss, es, t, Pop, r, n, own, j) && 2 <= |own| && At(ss, Own(own, j, 2), t, PopNotEmpty(k))
    ensures |own| > 2 && Sized(ss[own[2]].ring)
    ensures if ss[own[2]].ring.slots[k % ss[own[2]].ring.card] != Valid then r == Busy && |own| == 3
            else |own| > 3 && At(ss, Own(own, j, 3), t, PopSawValid(k))
  {
    var p := Access1(ss, es, t, Pop, r, n, own, j, 2, PopNotEmpty(k));
  }

  lemma PopExchange<V(!new)>(ss: seq<Queue<V>>, es: seq<Event<V>>, t: Tid, r: Result<V>, n: nat, own: seq<nat>,
                             j: nat, k: nat)
    requires Call(ss, es, t, Pop, r, n, own, j) && 3 <= |own| && At(ss, Own(own, j, 3), t, PopSawValid(k))
    ensures |own| > 3 && if ss[own[3]].ring.head != k then r == Busy && |own| == 4
      else |own| > 4 && At(ss, Own(own, j, 4), t, PopReserved(k)) && ss[own[3] + 1].ring.head == k + 1
  {
    var p := Access1(ss, es, t, Pop, r, n, own, j, 3, PopSawValid(k));
  }

  lemma PopCopy<V(!new)>(ss: seq<Queue<V>>, es: seq<Event<V>>, t: Tid, r: Result<V>, n: nat, own: seq<nat>, j: nat, k: nat)
    requires Call(ss, es, t, Pop, r, n, own, j) && 4 <= |own| && At(ss, Own(own, j, 4), t, PopReserved(k))
    ensures |own| > 5 && Sized(ss[own[4]].ring)
    ensures At(ss, Own(own, j, 5), t, PopCopied(k, ss[own[4]].ring.values[k % ss[own[4]].ring.card]))
  {
    var p := Access1(ss, es, t, Pop, r, n, own, j, 4, PopReserved(k));
  }

  lemma PopClear<V(!new)>(ss: seq<Queue<V>>, es: seq<Event<V>>, t: Tid, r: Result<V>, n: nat, own: seq<nat>, j: nat,
                          k: nat, v: V)
    requires Call(ss, es, t, Pop, r, n, own, j) && 5 <= |own| && At(ss, Own(own, j, 5), t, PopCopied(k, v))
    ensures |own| == 6 && r == Popped(v) && Sized(ss[own[5]].ring)
    ensures ss[own[5] + 1].ring.slots == ss[own[5]].ring.slots[k % ss[own[5]].ring.card := Waiting]
  {
    var p := Access1(ss, es, t, Pop, r, n, own, j, 5, PopCopied(k, v));
    ClearValueInv(ss[own[5]].ring, t, k, v);
  }

  /** A pop in any run: the head found by its first access is the ticket k it tries for. */
  lemma PopDecided<V(!new)>(ss: seq<Queue<V>>, es: seq<Event<V>>, t: Tid, r: Result<V>, n: nat, own: seq<nat>, j: nat)
    requires Call(ss, es, t, Pop, r, n, own, j)
    ensures |own| >= 2 && Sizes(ss, ss[0].ring.card)
    ensures var c, k := ss[0].ring.card, ss[own[0]].ring.head;
      if ss[own[1]].ring.tail == k then r == Empty && |own| == 2
      else |own| >= 3 && if ss[own[2]].ring.slots[k % c] != Valid then r == Busy && |own| == 3
      else |own| >= 4 && if ss[own[3]].ring.head != k then r == Busy && |own| == 4
      else
        && |own| == 6 && r == Popped(ss[own[4]].ring.values[k % c])
        && ss[own[3] + 1].ring.head == k + 1
        && ss[own[5] + 1].ring.slots == ss[own[5]].ring.slots[k % c := Waiting]
  {
    RunSizes(ss, es);
    FirstOwn(ss, es, t, Pop, r, n, own, j);
    PopHead(ss, es, t, r, n, own, j);
    var c, k := ss[0].ring.card, ss[own[0]].ring.head;
    PopTail(ss, es, t, r, n, own, j, k);
    if ss[own[1]].ring.tail != k {
      PopSlot(ss, es, t, r, n, own, j, k);
      if ss[own[2]].ring.slots[k % c] == Valid {
        PopExchange(ss, es, t, r, n, own, j, k);
        if ss[own[3]].ring.head == k {
          PopCopy(ss, es, t, r, n, own, j, k);
          PopClear(ss, es, t, r, n, own, j, k, ss[own[4]].ring.values[k % c]);
        }
      }
    }
  }
}

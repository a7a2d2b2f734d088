/** What an exchange, the push of a buffer and the destruction of a broker do in any run, whatever
    happens between their accesses. */
module StrongDuplexOutcome {
  import opened Wrappers
  import opened StrongDuplex

  // A thread holds counts of one kind at a time: of a push, or of an exchange.
  ghost predicate Kinds(s: Duplex) {
    && s.pushing.Keys <= s.inFlight.Keys && s.drained <= s.inFlight.Keys && s.drained !! s.pushing.Keys
    && (s.holder.Some? ==> s.holder.value.tid in s.inFlight)
    && (s.holder.Some? ==> s.holder.value.tid !in s.pushing && s.holder.value.tid !in s.drained)
    && (s.holder.Some? ==> s.holder.value.todo <= s.brokers.Keys)
    && s.dying <= s.brokers.Keys && s.toAdd.Keys <= s.dying
  }

  lemma BrokerKinds(s: Duplex, e: Step, s': Duplex)
    requires Kinds(s) && Next(s, e, s') && (e.Count? || e.Insert? || e.LoadBroker? || e.AddBroker? || e.EraseBroker?)
    ensures Kinds(s')
  {
  }

  lemma BufferKinds(s: Duplex, e: Step, s': Duplex)
    requires Kinds(s) && Next(s, e, s')
    requires e.CountPrime? || e.NewBuffer? || e.CountBuffer? || e.TakeBuffer? || e.DropBuffer?
    ensures Kinds(s')
  {
  }

  lemma GiveKinds(s: Duplex, t: Tid, s': Duplex)
    requires Kinds(s) && Next(s, GiveBuffer(t), s')
    ensures Kinds(s')
  {
  }

  lemma ExchangeKinds(s: Duplex, e: Step, s': Duplex)
    requires Kinds(s) && Next(s, e, s') && (e.Lock? || e.Drain? || e.Unlock? || e.Exchange?)
    ensures Kinds(s')
  {
  }

  lemma NextKinds(s: Duplex, e: Step, s': Duplex)
    requires Kinds(s) && Next(s, e, s')
    ensures Kinds(s')
  {
    if e.Count? || e.Insert? || e.LoadBroker? || e.AddBroker? || e.EraseBroker? {
      BrokerKinds(s, e, s');
    } else if e.Lock? || e.Drain? || e.Unlock? || e.Exchange? {
      ExchangeKinds(s, e, s');
    } else if e.GiveBuffer? {
      GiveKinds(s, e.t, s');
    } else {
      BufferKinds(s, e, s');
    }
  }

  lemma {:induction false} RunKinds(ss: seq<Duplex>, es: seq<Step>, k: nat)
    requires IsRun(ss, es) && k < |ss|
    ensures Kinds(ss[k])
  {
    if k > 0 {
      RunKinds(ss, es, k - 1);
      assert StepsAt(ss, es, k - 1);
      NextKinds(ss[k - 1], es[k - 1], ss[k]);
    }
  }

  /* ---------- what a counter holds ---------- */

  // The count kept at a target.
  ghost function ValueAt(s: Duplex, target: Target): int {
    match target
    case Prime => s.prime
    case Broker(b) => if b in s.brokers then s.brokers[b] else 0
    case Buffer(b) => if b in s.buffers then s.buffers[b] else 0
  }

  ghost predicate Stands(s: Duplex, target: Target) {
    match target
    case Prime => true
    case Broker(b) => b in s.brokers
    case Buffer(b) => b in s.buffers
  }

  // The events by which a counter comes, is emptied or goes.
  predicate Resets(e: Step, target: Target) {
    match target
    case Prime => e.Exchange?
    case Broker(b) => e == Insert(b) || e == EraseBroker(b) || (e.Drain? && e.b == b)
    case Buffer(b) => (e.NewBuffer? && e.b == b) || e == DropBuffer(b) || (e.TakeBuffer? && e.b == b)
  }

  // What an event adds to a counter: what is counted there, what a push has taken for it, and to the
  // prime also what the destructor of a broker has loaded.
  ghost function AddedBy(s: Duplex, e: Step, target: Target): int {
    match e
    case Count(b, n) => if target == Broker(b) then n else 0
    case CountPrime(n) => if target == Prime then n else 0
    case CountBuffer(b, n) => if target == Buffer(b) then n else 0
    case GiveBuffer(t) => if t in s.inFlight && t in s.pushing && s.pushing[t] == target then s.inFlight[t] else 0
    case AddBroker(b) => if target == Prime && b in s.toAdd then s.toAdd[b] else 0
    case _ => 0
  }

  ghost function Added(ss: seq<Duplex>, es: seq<Step>, target: Target, j: nat, k: nat): int
    requires |ss| == |es| + 1 && j <= k <= |es|
    decreases k
  {
    if j == k then 0 else Added(ss, es, target, j, k - 1) + AddedBy(ss[k - 1], es[k - 1], target)
  }

  lemma HoldsGive(s: Duplex, t: Tid, s': Duplex, target: Target)
    requires Next(s, GiveBuffer(t), s') && Stands(s, target)
    ensures Stands(s', target) && ValueAt(s', target) == ValueAt(s, target) + AddedBy(s, GiveBuffer(t), target)
  {
  }

  lemma HoldsExchange(s: Duplex, e: Step, s': Duplex, target: Target)
    requires Next(s, e, s') && Stands(s, target) && !Resets(e, target)
    requires e.Lock? || e.Drain? || e.Unlock? || e.Exchange?
    ensures Stands(s', target) && ValueAt(s', target) == ValueAt(s, target)
  {
  }

  lemma HoldsStep(s: Duplex, e: Step, s': Duplex, target: Target)
    requires Next(s, e, s') && Stands(s, target) && !Resets(e, target)
    ensures Stands(s', target) && ValueAt(s', target) == ValueAt(s, target) + AddedBy(s, e, target)
  {
    if e.GiveBuffer? {
      HoldsGive(s, e.t, s', target);
    } else if e.Lock? || e.Drain? || e.Unlock? || e.Exchange? {
      HoldsExchange(s, e, s', target);
    }
  }

  /** In any run, a counter holds what it held before and what has been added to it since, until it is
      emptied or goes. */
  lemma {:induction false} CounterHolds(ss: seq<Duplex>, es: seq<Step>, target: Target, j: nat, k: nat)
    requires IsRun(ss, es) && j <= k <= |es| && Stands(ss[j], target)
    requires forall i :: j <= i < k ==> !Resets(es[i], target)
    ensures Stands(ss[k], target) && ValueAt(ss[k], target) == ValueAt(ss[j], target) + Added(ss, es, target, j, k)
    decreases k
  {
    if j < k {
      CounterHolds(ss, es, target, j, k - 1);
      assert StepsAt(ss, es, k - 1);
      HoldsStep(ss[k - 1], es[k - 1], ss[k], target);
    }
  }

  /** A broker or buffer starts at 0, a buffer is for what it was made for until its name is used again,
      and only an empty buffer goes. */
  lemma {:induction false} ComesAndGoes(ss: seq<Duplex>, es: seq<Step>, j: nat, k: nat)
    requires IsRun(ss, es) && j < k <= |es|
    ensures es[j].Insert? ==>
      !Stands(ss[j], Broker(es[j].b)) && Stands(ss[j + 1], Broker(es[j].b)) && ValueAt(ss[j + 1], Broker(es[j].b)) == 0
    ensures es[j].NewBuffer? ==>
      !Stands(ss[j], Buffer(es[j].b)) && Stands(ss[j + 1], Buffer(es[j].b)) && ValueAt(ss[j + 1], Buffer(es[j].b)) == 0
    ensures es[j].NewBuffer? && (forall i :: j < i < k ==> !(es[i].NewBuffer? && es[i].b == es[j].b)) ==>
      es[j].b in ss[k].primeOf && ss[k].primeOf[es[j].b] == es[j].prime
    ensures es[j].DropBuffer? ==> ValueAt(ss[j], Buffer(es[j].b)) == 0 && !Stands(ss[j + 1], Buffer(es[j].b))
    decreases k
  {
    assert StepsAt(ss, es, j);
    if j + 1 < k {
      ComesAndGoes(ss, es, j, k - 1);
      assert StepsAt(ss, es, k - 1);
      PrimeOfStep(ss[k - 1], es[k - 1], ss[k]);
    }
  }

  lemma PrimeOfStep(s: Duplex, e: Step, s': Duplex)
    requires Next(s, e, s')
    ensures forall b :: b in s.primeOf && !(e.NewBuffer? && e.b == b) ==> b in s'.primeOf && s'.primeOf[b] == s.primeOf[b]
  {
  }

  /* ---------- an exchange ---------- */

  // An exchange of t: it takes the lock at event j, releases it at m, and returns at k.
  ghost predicate Exchanges(es: seq<Step>, t: Tid, j: nat, m: nat, k: nat) {
    && j < m < k < |es| && es[j] == Lock(t) && es[m] == Unlock(t) && es[k].Exchange? && es[k].t == t
    && forall i :: j < i < k && i != m ==> es[i] != Lock(t) && es[i] != Unlock(t) && !(es[i].Exchange? && es[i].t == t)
  }

  // What t has drained in the events j to k - 1.
  ghost function Drained(ss: seq<Duplex>, es: seq<Step>, t: Tid, j: nat, k: nat): int
    requires |ss| == |es| + 1 && j <= k <= |es|
    decreases k
  {
    if j == k then 0 else
      Drained(ss, es, t, j, k - 1) +
      if es[k - 1].Drain? && es[k - 1].t == t && es[k - 1].b in ss[k - 1].brokers
      then ss[k - 1].brokers[es[k - 1].b] else 0
  }

  // Nobody but t touches what t holds.
  lemma InFlightKept(s: Duplex, e: Step, s': Duplex, t: Tid)
    requires Next(s, e, s') && Kinds(s) && t in s.inFlight && t !in s.pushing
    requires !(e.Exchange? && e.t == t) && e != Lock(t)
    ensures t in s'.inFlight && t !in s'.pushing
    ensures s'.inFlight[t] == s.inFlight[t] +
      if e.Drain? && e.t == t && e.b in s.brokers then s.brokers[e.b] else 0
  {
    if e.GiveBuffer? { GiveKeeps(s, e.t, s', t); }
  }

  lemma GiveKeeps(s: Duplex, u: Tid, s': Duplex, t: Tid)
    requires Next(s, GiveBuffer(u), s') && t in s.inFlight && t !in s.pushing
    ensures t in s'.inFlight && t !in s'.pushing && s'.inFlight[t] == s.inFlight[t]
  {
  }

  ghost predicate HeldBy(s: Duplex, t: Tid) {
    s.holder.Some? && s.holder.value.tid == t
  }

  lemma HoldingStep(s: Duplex, e: Step, s': Duplex, t: Tid)
    requires Next(s, e, s') && HeldBy(s, t) && e != Unlock(t)
    ensures HeldBy(s', t) && s'.brokers.Keys == s.brokers.Keys
    ensures s'.holder.value.todo == if e.Drain? && e.t == t then s.holder.value.todo - {e.b} else s.holder.value.todo
    ensures e.Drain? && e.t == t ==> e.b in s.holder.value.todo
  {
  }

  // The brokers that t has drained in the events j to k - 1.
  function DrainedBy(es: seq<Step>, t: Tid, j: nat, k: nat): set<Id>
    requires j <= k <= |es|
    decreases k
  {
    if j == k then {} else
      DrainedBy(es, t, j, k - 1) + if es[k - 1].Drain? && es[k - 1].t == t then {es[k - 1].b} else {}
  }

  // While t has the lock no broker comes or goes, and those not drained yet are still to be.
  lemma {:induction false} WhileHolding(ss: seq<Duplex>, es: seq<Step>, t: Tid, j: nat, m: nat, k: nat, i: nat)
    requires IsRun(ss, es) && Exchanges(es, t, j, m, k) && j < i <= m
    ensures HeldBy(ss[i], t) && ss[i].brokers.Keys == ss[j].brokers.Keys
    ensures ss[i].holder.value.todo == ss[j].brokers.Keys - DrainedBy(es, t, j + 1, i)
    decreases i
  {
    assert StepsAt(ss, es, i - 1);
    if i > j + 1 {
      WhileHolding(ss, es, t, j, m, k, i - 1);
      HoldingStep(ss[i - 1], es[i - 1], ss[i], t);
    }
  }

  // A broker is drained only once, and then it is at 0.
  lemma DrainOnce(ss: seq<Duplex>, es: seq<Step>, t: Tid, j: nat, m: nat, k: nat, x: nat, b: Id)
    requires IsRun(ss, es) && Exchanges(es, t, j, m, k) && j < x < m && es[x] == Drain(t, b)
    ensures b in ss[j].brokers && b !in DrainedBy(es, t, j + 1, x)
    ensures b in ss[x + 1].brokers && ss[x + 1].brokers[b] == 0
  {
    WhileHolding(ss, es, t, j, m, k, x);
    assert StepsAt(ss, es, x);
  }

  lemma {:induction false} WhileDraining(ss: seq<Duplex>, es: seq<Step>, t: Tid, j: nat, m: nat, k: nat, i: nat)
    requires IsRun(ss, es) && Exchanges(es, t, j, m, k) && j < i <= m
    ensures t in ss[i].inFlight && t !in ss[i].pushing && ss[i].inFlight[t] == Drained(ss, es, t, j + 1, i)
    decreases i
  {
    RunKinds(ss, es, i - 1);
    assert StepsAt(ss, es, i - 1);
    if i > j + 1 {
      WhileDraining(ss, es, t, j, m, k, i - 1);
      InFlightKept(ss[i - 1], es[i - 1], ss[i], t);
    }
  }

  lemma {:induction false} AfterUnlock(ss: seq<Duplex>, es: seq<Step>, t: Tid, j: nat, m: nat, k: nat, i: nat)
    requires IsRun(ss, es) && Exchanges(es, t, j, m, k) && m < i <= k
    ensures t in ss[i].drained && t in ss[i].inFlight && t !in ss[i].pushing
    ensures ss[i].inFlight[t] == Drained(ss, es, t, j + 1, m)
    decreases i
  {
    RunKinds(ss, es, i - 1);
    assert StepsAt(ss, es, i - 1);
    if i == m + 1 {
      WhileDraining(ss, es, t, j, m, k, m);
    } else {
      AfterUnlock(ss, es, t, j, m, k, i - 1);
      assert !(es[i - 1].Drain? && es[i - 1].t == t) by { HolderNot(ss, es, t, i - 1); }
      InFlightKept(ss[i - 1], es[i - 1], ss[i], t);
    }
  }

  lemma HolderNot(ss: seq<Duplex>, es: seq<Step>, t: Tid, i: nat)
    requires IsRun(ss, es) && i < |es| && t in ss[i].drained
    ensures !(es[i].Drain? && es[i].t == t)
  {
    RunKinds(ss, es, i);
    assert StepsAt(ss, es, i);
  }

  /** An exchange drains every broker there is exactly once, to 0, while none comes or goes; it
      leaves the prime at `to`, and returns what it drained and what the prime held. */
  lemma ExchangeIs(ss: seq<Duplex>, es: seq<Step>, t: Tid, j: nat, m: nat, k: nat)
    requires IsRun(ss, es) && Exchanges(es, t, j, m, k)
    ensures ss[k + 1].returned == ss[k].returned + Drained(ss, es, t, j + 1, m) + ss[k].prime
    ensures ss[k + 1].prime == es[k].to && ss[k + 1].counted == ss[k].counted + es[k].to
    ensures ss[m].brokers.Keys == ss[j].brokers.Keys == DrainedBy(es, t, j + 1, m)
    ensures ss[j].holder == None && ss[m + 1].holder == None
    ensures forall x, b :: j < x < m && es[x] == Drain(t, b) ==>
      b !in DrainedBy(es, t, j + 1, x) && b in ss[x + 1].brokers && ss[x + 1].brokers[b] == 0
  {
    WhileHolding(ss, es, t, j, m, k, m);
    AfterUnlock(ss, es, t, j, m, k, k);
    assert StepsAt(ss, es, j) && StepsAt(ss, es, m) && StepsAt(ss, es, k);
    DrainedKnown(ss, es, t, j, m, k, m);
    forall x, b | j < x < m && es[x] == Drain(t, b)
      ensures b !in DrainedBy(es, t, j + 1, x) && b in ss[x + 1].brokers && ss[x + 1].brokers[b] == 0
    {
      DrainOnce(ss, es, t, j, m, k, x, b);
    }
  }

  lemma {:induction false} DrainedKnown(ss: seq<Duplex>, es: seq<Step>, t: Tid, j: nat, m: nat, k: nat, i: nat)
    requires IsRun(ss, es) && Exchanges(es, t, j, m, k) && j < i <= m
    ensures DrainedBy(es, t, j + 1, i) <= ss[j].brokers.Keys
    decreases i
  {
    if i > j + 1 {
      DrainedKnown(ss, es, t, j, m, k, i - 1);
      if es[i - 1].Drain? && es[i - 1].t == t { DrainOnce(ss, es, t, j, m, k, i - 1, es[i - 1].b); }
    }
  }

  /* ---------- the push of a buffer ---------- */

  ghost predicate Pushes(es: seq<Step>, t: Tid, b: Id, j: nat, k: nat) {
    && j < k < |es| && es[j] == TakeBuffer(t, b) && es[k] == GiveBuffer(t)
    && forall i :: j < i < k ==> es[i] != GiveBuffer(t)
  }

  lemma {:induction false} WhilePushing(ss: seq<Duplex>, es: seq<Step>, t: Tid, b: Id, j: nat, k: nat, i: nat)
    requires IsRun(ss, es) && Pushes(es, t, b, j, k) && j < i <= k
    ensures b in ss[j].buffers && b in ss[j].primeOf
    ensures t in ss[i].inFlight && t in ss[i].pushing && ss[i].inFlight[t] == ss[j].buffers[b]
    ensures ss[i].pushing[t] == ss[j].primeOf[b]
    decreases i
  {
    RunKinds(ss, es, i - 1);
    assert StepsAt(ss, es, i - 1);
    if i > j + 1 {
      WhilePushing(ss, es, t, b, j, k, i - 1);
    }
  }

  /** A push empties its buffer and adds what the buffer held to what it was made for. */
  lemma PushIs(ss: seq<Duplex>, es: seq<Step>, t: Tid, b: Id, j: nat, k: nat)
    requires IsRun(ss, es) && Pushes(es, t, b, j, k)
    ensures b in ss[j].buffers && b in ss[j].primeOf && b in ss[j + 1].buffers && ss[j + 1].buffers[b] == 0
    ensures ValueAt(ss[k + 1], ss[j].primeOf[b]) == ValueAt(ss[k], ss[j].primeOf[b]) + ss[j].buffers[b]
  {
    assert StepsAt(ss, es, j) && StepsAt(ss, es, k);
    WhilePushing(ss, es, t, b, j, k, k);
  }

  /* ---------- the destructor of a broker ---------- */

  ghost predicate Destroys(es: seq<Step>, b: Id, j: nat, k: nat, m: nat) {
    && j < k < m < |es| && es[j] == LoadBroker(b) && es[k] == AddBroker(b) && es[m] == EraseBroker(b)
    && forall i :: j < i < m && i != k ==> es[i] != AddBroker(b) && es[i] != EraseBroker(b)
  }

  lemma {:induction false} WhileDying(ss: seq<Duplex>, es: seq<Step>, b: Id, j: nat, k: nat, m: nat, i: nat)
    requires IsRun(ss, es) && Destroys(es, b, j, k, m) && j < i <= k
    ensures b in ss[j].brokers && b in ss[i].dying && b in ss[i].toAdd && ss[i].toAdd[b] == ss[j].brokers[b]
    decreases i
  {
    RunKinds(ss, es, i - 1);
    assert StepsAt(ss, es, i - 1);
    if i > j + 1 {
      WhileDying(ss, es, b, j, k, m, i - 1);
    }
  }

  /** A destructor adds to the prime what its broker held when it was loaded, and then the broker
      is gone. */
  lemma DestructorIs(ss: seq<Duplex>, es: seq<Step>, b: Id, j: nat, k: nat, m: nat)
    requires IsRun(ss, es) && Destroys(es, b, j, k, m)
    ensures b in ss[j].brokers && ss[k + 1].prime == ss[k].prime + ss[j].brokers[b]
    ensures b !in ss[m + 1].brokers
  {
    WhileDying(ss, es, b, j, k, m, k);
    assert StepsAt(ss, es, k) && StepsAt(ss, es, m);
  }

  /* ---------- nothing waits but for the lock, and the lock is given back ---------- */

  /** In any run: who has the lock can go on, and while nobody has it anybody who holds no counts can
      take it and any dying broker can be erased; an exchange that has given it back, the destructor
      that has yet to add, and a push to the prime can go on whoever has it. */
  lemma GoesOn(ss: seq<Duplex>, es: seq<Step>, k: nat, to: int)
    requires IsRun(ss, es) && k < |ss|
    ensures ss[k].holder.Some? ==> exists e: Step, s' :: (e.Drain? || e.Unlock?) && Next(ss[k], e, s')
    ensures ss[k].holder == None ==> forall t :: t !in ss[k].inFlight ==> exists s' :: Next(ss[k], Lock(t), s')
    ensures ss[k].holder == None ==>
      forall b :: b in ss[k].dying && b !in ss[k].toAdd ==> exists s' :: Next(ss[k], EraseBroker(b), s')
    ensures forall t :: t in ss[k].drained ==> exists s' :: Next(ss[k], Exchange(t, to), s')
    ensures forall b :: b in ss[k].toAdd ==> exists s' :: Next(ss[k], AddBroker(b), s')
    ensures forall t :: t in ss[k].pushing && ss[k].pushing[t] == Prime ==> exists s' :: Next(ss[k], GiveBuffer(t), s')
  {
    RunKinds(ss, es, k);
    var s := ss[k];
    if s.holder.Some? { HolderGoesOn(s); } else { LockFree(s); }
    forall t | t in s.drained ensures exists s' :: Next(s, Exchange(t, to), s') {
      assert Next(s, Exchange(t, to),
        s.(prime := to, counted := s.counted + to, returned := s.returned + s.inFlight[t] + s.prime,
           inFlight := s.inFlight - {t}, drained := s.drained - {t}));
    }
    forall b | b in s.toAdd ensures exists s' :: Next(s, AddBroker(b), s') {
      assert Next(s, AddBroker(b), s.(prime := s.prime + s.toAdd[b], toAdd := s.toAdd - {b}));
    }
    forall t | t in s.pushing && s.pushing[t] == Prime ensures exists s' :: Next(s, GiveBuffer(t), s') {
      assert Next(s, GiveBuffer(t),
        s.(inFlight := s.inFlight - {t}, pushing := s.pushing - {t}).(prime := s.prime + s.inFlight[t]));
    }
  }

  /** Counting, and making, emptying and destroying brokers and buffers, never has to wait but for the lock
      that the first of these takes. */
  lemma CallPossible(s: Duplex, b: Id, t: Tid, p: Target, n: int)
    ensures exists s' :: Next(s, CountPrime(n), s')
    ensures b in s.brokers && b !in s.dying ==> exists s' :: Next(s, Count(b, n), s')
    ensures s.holder == None && b !in s.brokers && b !in s.dying ==> exists s' :: Next(s, Insert(b), s')
    ensures b in s.brokers && b !in s.dying && b !in s.toAdd ==> exists s' :: Next(s, LoadBroker(b), s')
    ensures b !in s.buffers ==> exists s' :: Next(s, NewBuffer(b, p), s')
    ensures b in s.buffers ==> exists s' :: Next(s, CountBuffer(b, n), s')
    ensures b in s.buffers && b in s.primeOf && t !in s.inFlight ==> exists s' :: Next(s, TakeBuffer(t, b), s')
    ensures b in s.buffers && s.buffers[b] == 0 ==> exists s' :: Next(s, DropBuffer(b), s')
  {
    assert Next(s, CountPrime(n), s.(prime := s.prime + n, counted := s.counted + n));
    BrokerCallPossible(s, b, n);
    BufferCallPossible(s, b, t, p, n);
  }

  lemma BrokerCallPossible(s: Duplex, b: Id, n: int)
    ensures b in s.brokers && b !in s.dying ==> exists s' :: Next(s, Count(b, n), s')
    ensures s.holder == None && b !in s.brokers && b !in s.dying ==> exists s' :: Next(s, Insert(b), s')
    ensures b in s.brokers && b !in s.dying && b !in s.toAdd ==> exists s' :: Next(s, LoadBroker(b), s')
  {
    if b in s.brokers && b !in s.dying {
      assert Next(s, Count(b, n), s.(brokers := s.brokers[b := s.brokers[b] + n], counted := s.counted + n));
      if b !in s.toAdd {
        assert Next(s, LoadBroker(b), s.(dying := s.dying + {b}, toAdd := s.toAdd[b := s.brokers[b]]));
      }
    } else if s.holder == None && b !in s.dying {
      assert Next(s, Insert(b), s.(brokers := s.brokers[b := 0]));
    }
  }

  lemma BufferCallPossible(s: Duplex, b: Id, t: Tid, p: Target, n: int)
    ensures b !in s.buffers ==> exists s' :: Next(s, NewBuffer(b, p), s')
    ensures b in s.buffers ==> exists s' :: Next(s, CountBuffer(b, n), s')
    ensures b in s.buffers && b in s.primeOf && t !in s.inFlight ==> exists s' :: Next(s, TakeBuffer(t, b), s')
    ensures b in s.buffers && s.buffers[b] == 0 ==> exists s' :: Next(s, DropBuffer(b), s')
  {
    if b !in s.buffers {
      assert Next(s, NewBuffer(b, p), s.(buffers := s.buffers[b := 0], primeOf := s.primeOf[b := p]));
    } else {
      assert Next(s, CountBuffer(b, n), s.(buffers := s.buffers[b := s.buffers[b] + n], counted := s.counted + n));
      if b in s.primeOf && t !in s.inFlight {
        assert Next(s, TakeBuffer(t, b),
          s.(buffers := s.buffers[b := 0], inFlight := s.inFlight[t := s.buffers[b]],
             pushing := s.pushing[t := s.primeOf[b]]));
      }
      if s.buffers[b] == 0 { assert Next(s, DropBuffer(b), s.(buffers := s.buffers - {b})); }
    }
  }

  lemma HolderGoesOn(s: Duplex)
    requires Kinds(s) && s.holder.Some?
    ensures exists e: Step, s' :: (e.Drain? || e.Unlock?) && Next(s, e, s')
  {
    var t, todo := s.holder.value.tid, s.holder.value.todo;
    if b :| b in todo {
      assert Next(s, Drain(t, b),
        s.(holder := Some(Holder(t, todo - {b})), brokers := s.brokers[b := 0],
           inFlight := s.inFlight[t := s.inFlight[t] + s.brokers[b]]));
    } else {
      assert todo == {};
      assert Next(s, Unlock(t), s.(holder := None, drained := s.drained + {t}));
    }
  }

  lemma LockFree(s: Duplex)
    requires Kinds(s) && s.holder == None
    ensures forall t :: t !in s.inFlight ==> exists s' :: Next(s, Lock(t), s')
    ensures forall b :: b in s.dying && b !in s.toAdd ==> exists s' :: Next(s, EraseBroker(b), s')
  {
    forall t | t !in s.inFlight ensures exists s' :: Next(s, Lock(t), s') {
      assert Next(s, Lock(t), s.(holder := Some(Holder(t, s.brokers.Keys)), inFlight := s.inFlight[t := 0]));
    }
    forall b | b in s.dying && b !in s.toAdd ensures exists s' :: Next(s, EraseBroker(b), s') {
      assert Next(s, EraseBroker(b), s.(brokers := s.brokers - {b}, dying := s.dying - {b}));
    }
  }
}

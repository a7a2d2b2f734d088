/** strong_duplex and buffers of include/counter.h: every count is to leave through exactly one
    exchange.  Every atomic access is one step. */
module StrongDuplex {
  import opened Wrappers
  import opened MapSums

  type Id = nat

  type Tid = nat

  // Where a buffer pushes its counts: its prime is the prime counter, a broker, or a buffer.
  datatype Target = Prime | Broker(b: Id) | Buffer(b: Id)

  // The exchange that holds the lock, and the brokers it has yet to drain.
  datatype Holder = Holder(tid: Tid, todo: set<Id>)

  // `dying` holds the brokers whose destructor has loaded their value and which have not been
  // erased yet, `toAdd` the values loaded and not yet added to the prime; `inFlight` what an
  // exchange has drained, or the push of a buffer has taken, and not yet handed on; `drained`
  // the exchanges that have released the lock and not yet exchanged the prime.  `counted` and
  // `returned` are all counts put in and handed out.
  datatype Duplex = Duplex(
    prime: int,
    brokers: map<Id, int>,
    dying: set<Id>,
    toAdd: map<Id, int>,
    buffers: map<Id, int>,
    primeOf: map<Id, Target>,
    inFlight: map<Tid, int>,
    pushing: map<Tid, Target>,
    holder: Option<Holder>,
    drained: set<Tid>,
    counted: int,
    returned: int)

  datatype Step =
    | Count(b: Id, n: int)
    | CountPrime(n: int)
    | Insert(b: Id)
    // the destructor of a broker: its argument is loaded, added to the prime, and only then is
    // the broker erased under the lock
    | LoadBroker(b: Id)
    | AddBroker(b: Id)
    | EraseBroker(b: Id)
    // buffers: counting, push in two accesses, destruction after a push
    | NewBuffer(b: Id, prime: Target)
    | CountBuffer(b: Id, n: int)
    | TakeBuffer(t: Tid, b: Id)
    | GiveBuffer(t: Tid)
    | DropBuffer(b: Id)
    // exchange
    | Lock(t: Tid)
    | Drain(t: Tid, b: Id)
    | Unlock(t: Tid)
    | Exchange(t: Tid, to: int)

  // The second access of a push; the lifetime of what a buffer pushes to covers its own.
  ghost predicate Gives(s: Duplex, t: Tid, s': Duplex)
    requires t in s.inFlight && t in s.pushing
  {
    var n, s1 := s.inFlight[t], s.(inFlight := s.inFlight - {t}, pushing := s.pushing - {t});
    match s.pushing[t]
    case Prime => s' == s1.(prime := s.prime + n)
    case Broker(b) => b in s.brokers && b !in s.dying && s' == s1.(brokers := s.brokers[b := s.brokers[b] + n])
    case Buffer(b) => b in s.buffers && s' == s1.(buffers := s.buffers[b := s.buffers[b] + n])
  }

  ghost predicate Next(s: Duplex, e: Step, s': Duplex) {
    match e
    case Count(b, n) =>
      && b in s.brokers && b !in s.dying
      && s' == s.(brokers := s.brokers[b := s.brokers[b] + n], counted := s.counted + n)
    case CountPrime(n) => s' == s.(prime := s.prime + n, counted := s.counted + n)
    case Insert(b) =>
      s.holder == None && b !in s.brokers && b !in s.dying && s' == s.(brokers := s.brokers[b := 0])
    case LoadBroker(b) =>
      && b in s.brokers && b !in s.dying && b !in s.toAdd
      && s' == s.(dying := s.dying + {b}, toAdd := s.toAdd[b := s.brokers[b]])
    case AddBroker(b) => b in s.toAdd && s' == s.(prime := s.prime + s.toAdd[b], toAdd := s.toAdd - {b})
    case EraseBroker(b) =>
      && s.holder == None && b in s.dying && b !in s.toAdd
      && s' == s.(brokers := s.brokers - {b}, dying := s.dying - {b})
    case NewBuffer(b, prime) =>
      b !in s.buffers && s' == s.(buffers := s.buffers[b := 0], primeOf := s.primeOf[b := prime])
    case CountBuffer(b, n) =>
      b in s.buffers && s' == s.(buffers := s.buffers[b := s.buffers[b] + n], counted := s.counted + n)
    case TakeBuffer(t, b) =>
      && b in s.buffers && b in s.primeOf && t !in s.inFlight
      && s' == s.(buffers := s.buffers[b := 0], inFlight := s.inFlight[t := s.buffers[b]],
                  pushing := s.pushing[t := s.primeOf[b]])
    case GiveBuffer(t) => t in s.inFlight && t in s.pushing && Gives(s, t, s')
    case DropBuffer(b) => b in s.buffers && s.buffers[b] == 0 && s' == s.(buffers := s.buffers - {b})
    case Lock(t) =>
      && s.holder == None && t !in s.inFlight && t !in s.drained
      && s' == s.(holder := Some(Holder(t, s.brokers.Keys)), inFlight := s.inFlight[t := 0])
    case Drain(t, b) =>
      && s.holder.Some? && s.holder.value.tid == t && b in s.holder.value.todo && b in s.brokers && t in s.inFlight
      && s' == s.(holder := Some(Holder(t, s.holder.value.todo - {b})), brokers := s.brokers[b := 0],
                  inFlight := s.inFlight[t := s.inFlight[t] + s.brokers[b]])
    case Unlock(t) =>
      && s.holder == Some(Holder(t, {}))
      && s' == s.(holder := None, drained := s.drained + {t})
    case Exchange(t, to) =>
      && t in s.drained && t in s.inFlight
      && s' == s.(prime := to, counted := s.counted + to, returned := s.returned + s.inFlight[t] + s.prime,
                  inFlight := s.inFlight - {t}, drained := s.drained - {t})
  }

  // All counts there are, each where it still has to be taken from; the value of a broker whose
  // destructor has loaded it is on its way to the prime.
  ghost function Total(s: Duplex): int {
    s.prime + Sum(s.brokers, s.brokers.Keys - s.dying) + Sum(s.toAdd, s.toAdd.Keys)
    + Sum(s.buffers, s.buffers.Keys) + Sum(s.inFlight, s.inFlight.Keys) + s.returned
  }

  // What a step takes although it has been loaded by a destructor: it will count twice.
  ghost function Twice(s: Duplex, e: Step): int {
    if e.Drain? && e.b in s.dying && e.b in s.brokers then s.brokers[e.b] else 0
  }

  lemma SetEntry(m: map<Id, int>, x: Id, v: int)
    ensures Sum(m[x := v], m[x := v].Keys) == Sum(m, m.Keys) - (if x in m then m[x] else 0) + v
  {
    SumSet(m, m.Keys, x, v);
    assert m[x := v].Keys == m.Keys + {x};
  }

  lemma DropEntry(m: map<Id, int>, x: Id)
    requires x in m
    ensures Sum(m - {x}, (m - {x}).Keys) == Sum(m, m.Keys) - m[x]
  {
    SumDrop(m, x);
    assert (m - {x}).Keys == m.Keys - {x};
  }

  // Setting a broker, dying or not.
  lemma SetBroker(m: map<Id, int>, dying: set<Id>, b: Id, v: int)
    ensures Sum(m[b := v], m[b := v].Keys - dying)
         == Sum(m, m.Keys - dying) + if b in dying then 0 else v - if b in m then m[b] else 0
  {
    if b in dying {
      assert m[b := v].Keys - dying == m.Keys - dying;
      SumSame(m, m[b := v], m.Keys - dying);
    } else {
      SumSet(m, m.Keys - dying, b, v);
      assert m[b := v].Keys - dying == m.Keys - dying + {b};
    }
  }

  lemma LoadedBroker(m: map<Id, int>, dying: set<Id>, b: Id)
    requires b in m && b !in dying
    ensures Sum(m, m.Keys - (dying + {b})) == Sum(m, m.Keys - dying) - m[b]
  {
    SumSplit(m, m.Keys - dying, b);
    assert m.Keys - (dying + {b}) == m.Keys - dying - {b};
  }

  lemma ErasedBroker(m: map<Id, int>, dying: set<Id>, b: Id)
    requires b in dying
    ensures Sum(m - {b}, (m - {b}).Keys - (dying - {b})) == Sum(m, m.Keys - dying)
  {
    assert (m - {b}).Keys - (dying - {b}) == m.Keys - dying;
    SumSame(m, m - {b}, m.Keys - dying);
  }

  lemma BrokerTotal(s: Duplex, e: Step, s': Duplex)
    requires Next(s, e, s') && (e.Count? || e.Insert? || e.LoadBroker? || e.AddBroker? || e.EraseBroker?)
    ensures Total(s') - s'.counted == Total(s) - s.counted
  {
    match e
    case Count(b, n) => SetBroker(s.brokers, s.dying, b, s.brokers[b] + n);
    case Insert(b) => SetBroker(s.brokers, s.dying, b, 0);
    case LoadBroker(b) =>
      LoadedBroker(s.brokers, s.dying, b);
      SetEntry(s.toAdd, b, s.brokers[b]);
    case AddBroker(b) => DropEntry(s.toAdd, b);
    case EraseBroker(b) => ErasedBroker(s.brokers, s.dying, b);
  }

  lemma GiveTotal(s: Duplex, t: Tid, s': Duplex)
    requires Next(s, GiveBuffer(t), s')
    ensures Total(s') - s'.counted == Total(s) - s.counted
  {
    DropEntry(s.inFlight, t);
    match s.pushing[t]
    case Prime =>
    case Broker(b) => SetBroker(s.brokers, s.dying, b, s.brokers[b] + s.inFlight[t]);
    case Buffer(b) => SetEntry(s.buffers, b, s.buffers[b] + s.inFlight[t]);
  }

  lemma BufferTotal(s: Duplex, e: Step, s': Duplex)
    requires Next(s, e, s') && (e.NewBuffer? || e.CountBuffer? || e.TakeBuffer? || e.GiveBuffer? || e.DropBuffer?)
    ensures Total(s') - s'.counted == Total(s) - s.counted
  {
    match e
    case NewBuffer(b, _) => SetEntry(s.buffers, b, 0);
    case CountBuffer(b, n) => SetEntry(s.buffers, b, s.buffers[b] + n);
    case TakeBuffer(t, b) =>
      SetEntry(s.buffers, b, 0);
      SetEntry(s.inFlight, t, s.buffers[b]);
    case GiveBuffer(t) => GiveTotal(s, t, s');
    case DropBuffer(b) => DropEntry(s.buffers, b);
  }

  lemma DrainTotal(s: Duplex, t: Tid, b: Id, s': Duplex)
    requires Next(s, Drain(t, b), s')
    ensures Total(s') - s'.counted == Total(s) - s.counted + Twice(s, Drain(t, b))
  {
    SetBroker(s.brokers, s.dying, b, 0);
    SetEntry(s.inFlight, t, s.inFlight[t] + s.brokers[b]);
  }

  /** The exact ledger: a step changes all counts by what is counted, and by what it takes a
      second time. */
  lemma NextTotal(s: Duplex, e: Step, s': Duplex)
    requires Next(s, e, s')
    ensures Total(s') - s'.counted == Total(s) - s.counted + Twice(s, e)
  {
    match e
    case Lock(t) => SetEntry(s.inFlight, t, 0);
    case Drain(t, b) => DrainTotal(s, t, b, s');
    case Exchange(t, _) => DropEntry(s.inFlight, t);
    case CountPrime(_) =>
    case Unlock(_) =>
    case _ =>
      if e.Count? || e.Insert? || e.LoadBroker? || e.AddBroker? || e.EraseBroker? {
        BrokerTotal(s, e, s');
      } else {
        BufferTotal(s, e, s');
      }
  }

  /* ---------- runs ---------- */

  ghost predicate Init(s: Duplex) {
    && s.brokers == s.toAdd == s.buffers == s.inFlight == map[] && s.primeOf == s.pushing == map[]
    && s.dying == s.drained == {}
    && s.holder == None && s.counted == s.prime && s.returned == 0
  }

  ghost predicate StepsAt(ss: seq<Duplex>, es: seq<Step>, k: int)
    requires |ss| == |es| + 1 && 0 <= k < |es|
  {
    Next(ss[k], es[k], ss[k + 1])
  }

  ghost predicate IsRun(ss: seq<Duplex>, es: seq<Step>) {
    |ss| == |es| + 1 && Init(ss[0]) && forall k :: 0 <= k < |es| ==> StepsAt(ss, es, k)
  }

  // What the first k steps took twice.
  ghost function TakenTwice(ss: seq<Duplex>, es: seq<Step>, k: nat): int
    requires |ss| == |es| + 1 && k <= |es|
  {
    if k == 0 then 0 else TakenTwice(ss, es, k - 1) + Twice(ss[k - 1], es[k - 1])
  }

  lemma {:induction false} RunTotal(ss: seq<Duplex>, es: seq<Step>, k: nat)
    requires IsRun(ss, es) && k < |ss|
    ensures Total(ss[k]) == ss[k].counted + TakenTwice(ss, es, k)
  {
    if k > 0 {
      RunTotal(ss, es, k - 1);
      assert StepsAt(ss, es, k - 1);
      NextTotal(ss[k - 1], es[k - 1], ss[k]);
    }
  }

  ghost predicate Zero(m: map<Id, int>) {
    forall x :: x in m ==> m[x] == 0
  }

  // Nothing is left in the prime, in a broker or a buffer, or on its way.
  ghost predicate Empty(s: Duplex) {
    s.prime == 0 && Zero(s.brokers) && Zero(s.toAdd) && Zero(s.buffers) && Zero(s.inFlight)
  }

  /** When everything has been taken out, the exchanges together have returned what was counted,
      and once more what they drained from brokers already loaded by their destructors. */
  lemma AllReturned(ss: seq<Duplex>, es: seq<Step>, k: nat)
    requires IsRun(ss, es) && k < |ss| && Empty(ss[k])
    ensures ss[k].returned == ss[k].counted + TakenTwice(ss, es, k)
  {
    var s := ss[k];
    RunTotal(ss, es, k);
    SumZero(s.brokers, s.brokers.Keys - s.dying);
    SumZero(s.toAdd, s.toAdd.Keys);
    SumZero(s.buffers, s.buffers.Keys);
    SumZero(s.inFlight, s.inFlight.Keys);
  }

  // No exchange drains a broker other than with the value 0 between the load and the erase of
  // its destructor.
  ghost predicate Apart(ss: seq<Duplex>, es: seq<Step>, k: nat)
    requires |ss| == |es| + 1 && k <= |es|
  {
    forall j :: 0 <= j < k && es[j].Drain? && es[j].b in ss[j].dying && es[j].b in ss[j].brokers ==>
      ss[j].brokers[es[j].b] == 0
  }

  ghost predicate NonNegative(ss: seq<Duplex>) {
    forall j, b :: 0 <= j < |ss| && b in ss[j].brokers ==> ss[j].brokers[b] >= 0
  }

  lemma {:induction false} ApartIs(ss: seq<Duplex>, es: seq<Step>, k: nat)
    requires |ss| == |es| + 1 && k <= |es|
    ensures Apart(ss, es, k) ==> TakenTwice(ss, es, k) == 0
    ensures NonNegative(ss) ==> TakenTwice(ss, es, k) >= 0
    ensures NonNegative(ss) && TakenTwice(ss, es, k) == 0 ==> Apart(ss, es, k)
  {
    if k > 0 {
      ApartIs(ss, es, k - 1);
    }
  }

  /** Every count leaves exactly once if and only if no exchange drains a broker that its
      destructor has already loaded. */
  lemma ReturnedOnce(ss: seq<Duplex>, es: seq<Step>, k: nat)
    requires IsRun(ss, es) && k < |ss| && Empty(ss[k]) && NonNegative(ss)
    ensures ss[k].returned == ss[k].counted <==> Apart(ss, es, k)
  {
    AllReturned(ss, es, k);
    ApartIs(ss, es, k);
  }

  // No exchange holds the lock while a broker is between the load and the erase of its
  // destructor.
  ghost predicate Exclusive(ss: seq<Duplex>) {
    forall j :: 0 <= j < |ss| && ss[j].holder.Some? ==> ss[j].dying == {}
  }

  /** What a caller can arrange: when no destructor of a broker overlaps the draining of an
      exchange, every count, of either sign, leaves exactly once. */
  lemma ExclusiveReturnedOnce(ss: seq<Duplex>, es: seq<Step>, k: nat)
    requires IsRun(ss, es) && k < |ss| && Empty(ss[k]) && Exclusive(ss)
    ensures ss[k].returned == ss[k].counted
  {
    forall j | 0 <= j < k && es[j].Drain? ensures es[j].b !in ss[j].dying { assert StepsAt(ss, es, j); }
    AllReturned(ss, es, k);
    ApartIs(ss, es, k);
  }

  // A broker holding 5 is destroyed while an exchange goes on.
  function Overlap(): seq<Step> {
    [Insert(0), Count(0, 5), LoadBroker(0), AddBroker(0), Lock(0), Drain(0, 0), Unlock(0), EraseBroker(0), Exchange(0, 0)]
  }

  function OverlapStates(): seq<Duplex> {
    var none: map<nat, int>, to: map<nat, Target> := map[], map[];
    [Duplex(0, none, {}, none, none, to, none, to, None, {}, 0, 0),
     Duplex(0, map[0 := 0], {}, none, none, to, none, to, None, {}, 0, 0),
     Duplex(0, map[0 := 5], {}, none, none, to, none, to, None, {}, 5, 0),
     Duplex(0, map[0 := 5], {0}, map[0 := 5], none, to, none, to, None, {}, 5, 0),
     Duplex(5, map[0 := 5], {0}, none, none, to, none, to, None, {}, 5, 0),
     Duplex(5, map[0 := 5], {0}, none, none, to, map[0 := 0], to, Some(Holder(0, {0})), {}, 5, 0),
     Duplex(5, map[0 := 0], {0}, none, none, to, map[0 := 5], to, Some(Holder(0, {})), {}, 5, 0),
     Duplex(5, map[0 := 0], {0}, none, none, to, map[0 := 5], to, None, {0}, 5, 0),
     Duplex(5, none, {}, none, none, to, map[0 := 5], to, None, {0}, 5, 0),
     Duplex(0, none, {}, none, none, to, none, to, None, {}, 5, 10)]
  }

  /** The destructor adds before it takes the lock, so an exchange can drain the same count
      again: 5 counted, 10 returned. */
  lemma CountedTwice()
    ensures IsRun(OverlapStates(), Overlap())
    ensures var last := OverlapStates()[|Overlap()|]; Empty(last) && last.counted == 5 && last.returned == 10
  {
    var ss, es := OverlapStates(), Overlap();
    forall k | 0 <= k < |es| ensures StepsAt(ss, es, k) {
      if k < 4 { OverlapFirst(k); } else { OverlapRest(k); }
    }
  }

  lemma OverlapFirst(k: nat)
    requires k < 4
    ensures Next(OverlapStates()[k], Overlap()[k], OverlapStates()[k + 1])
  {
    assert map[0 := 5] - {0} == map[];
  }

  lemma OverlapRest(k: nat)
    requires 4 <= k < 9
    ensures Next(OverlapStates()[k], Overlap()[k], OverlapStates()[k + 1])
  {
    assert map[0 := 5].Keys == {0} && {0} - {0} == {};
    assert map[0 := 5][0 := 0] == map[0 := 0] && map[0 := 0][0 := 5] == map[0 := 5];
    assert map[0 := 5] - {0} == map[] == map[0 := 0] - {0};
  }
}

/** weak_duplex of include/counter.h: a prime counter, and brokers that come, are incremented by
    their owners, and go; load polls them under the lock while counting goes on.  Every atomic
    access is one step. */
module WeakDuplex {
  import opened Wrappers
  import opened MapSums

  type Id = nat

  // A load in progress: the brokers still to be polled, the sum so far, and (history) the
  // true total at the moment it took the lock.
  datatype Load = Load(todo: set<Id>, tmp: int, before: int)

  datatype Duplex = Duplex(prime: int, brokers: map<Id, int>, load: Option<Load>)

  datatype Step =
    | Count(b: Id, n: nat)
    | CountPrime(n: nat)
    | Insert(b: Id)
    | Erase(b: Id)
    | Lock
    | Poll(b: Id)
    | Finish(result: int)

  ghost function Total(s: Duplex): int {
    s.prime + Sum(s.brokers, s.brokers.Keys)
  }

  ghost predicate Next(s: Duplex, e: Step, s': Duplex) {
    match e
    case Count(b, n) => b in s.brokers && s' == s.(brokers := s.brokers[b := s.brokers[b] + n])
    case CountPrime(n) => s' == s.(prime := s.prime + n)
    // insert and erase take the lock
    case Insert(b) => s.load == None && b !in s.brokers && s' == s.(brokers := s.brokers[b := 0])
    case Erase(b) =>
      s.load == None && b in s.brokers && s' == s.(prime := s.prime + s.brokers[b], brokers := s.brokers - {b})
    case Lock => s.load == None && s' == s.(load := Some(Load(s.brokers.Keys, 0, Total(s))))
    case Poll(b) =>
      && s.load.Some? && b in s.load.value.todo && b in s.brokers
      && s' == s.(load := Some(s.load.value.(todo := s.load.value.todo - {b}, tmp := s.load.value.tmp + s.brokers[b])))
    case Finish(result) =>
      && s.load.Some? && s.load.value.todo == {} && result == s.load.value.tmp + s.prime
      && s' == s.(load := None)
  }

  // What the load would return if nobody counted any more lies between the total at its start
  // and the total now.
  ghost predicate Inv(s: Duplex) {
    s.load.Some? ==>
      && s.load.value.todo <= s.brokers.Keys
      && s.load.value.before <= s.load.value.tmp + Sum(s.brokers, s.load.value.todo) + s.prime <= Total(s)
  }

  lemma CountStep(s: Duplex, b: Id, n: nat, s': Duplex)
    requires Inv(s) && Next(s, Count(b, n), s')
    ensures Inv(s') && Total(s') == Total(s) + n
  {
    SumSet(s.brokers, s.brokers.Keys, b, s.brokers[b] + n);
    assert s.brokers.Keys + {b} == s.brokers.Keys == s'.brokers.Keys;
    if s.load.Some? {
      var todo := s.load.value.todo;
      if b in todo {
        SumSet(s.brokers, todo, b, s.brokers[b] + n);
        assert todo + {b} == todo;
      } else {
        SumSame(s.brokers, s'.brokers, todo);
      }
    }
  }

  /** Brokers coming and going keep the total. */
  lemma NextInv(s: Duplex, e: Step, s': Duplex)
    requires Inv(s) && Next(s, e, s')
    ensures Inv(s')
    ensures Total(s') == Total(s) + match e { case Count(_, n) => n case CountPrime(n) => n case _ => 0 }
  {
    match e
    case Count(b, n) => CountStep(s, b, n, s');
    case CountPrime(_) =>
    case Insert(b) =>
      SumSet(s.brokers, s.brokers.Keys, b, 0);
      assert s'.brokers.Keys == s.brokers.Keys + {b};
    case Erase(b) =>
      SumDrop(s.brokers, b);
      assert s'.brokers.Keys == s.brokers.Keys - {b};
    case Lock =>
    case Poll(b) => SumSplit(s.brokers, s.load.value.todo, b);
    case Finish(_) =>
  }

  ghost predicate StepsAt(ss: seq<Duplex>, es: seq<Step>, k: int)
    requires |ss| == |es| + 1 && 0 <= k < |es|
  {
    Next(ss[k], es[k], ss[k + 1])
  }

  ghost predicate IsRun(ss: seq<Duplex>, es: seq<Step>) {
    |ss| == |es| + 1 && ss[0].load == None && forall k :: 0 <= k < |es| ==> StepsAt(ss, es, k)
  }

  lemma {:induction false} RunInv(ss: seq<Duplex>, es: seq<Step>, k: nat)
    requires IsRun(ss, es) && k < |ss|
    ensures Inv(ss[k])
  {
    if k > 0 {
      RunInv(ss, es, k - 1);
      assert StepsAt(ss, es, k - 1);
      NextInv(ss[k - 1], es[k - 1], ss[k]);
    }
  }

  // The load that finishes at step k took the lock at step j.
  ghost predicate Loads(es: seq<Step>, j: nat, k: nat) {
    j < k < |es| && es[j].Lock? && es[k].Finish? && forall i :: j < i < k ==> !es[i].Lock? && !es[i].Finish?
  }

  lemma {:induction false} BeforeIsStart(ss: seq<Duplex>, es: seq<Step>, j: nat, i: nat)
    requires IsRun(ss, es) && j < i < |ss| && es[j].Lock?
    requires forall x :: j < x < i ==> !es[x].Lock? && !es[x].Finish?
    ensures ss[i].load.Some? && ss[i].load.value.before == Total(ss[j])
  {
    assert StepsAt(ss, es, i - 1);
    if i > j + 1 {
      BeforeIsStart(ss, es, j, i - 1);
    }
  }

  /** With non-negative increments a load returns a value between the true total when it took
      the lock and the true total when it finished. */
  lemma LoadBetween(ss: seq<Duplex>, es: seq<Step>, j: nat, k: nat)
    requires IsRun(ss, es) && Loads(es, j, k)
    ensures Total(ss[j]) <= es[k].result <= Total(ss[k])
  {
    BeforeIsStart(ss, es, j, k);
    RunInv(ss, es, k);
    assert StepsAt(ss, es, k);
  }

  // The count kept by a broker, or by the prime.
  ghost function ValueAt(s: Duplex, c: Option<Id>): int {
    match c
    case None => s.prime
    case Some(b) => if b in s.brokers then s.brokers[b] else 0
  }

  // What an event adds to it: what is counted there, and to the prime also what is left by a broker
  // that goes.
  ghost function AddedBy(s: Duplex, e: Step, c: Option<Id>): int {
    match e
    case Count(b, n) => if c == Some(b) then n else 0
    case CountPrime(n) => if c == None then n else 0
    case Erase(b) => if c == None then ValueAt(s, Some(b)) else 0
    case _ => 0
  }

  ghost function Added(ss: seq<Duplex>, es: seq<Step>, c: Option<Id>, j: nat, k: nat): int
    requires |ss| == |es| + 1 && j <= k <= |es|
    decreases k
  {
    if j == k then 0 else Added(ss, es, c, j, k - 1) + AddedBy(ss[k - 1], es[k - 1], c)
  }

  /** In any run, the prime, and a broker until it goes, hold what they held before and what has been
      added to them since; a broker starts at 0. */
  lemma {:induction false} CounterHolds(ss: seq<Duplex>, es: seq<Step>, c: Option<Id>, j: nat, k: nat)
    requires IsRun(ss, es) && j <= k <= |es| && (c.Some? ==> c.value in ss[j].brokers)
    requires forall i :: j <= i < k && c.Some? ==> es[i] != Erase(c.value)
    ensures c.Some? ==> c.value in ss[k].brokers
    ensures ValueAt(ss[k], c) == ValueAt(ss[j], c) + Added(ss, es, c, j, k)
    ensures j < k && es[j].Insert? ==>
      es[j].b !in ss[j].brokers && es[j].b in ss[j + 1].brokers && ValueAt(ss[j + 1], Some(es[j].b)) == 0
    decreases k
  {
    if j < k {
      CounterHolds(ss, es, c, j, k - 1);
      assert StepsAt(ss, es, k - 1) && StepsAt(ss, es, j);
    }
  }

  // What the polls among the events j to k - 1 found.
  ghost function Polled(ss: seq<Duplex>, es: seq<Step>, j: nat, k: nat): int
    requires |ss| == |es| + 1 && j <= k <= |es|
    decreases k
  {
    if j == k then 0 else
      Polled(ss, es, j, k - 1) +
      if es[k - 1].Poll? && es[k - 1].b in ss[k - 1].brokers then ss[k - 1].brokers[es[k - 1].b] else 0
  }

  // Between the lock and event i: the brokers are those at the lock, and each has either been
  // polled once or is still to be polled.
  lemma {:induction false} WhileLoading(ss: seq<Duplex>, es: seq<Step>, j: nat, i: nat)
    requires IsRun(ss, es) && j < i < |ss| && es[j].Lock?
    requires forall x :: j < x < i ==> !es[x].Lock? && !es[x].Finish?
    ensures ss[i].load.Some? && ss[i].brokers.Keys == ss[j].brokers.Keys
    ensures ss[i].load.value.tmp == Polled(ss, es, j + 1, i)
    ensures forall b :: b in ss[i].load.value.todo <==> b in ss[j].brokers && forall x :: j < x < i ==> es[x] != Poll(b)
    ensures forall x, y :: j < x < y < i && es[x].Poll? && es[y].Poll? ==> es[x].b != es[y].b
    decreases i
  {
    assert StepsAt(ss, es, i - 1);
    if i > j + 1 {
      WhileLoading(ss, es, j, i - 1);
    }
  }

  /** What a load returns, exactly: the value each broker has when it is polled, and of the prime
      at the end; every broker there is polled exactly once, and none comes or goes meanwhile. */
  lemma LoadIs(ss: seq<Duplex>, es: seq<Step>, j: nat, k: nat)
    requires IsRun(ss, es) && Loads(es, j, k)
    ensures es[k].result == Polled(ss, es, j + 1, k) + ss[k].prime
    ensures forall b :: b in ss[j].brokers ==> exists x :: j < x < k && es[x] == Poll(b)
    ensures forall x, y :: j < x < y < k && es[x].Poll? && es[y].Poll? ==> es[x].b != es[y].b
    ensures ss[k].brokers.Keys == ss[j].brokers.Keys
    ensures ss[j].load == None && ss[k + 1].load == None
  {
    WhileLoading(ss, es, j, k);
    assert StepsAt(ss, es, j) && StepsAt(ss, es, k);
  }

  /** A load in progress can always go on; counting never waits; and while there is no load, one can
      start and brokers can come and go. */
  lemma LoadGoesOn(ss: seq<Duplex>, es: seq<Step>, k: nat, n: nat)
    requires IsRun(ss, es) && k < |ss|
    ensures exists s' :: Next(ss[k], CountPrime(n), s')
    ensures forall b :: b in ss[k].brokers ==> exists s' :: Next(ss[k], Count(b, n), s')
    ensures ss[k].load.Some? ==> exists e: Step, s' :: (e.Poll? || e.Finish?) && Next(ss[k], e, s')
    ensures ss[k].load == None ==> exists s' :: Next(ss[k], Lock, s')
    ensures ss[k].load == None ==> forall b :: b !in ss[k].brokers ==> exists s' :: Next(ss[k], Insert(b), s')
    ensures ss[k].load == None ==> forall b :: b in ss[k].brokers ==> exists s' :: Next(ss[k], Erase(b), s')
  {
    RunInv(ss, es, k);
    var s := ss[k];
    assert Next(s, CountPrime(n), s.(prime := s.prime + n));
    forall b | b in s.brokers ensures exists s' :: Next(s, Count(b, n), s') {
      assert Next(s, Count(b, n), s.(brokers := s.brokers[b := s.brokers[b] + n]));
    }
    match s.load
    case Some(l) =>
      if b :| b in l.todo {
        assert Next(s, Poll(b), s.(load := Some(l.(todo := l.todo - {b}, tmp := l.tmp + s.brokers[b]))));
      } else {
        assert Next(s, Finish(l.tmp + s.prime), s.(load := None));
      }
    case None =>
      assert Next(s, Lock, s.(load := Some(Load(s.brokers.Keys, 0, Total(s)))));
      forall b | b !in s.brokers ensures exists s' :: Next(s, Insert(b), s') {
        assert Next(s, Insert(b), s.(brokers := s.brokers[b := 0]));
      }
      forall b | b in s.brokers ensures exists s' :: Next(s, Erase(b), s') {
        assert Next(s, Erase(b), s.(prime := s.prime + s.brokers[b], brokers := s.brokers - {b}));
      }
  }
}

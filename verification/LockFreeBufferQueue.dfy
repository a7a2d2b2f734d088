/** The bounded multi-producer multi-consumer ring of include/lock_free_buffer_queue.h.

    Every atomic access of `nonblocking_push` and `nonblocking_pop` is one step of a
    transition system over any number of threads.  Atomics are sequentially consistent,
    a compare-exchange fails only when the values differ, the 64-bit indices do not wrap
    and element copies do not throw.

    `log`, `pushing` and `popping` are history variables: no step reads them to decide
    what to do.  `log` is extended by the tail compare-exchange, `pushing[k]` (`popping[k]`)
    is the thread that owns ticket k between its compare-exchange and its last store. */
module LockFreeBufferQueue {
  import opened Ticket

  type Tid = nat

  datatype SlotState = Valid | Waiting | Invalid

  datatype Op<V> = Push(value: V) | Pop

  datatype Result<V> = Pushed | Popped(value: V) | Full | Empty | Busy

  // The program counter of a thread, named after the access it has just completed.
  datatype PC<V> =
    | Idle
    | PushStart(x: V)
    | PushTailLoaded(x: V, t: nat)
    | PushNotFull(x: V, t: nat)
    | PushSawWaiting(x: V, t: nat)
    | PushReserved(x: V, t: nat)
    | PushStored(x: V, t: nat)
    | PopStart
    | PopHeadLoaded(h: nat)
    | PopNotEmpty(h: nat)
    | PopSawValid(h: nat)
    | PopReserved(h: nat)
    | PopCopied(h: nat, v: V)
    | PopSawInvalid(h: nat)
    | PopSkipped(h: nat)
    | Returning(r: Result<V>)

  // The shared object.
  datatype Ring<V> = Ring(
    card: nat,
    head: nat,
    tail: nat,
    slots: seq<SlotState>,
    values: seq<V>,
    log: seq<V>,
    pushing: map<nat, Tid>,
    popping: map<nat, Tid>)

  datatype Queue<V> = Queue(ring: Ring<V>, pc: map<Tid, PC<V>>)

  datatype Event<V> = Invoke(tid: Tid, op: Op<V>) | Access(tid: Tid) | Return(tid: Tid, r: Result<V>)

  ghost predicate Sized<V>(r: Ring<V>) {
    r.card >= 1 && |r.slots| == r.card && |r.values| == r.card
  }

  ghost predicate Init<V>(s: Queue<V>) {
    && Sized(s.ring)
    && s.ring.head == 0 && s.ring.tail == 0
    && (forall i :: 0 <= i < s.ring.card ==> s.ring.slots[i] == Waiting)
    && s.ring.log == [] && s.ring.pushing == map[] && s.ring.popping == map[]
    && (forall t :: t in s.pc ==> s.pc[t] == Idle)
  }

  /* ---------- the accesses that change the shared object ---------- */

  // tail_.compare_exchange(tail, tail + 1), having succeeded
  function ReserveTail<V>(r: Ring<V>, t: Tid, x: V): Ring<V> {
    r.(tail := r.tail + 1, log := r.log + [x], pushing := r.pushing[r.tail := t])
  }

  function StoreValue<V>(r: Ring<V>, k: nat, x: V): Ring<V>
    requires r.card >= 1 && |r.values| == r.card
  {
    r.(values := r.values[k % r.card := x])
  }

  // set_state(valid, pos): a failed compare-exchange is ignored
  function SetState<V>(r: Ring<V>, k: nat): Ring<V>
    requires r.card >= 1 && |r.slots| == r.card
  {
    var r1 := r.(pushing := r.pushing - {k});
    if r.slots[k % r.card] == Waiting then r1.(slots := r.slots[k % r.card := Valid]) else r1
  }

  // head_.compare_exchange(head, head + 1), having succeeded
  function ReserveHead<V>(r: Ring<V>, t: Tid): Ring<V> {
    r.(head := r.head + 1, popping := r.popping[r.head := t])
  }

  // clear_value(from, pos): a failed compare-exchange is ignored
  function ClearValue<V>(r: Ring<V>, k: nat, from: SlotState): Ring<V>
    requires r.card >= 1 && |r.slots| == r.card
  {
    var r1 := r.(popping := r.popping - {k});
    if r.slots[k % r.card] == from then r1.(slots := r.slots[k % r.card := Waiting]) else r1
  }

  /** One atomic access of a thread at p: the shared object and program counter after it. */
  function Step<V>(r: Ring<V>, t: Tid, p: PC<V>): (Ring<V>, PC<V>)
    requires r.card >= 1 && |r.slots| == r.card && |r.values| == r.card
  {
    match p
    case PushStart(x) => (r, PushTailLoaded(x, r.tail))
    case PushTailLoaded(x, k) =>
      (r, if k == r.head + r.card then Returning(Full) else PushNotFull(x, k))
    case PushNotFull(x, k) =>
      (r, if r.slots[k % r.card] == Waiting then PushSawWaiting(x, k) else Returning(Busy))
    case PushSawWaiting(x, k) =>
      if r.tail == k then (ReserveTail(r, t, x), PushReserved(x, k)) else (r, Returning(Busy))
    case PushReserved(x, k) => (StoreValue(r, k, x), PushStored(x, k))
    case PushStored(x, k) => (SetState(r, k), Returning(Pushed))
    case PopStart => (r, PopHeadLoaded(r.head))
    case PopHeadLoaded(k) => (r, if k == r.tail then Returning(Empty) else PopNotEmpty(k))
    case PopNotEmpty(k) =>
      (r, match r.slots[k % r.card]
          case Valid => PopSawValid(k)
          case Invalid => PopSawInvalid(k)
          case Waiting => Returning(Busy))
    case PopSawValid(k) =>
      if r.head == k then (ReserveHead(r, t), PopReserved(k)) else (r, Returning(Busy))
    case PopReserved(k) => (r, PopCopied(k, r.values[k % r.card]))
    case PopCopied(k, v) => (ClearValue(r, k, Valid), Returning(Popped(v)))
    case PopSawInvalid(k) =>
      (if r.head == k then r.(head := k + 1) else r, PopSkipped(k))
    case PopSkipped(k) => (ClearValue(r, k, Invalid), Returning(Busy))
    case Idle => (r, p)
    case Returning(_) => (r, p)
  }

  function Begin<V>(op: Op<V>): PC<V> {
    match op
    case Push(x) => PushStart(x)
    case Pop => PopStart
  }

  ghost predicate Next<V>(s: Queue<V>, e: Event<V>, s': Queue<V>) {
    && Sized(s.ring)
    && e.tid in s.pc
    && match e
       case Invoke(t, op) => s.pc[t] == Idle && s' == s.(pc := s.pc[t := Begin(op)])
       case Access(t) =>
         && !s.pc[t].Idle? && !s.pc[t].Returning?
         && s' == Queue(Step(s.ring, t, s.pc[t]).0, s.pc[t := Step(s.ring, t, s.pc[t]).1])
       case Return(t, r) => s.pc[t] == Returning(r) && s' == s.(pc := s.pc[t := Idle])
  }

  /* ---------- the invariant ---------- */

  // Tickets [head, tail) are queued; tickets [tail, head + card) are free.
  ghost predicate LiveSlot<V>(r: Ring<V>, k: nat)
    requires Sized(r) && k < |r.log|
  {
    if k in r.pushing then r.slots[k % r.card] == Waiting
    else r.slots[k % r.card] == Valid && r.values[k % r.card] == r.log[k]
  }

  ghost predicate FreeSlot<V>(r: Ring<V>, k: nat)
    requires Sized(r)
  {
    r.slots[k % r.card] == if k - r.card in r.popping then Valid else Waiting
  }

  ghost predicate RingInv<V>(r: Ring<V>) {
    && Sized(r)
    && |r.log| == r.tail
    && r.head <= r.tail <= r.head + r.card
    && (forall i :: 0 <= i < r.card ==> r.slots[i] != Invalid)
    && (forall k: nat :: r.head <= k < r.tail ==> LiveSlot(r, k))
    && (forall k: nat :: r.tail <= k < r.head + r.card ==> FreeSlot(r, k))
    && (forall k :: k in r.pushing ==> r.head <= k < r.tail)
    && (forall k :: k in r.popping ==> k < r.head && r.tail <= k + r.card)
  }

  // What thread t may rely on at p, whatever the other threads do.
  ghost predicate LocalInv<V>(r: Ring<V>, t: Tid, p: PC<V>)
    requires Sized(r) && |r.log| == r.tail
  {
    match p
    case PushTailLoaded(x, k) => k <= r.tail
    case PushNotFull(x, k) => k <= r.tail && (k == r.tail ==> k < r.head + r.card)
    case PushSawWaiting(x, k) =>
      k <= r.tail && (k == r.tail ==> k < r.head + r.card && r.slots[k % r.card] == Waiting)
    case PushReserved(x, k) => k in r.pushing && r.pushing[k] == t && k < r.tail && r.log[k] == x
    case PushStored(x, k) =>
      k in r.pushing && r.pushing[k] == t && k < r.tail && r.log[k] == x && r.values[k % r.card] == x
    case PopHeadLoaded(k) => k <= r.head
    case PopNotEmpty(k) => k <= r.head && k < r.tail
    case PopSawValid(k) => k <= r.head && k < r.tail && (k == r.head ==> r.slots[k % r.card] == Valid)
    case PopReserved(k) =>
      k in r.popping && r.popping[k] == t && k < r.tail && r.values[k % r.card] == r.log[k]
    case PopCopied(k, v) => k in r.popping && r.popping[k] == t && k < r.tail && v == r.log[k]
    case PopSawInvalid(_) => false
    case PopSkipped(_) => false
    case _ => true
  }

  // A ticket in `pushing` (`popping`) belongs to a thread that is between its
  // compare-exchange and its last store for exactly that ticket.
  ghost predicate Owned<V>(s: Queue<V>) {
    && OwnsExactly(s.ring.pushing, s.pc, PushTicket)
    && OwnsExactly(s.ring.popping, s.pc, PopTicket)
  }

  ghost predicate OwnsExactly<V>(owners: map<nat, Tid>, pc: map<Tid, PC<V>>, ticket: PC<V> -> int) {
    forall k :: k in owners ==> owners[k] in pc && ticket(pc[owners[k]]) == k
  }

  function PushTicket<V>(p: PC<V>): int {
    if p.PushReserved? || p.PushStored? then p.t else -1
  }

  function PopTicket<V>(p: PC<V>): int {
    if p.PopReserved? || p.PopCopied? then p.h else -1
  }

  ghost predicate Inv<V>(s: Queue<V>) {
    && RingInv(s.ring)
    && Owned(s)
    && forall t :: t in s.pc ==> LocalInv(s.ring, t, s.pc[t])
  }

  lemma InitInv<V>(s: Queue<V>)
    requires Init(s)
    ensures Inv(s)
  {
  }

  // The other threads keep what they rely on.
  ghost predicate Stable<V(!new)>(r: Ring<V>, r': Ring<V>, t: Tid)
    requires RingInv(r) && RingInv(r')
  {
    forall u, p :: u != t && LocalInv(r, u, p) ==> LocalInv(r', u, p)
  }

  lemma ReserveTailInv<V(!new)>(r: Ring<V>, t: Tid, x: V)
    requires RingInv(r) && LocalInv(r, t, PushSawWaiting(x, r.tail))
    ensures RingInv(ReserveTail(r, t, x)) && Stable(r, ReserveTail(r, t, x), t)
  {
    var r' := ReserveTail(r, t, x);
    assert FreeSlot(r, r.tail);
    forall k: nat | r'.head <= k < r'.tail ensures LiveSlot(r', k) {
      if k < r.tail { assert LiveSlot(r, k); }
    }
    forall k: nat | r'.tail <= k < r'.head + r'.card ensures FreeSlot(r', k) {
      assert FreeSlot(r, k);
    }
  }

  lemma StoreValueInv<V(!new)>(r: Ring<V>, t: Tid, x: V, k: nat)
    requires RingInv(r) && LocalInv(r, t, PushReserved(x, k))
    ensures RingInv(StoreValue(r, k, x)) && Stable(r, StoreValue(r, k, x), t)
  {
    var r' := StoreValue(r, k, x);
    forall j: nat | r'.head <= j < r'.tail ensures LiveSlot(r', j) {
      assert LiveSlot(r, j);
      if j != k { Distinct(r.card, j, k); }
    }
    forall j: nat | r'.tail <= j < r'.head + r'.card ensures FreeSlot(r', j) {
      assert FreeSlot(r, j);
    }
    forall u, p | u != t && LocalInv(r, u, p) ensures LocalInv(r', u, p) {
      if p.PushStored? { Distinct(r.card, p.t, k); }
      if p.PopReserved? { Distinct(r.card, p.h, k); }
    }
  }

  lemma SetStateInv<V(!new)>(r: Ring<V>, t: Tid, x: V, k: nat)
    requires RingInv(r) && LocalInv(r, t, PushStored(x, k))
    ensures r.slots[k % r.card] == Waiting
    ensures RingInv(SetState(r, k)) && Stable(r, SetState(r, k), t)
  {
    var r' := SetState(r, k);
    assert LiveSlot(r, k);
    forall j: nat | r'.head <= j < r'.tail ensures LiveSlot(r', j) {
      assert LiveSlot(r, j);
      if j != k { Distinct(r.card, j, k); }
    }
    forall j: nat | r'.tail <= j < r'.head + r'.card ensures FreeSlot(r', j) {
      assert FreeSlot(r, j);
      Distinct(r.card, j, k);
    }
    forall u, p | u != t && LocalInv(r, u, p) ensures LocalInv(r', u, p) {
      if p.PushSawWaiting? && p.t == r.tail { Distinct(r.card, p.t, k); }
    }
  }

  lemma ReserveHeadInv<V(!new)>(r: Ring<V>, t: Tid)
    requires RingInv(r) && LocalInv(r, t, PopSawValid(r.head))
    ensures RingInv(ReserveHead(r, t)) && Stable(r, ReserveHead(r, t), t)
    ensures r.values[r.head % r.card] == r.log[r.head]
  {
    var r' := ReserveHead(r, t);
    assert LiveSlot(r, r.head);
    forall k: nat | r'.head <= k < r'.tail ensures LiveSlot(r', k) {
      assert LiveSlot(r, k);
    }
    forall k: nat | r'.tail <= k < r'.head + r'.card ensures FreeSlot(r', k) {
      if k < r.head + r.card {
        assert FreeSlot(r, k);
      } else {
        Period(r.card, r.head);
      }
    }
  }

  lemma ClearValueInv<V(!new)>(r: Ring<V>, t: Tid, k: nat, v: V)
    requires RingInv(r) && LocalInv(r, t, PopCopied(k, v))
    ensures r.slots[k % r.card] == Valid
    ensures RingInv(ClearValue(r, k, Valid)) && Stable(r, ClearValue(r, k, Valid), t)
  {
    var r' := ClearValue(r, k, Valid);
    Period(r.card, k);
    assert FreeSlot(r, k + r.card);
    forall j: nat | r'.head <= j < r'.tail ensures LiveSlot(r', j) {
      assert LiveSlot(r, j);
      Distinct(r.card, k, j);
    }
    forall j: nat | r'.tail <= j < r'.head + r'.card ensures FreeSlot(r', j) {
      assert FreeSlot(r, j);
      if j != k + r.card { Distinct(r.card, j, k + r.card); }
    }
    forall u, p | u != t && LocalInv(r, u, p) ensures LocalInv(r', u, p) {
      if p.PopSawValid? && p.h == r.head { Distinct(r.card, k, p.h); }
    }
  }

  lemma StepRing<V(!new)>(r: Ring<V>, t: Tid, p: PC<V>)
    requires RingInv(r) && LocalInv(r, t, p)
    ensures RingInv(Step(r, t, p).0) && Stable(r, Step(r, t, p).0, t)
  {
    match p
    case PushSawWaiting(x, k) => if k == r.tail { ReserveTailInv(r, t, x); }
    case PushReserved(x, k) => StoreValueInv(r, t, x, k);
    case PushStored(x, k) => SetStateInv(r, t, x, k);
    case PopSawValid(k) => if k == r.head { ReserveHeadInv(r, t); }
    case PopCopied(k, v) => ClearValueInv(r, t, k, v);
    case _ =>
  }

  // What thread t itself knows after its access.
  lemma StepLocal<V(!new)>(r: Ring<V>, t: Tid, p: PC<V>)
    requires RingInv(r) && LocalInv(r, t, p) && Sized(Step(r, t, p).0)
    ensures |Step(r, t, p).0.log| == Step(r, t, p).0.tail
    ensures LocalInv(Step(r, t, p).0, t, Step(r, t, p).1)
  {
    if p.PopSawValid? && p.h == r.head { ReserveHeadInv(r, t); }
  }

  // Ownership after a thread moves from ticket `from` to ticket `to` (-1: none).
  function Moved(owners: map<nat, Tid>, from: int, to: int, t: Tid): map<nat, Tid> {
    var kept := map k | k in owners && k != from :: owners[k];
    if to >= 0 then kept[to as nat := t] else kept
  }

  lemma StepPushing<V>(r: Ring<V>, t: Tid, p: PC<V>)
    requires Sized(r) && |r.log| == r.tail && LocalInv(r, t, p)
    ensures Step(r, t, p).0.pushing == Moved(r.pushing, PushTicket(p), PushTicket(Step(r, t, p).1), t)
  {
  }

  lemma StepPopping<V>(r: Ring<V>, t: Tid, p: PC<V>)
    requires Sized(r) && |r.log| == r.tail && LocalInv(r, t, p)
    ensures Step(r, t, p).0.popping == Moved(r.popping, PopTicket(p), PopTicket(Step(r, t, p).1), t)
  {
  }

  lemma MovedOwns<V>(owners: map<nat, Tid>, pc: map<Tid, PC<V>>, ticket: PC<V> -> int, t: Tid, p': PC<V>)
    requires OwnsExactly(owners, pc, ticket) && t in pc
    ensures OwnsExactly(Moved(owners, ticket(pc[t]), ticket(p'), t), pc[t := p'], ticket)
  {
  }

  lemma NextInv<V(!new)>(s: Queue<V>, e: Event<V>, s': Queue<V>)
    requires Inv(s) && Next(s, e, s')
    ensures Inv(s')
  {
    var t, p, p' := e.tid, s.pc[e.tid], s'.pc[e.tid];
    if e.Access? {
      StepRing(s.ring, t, p);
      StepLocal(s.ring, t, p);
      StepPushing(s.ring, t, p);
      StepPopping(s.ring, t, p);
    } else {
      assert s'.ring.pushing == Moved(s.ring.pushing, PushTicket(p), PushTicket(p'), t);
      assert s'.ring.popping == Moved(s.ring.popping, PopTicket(p), PopTicket(p'), t);
    }
    MovedOwns(s.ring.pushing, s.pc, PushTicket, t, p');
    MovedOwns(s.ring.popping, s.pc, PopTicket, t, p');
    assert s'.pc == s.pc[t := p'];
  }

  /* ---------- the abstract bounded queue ---------- */

  datatype Phase<V> = Out | Called(op: Op<V>) | Done(r: Result<V>)

  // A bounded FIFO whose operations take effect atomically, at one moment between their
  // invocation and their return: the linearizable specification.
  datatype Fifo<V> = Fifo(card: nat, items: seq<V>, at: map<Tid, Phase<V>>)

  ghost predicate Effect<V>(card: nat, items: seq<V>, op: Op<V>, r: Result<V>, items': seq<V>) {
    match r
    case Pushed => op.Push? && |items| < card && items' == items + [op.value]
    case Full => op.Push? && |items| == card && items' == items
    case Popped(v) => op.Pop? && |items| > 0 && v == items[0] && items' == items[1..]
    case Empty => op.Pop? && items == [] && items' == items
    case Busy => items' == items
  }

  ghost predicate TakesEffect<V>(a: Fifo<V>, t: Tid, a': Fifo<V>)
    requires t in a.at
  {
    && a.at[t].Called?
    && t in a'.at && a'.at[t].Done?
    && Effect(a.card, a.items, a.at[t].op, a'.at[t].r, a'.items)
    && a'.card == a.card && a'.at == a.at[t := a'.at[t]]
  }

  ghost predicate FifoNext<V>(a: Fifo<V>, e: Event<V>, a': Fifo<V>) {
    && e.tid in a.at
    && match e
       case Invoke(t, op) => a.at[t] == Out && a' == a.(at := a.at[t := Called(op)])
       case Access(t) => a' == a || TakesEffect(a, t, a')
       case Return(t, r) => a.at[t] == Done(r) && a' == a.(at := a.at[t := Out])
  }

  ghost predicate FifoInit<V>(a: Fifo<V>) {
    a.card >= 1 && a.items == [] && forall t :: t in a.at ==> a.at[t] == Out
  }

  ghost function Items<V>(r: Ring<V>): seq<V>
    requires |r.log| == r.tail && r.head <= r.tail
  {
    r.log[r.head..]
  }

  // A push takes effect at its tail compare-exchange, a pop at its head compare-exchange,
  // and a refused operation at its last load.
  ghost function PhaseOf<V>(log: seq<V>, p: PC<V>): Phase<V> {
    match p
    case Idle => Out
    case PushStart(x) => Called(Push(x))
    case PushTailLoaded(x, _) => Called(Push(x))
    case PushNotFull(x, _) => Called(Push(x))
    case PushSawWaiting(x, _) => Called(Push(x))
    case PushReserved(x, _) => Done(Pushed)
    case PushStored(x, _) => Done(Pushed)
    case PopReserved(k) => Done(if k < |log| then Popped(log[k]) else Empty)
    case PopCopied(k, v) => Done(Popped(v))
    case Returning(r) => Done(r)
    case _ => Called(Pop)
  }

  ghost function Abs<V>(s: Queue<V>): Fifo<V>
    requires |s.ring.log| == s.ring.tail && s.ring.head <= s.ring.tail
  {
    Fifo(s.ring.card, Items(s.ring), map t | t in s.pc :: PhaseOf(s.ring.log, s.pc[t]))
  }

  // The phase of a thread never depends on later pushes.
  lemma PhaseStable<V(!new)>(r: Ring<V>, r': Ring<V>, t: Tid, p: PC<V>)
    requires RingInv(r) && LocalInv(r, t, p) && r.log <= r'.log
    ensures PhaseOf(r.log, p) == PhaseOf(r'.log, p)
  {
  }

  // The compare-exchange of a push appends its value, that of a pop takes the oldest.
  lemma PushEffect<V(!new)>(r: Ring<V>, t: Tid, x: V)
    requires RingInv(r) && LocalInv(r, t, PushSawWaiting(x, r.tail))
    ensures var r' := ReserveTail(r, t, x);
      r.log <= r'.log && r'.head <= r'.tail == |r'.log| && Effect(r.card, Items(r), Push(x), Pushed, Items(r'))
  {
    assert Items(ReserveTail(r, t, x)) == Items(r) + [x];
  }

  lemma PopEffect<V(!new)>(r: Ring<V>, t: Tid)
    requires RingInv(r) && LocalInv(r, t, PopSawValid(r.head))
    ensures var r' := ReserveHead(r, t);
      r'.head <= r'.tail == |r'.log| && Effect(r.card, Items(r), Pop, Popped(r.log[r.head]), Items(r'))
  {
    assert Items(ReserveHead(r, t)) == Items(r)[1..];
  }

  // The accesses at which an operation takes effect, with the verdict it then returns.
  ghost predicate EffectAt<V>(r: Ring<V>, p: PC<V>, r': Ring<V>, p': PC<V>)
    requires |r.log| == r.tail && r.head <= r.tail && |r'.log| == r'.tail && r'.head <= r'.tail
  {
    var before, after := PhaseOf(r.log, p), PhaseOf(r'.log, p');
    && r.log <= r'.log
    && if after == before then Items(r') == Items(r)
       else before.Called? && after.Done? && Effect(r.card, Items(r), before.op, after.r, Items(r'))
  }

  lemma PushAccess<V(!new)>(r: Ring<V>, t: Tid, p: PC<V>)
    requires RingInv(r) && LocalInv(r, t, p) && RingInv(Step(r, t, p).0)
    requires p.PushStart? || p.PushTailLoaded? || p.PushNotFull? || p.PushSawWaiting? || p.PushReserved? || p.PushStored?
    ensures EffectAt(r, p, Step(r, t, p).0, Step(r, t, p).1)
  {
    if p.PushSawWaiting? && p.t == r.tail { PushEffect(r, t, p.x); }
  }

  lemma PopAccess<V(!new)>(r: Ring<V>, t: Tid, p: PC<V>)
    requires RingInv(r) && LocalInv(r, t, p) && RingInv(Step(r, t, p).0)
    requires p.PopStart? || p.PopHeadLoaded? || p.PopNotEmpty? || p.PopSawValid? || p.PopReserved? || p.PopCopied?
    ensures EffectAt(r, p, Step(r, t, p).0, Step(r, t, p).1)
  {
    if p.PopSawValid? && p.h == r.head { PopEffect(r, t); }
  }

  lemma AccessEffect<V(!new)>(r: Ring<V>, t: Tid, p: PC<V>)
    requires RingInv(r) && LocalInv(r, t, p) && RingInv(Step(r, t, p).0) && !p.Idle? && !p.Returning?
    ensures EffectAt(r, p, Step(r, t, p).0, Step(r, t, p).1)
  {
    if p.PushStart? || p.PushTailLoaded? || p.PushNotFull? || p.PushSawWaiting? || p.PushReserved? || p.PushStored? {
      PushAccess(r, t, p);
    } else {
      PopAccess(r, t, p);
    }
  }

  // A step changes the phase of its own thread only.
  lemma AbsNext<V(!new)>(s: Queue<V>, e: Event<V>, s': Queue<V>)
    requires Inv(s) && Next(s, e, s') && RingInv(s'.ring) && s.ring.log <= s'.ring.log
    ensures Abs(s').at == Abs(s).at[e.tid := PhaseOf(s'.ring.log, s'.pc[e.tid])]
  {
    forall u | u in s.pc && u != e.tid
      ensures s'.pc[u] == s.pc[u] && PhaseOf(s.ring.log, s.pc[u]) == PhaseOf(s'.ring.log, s.pc[u])
    {
      PhaseStable(s.ring, s'.ring, u, s.pc[u]);
    }
  }

  lemma Refines<V(!new)>(s: Queue<V>, e: Event<V>, s': Queue<V>)
    requires Inv(s) && Next(s, e, s')
    ensures Inv(s') && FifoNext(Abs(s), e, Abs(s'))
  {
    NextInv(s, e, s');
    if e.Access? {
      RefinesAccess(s, e.tid, s');
    } else {
      AbsNext(s, e, s');
    }
  }

  lemma RefinesAccess<V(!new)>(s: Queue<V>, t: Tid, s': Queue<V>)
    requires Inv(s) && Next(s, Access(t), s') && Inv(s')
    ensures Abs(s') == Abs(s) || TakesEffect(Abs(s), t, Abs(s'))
  {
    AccessEffect(s.ring, t, s.pc[t]);
    AbsNext(s, Access(t), s');
    if PhaseOf(s'.ring.log, s'.pc[t]) == PhaseOf(s.ring.log, s.pc[t]) {
      assert Abs(s).at[t := Abs(s).at[t]] == Abs(s).at;
    }
  }

  ghost predicate IsRun<V>(ss: seq<Queue<V>>, es: seq<Event<V>>) {
    |ss| == |es| + 1 && Init(ss[0]) && forall i :: 0 <= i < |es| ==> Next(ss[i], es[i], ss[i + 1])
  }

  ghost predicate IsFifoRun<V>(aa: seq<Fifo<V>>, es: seq<Event<V>>) {
    |aa| == |es| + 1 && FifoInit(aa[0]) && forall i :: 0 <= i < |es| ==> FifoNext(aa[i], es[i], aa[i + 1])
  }

  lemma {:induction false} RunInv<V(!new)>(ss: seq<Queue<V>>, es: seq<Event<V>>, n: nat)
    requires IsRun(ss, es) && n < |ss|
    ensures Inv(ss[n])
  {
    if n == 0 {
      InitInv(ss[0]);
    } else {
      RunInv(ss, es, n - 1);
      NextInv(ss[n - 1], es[n - 1], ss[n]);
    }
  }

  /** Linearizability: every run has a run of the same threads on an atomic bounded FIFO of the
      same capacity, with the same invocations and the same returned results in the same order. */
  lemma Linearizable<V(!new)>(ss: seq<Queue<V>>, es: seq<Event<V>>)
    requires IsRun(ss, es)
    ensures exists aa: seq<Fifo<V>> ::
      IsFifoRun(aa, es) && aa[0].card == ss[0].ring.card && aa[0].at.Keys == ss[0].pc.Keys
  {
    forall i | 0 <= i < |ss| ensures Inv(ss[i]) { RunInv(ss, es, i); }
    var aa := seq(|ss|, i requires 0 <= i < |ss| => Abs(ss[i]));
    forall i | 0 <= i < |es| ensures FifoNext(aa[i], es[i], aa[i + 1]) {
      Refines(ss[i], es[i], ss[i + 1]);
    }
    assert IsFifoRun(aa, es);
  }

  /* ---------- consequences for every reachable state ---------- */

  /** The pop holding ticket k hands out the k-th logged value, the two compare-exchanges
      whose failure the code ignores never fail, and no slot is ever found invalid. */
  lemma ReachableThread<V(!new)>(ss: seq<Queue<V>>, es: seq<Event<V>>, n: nat, t: Tid)
    requires IsRun(ss, es) && n < |ss| && t in ss[n].pc
    ensures var r, p := ss[n].ring, ss[n].pc[t];
      && Sized(r) && |r.log| == r.tail && r.head <= r.tail <= r.head + r.card
      && (p.PushStored? ==> r.slots[p.t % r.card] == Waiting)
      && (p.PopCopied? ==> r.slots[p.h % r.card] == Valid && p.h < r.head && p.v == r.log[p.h])
      && !p.PopSawInvalid? && !p.PopSkipped?
  {
    RunInv(ss, es, n);
    var r, p := ss[n].ring, ss[n].pc[t];
    assert LocalInv(r, t, p);
    if p.PushStored? { SetStateInv(r, t, p.x, p.t); }
    if p.PopCopied? { ClearValueInv(r, t, p.h, p.v); }
  }

  ghost predicate Quiescent<V>(s: Queue<V>) {
    forall t :: t in s.pc ==> s.pc[t].Idle? || s.pc[t].Returning?
  }

  /** Between operations the ring holds exactly the queued values: the slots of
      [head, tail) are valid and hold them, every other slot is waiting. */
  lemma QuiescentSlots<V(!new)>(ss: seq<Queue<V>>, es: seq<Event<V>>, n: nat)
    requires IsRun(ss, es) && n < |ss| && Quiescent(ss[n])
    ensures var r := ss[n].ring;
      && Sized(r) && |r.log| == r.tail && r.head <= r.tail <= r.head + r.card
      && r.pushing == map[] && r.popping == map[]
      && (forall k: nat :: r.head <= k < r.tail ==>
            r.slots[k % r.card] == Valid && r.values[k % r.card] == r.log[k])
      && (forall k: nat :: r.tail <= k < r.head + r.card ==> r.slots[k % r.card] == Waiting)
  {
    RunInv(ss, es, n);
    var r := ss[n].ring;
    forall k ensures k !in r.pushing && k !in r.popping {
      assert k in r.pushing ==> PushTicket(ss[n].pc[r.pushing[k]]) == k;
      assert k in r.popping ==> PopTicket(ss[n].pc[r.popping[k]]) == k;
    }
    forall k: nat | r.head <= k < r.tail ensures r.slots[k % r.card] == Valid && r.values[k % r.card] == r.log[k] {
      assert LiveSlot(r, k);
    }
    forall k: nat | r.tail <= k < r.head + r.card ensures r.slots[k % r.card] == Waiting {
      assert FreeSlot(r, k);
    }
  }

  /* ---------- an operation that overlaps no other ---------- */

  // n accesses of thread t, nobody else moving.
  function Alone<V>(r: Ring<V>, t: Tid, p: PC<V>, n: nat): (Ring<V>, PC<V>)
    requires r.card >= 1 && |r.slots| == r.card && |r.values| == r.card
    decreases n
  {
    if n == 0 then (r, p) else
      var (r', p') := Step(r, t, p);
      Alone(r', t, p', n - 1)
  }

  ghost predicate Calm<V>(r: Ring<V>) {
    RingInv(r) && r.pushing == map[] && r.popping == map[]
  }

  ghost function PushRing<V>(r: Ring<V>, t: Tid, x: V): Ring<V>
    requires Sized(r)
  {
    SetState(StoreValue(ReserveTail(r, t, x), r.tail, x), r.tail)
  }

  ghost function PopRing<V>(r: Ring<V>, t: Tid): Ring<V>
    requires Sized(r)
  {
    ClearValue(ReserveHead(r, t), r.head, Valid)
  }

  lemma PushRingCalm<V(!new)>(r: Ring<V>, t: Tid, x: V)
    requires Calm(r) && |Items(r)| < r.card
    ensures r.slots[r.tail % r.card] == Waiting
    ensures Calm(PushRing(r, t, x)) && Items(PushRing(r, t, x)) == Items(r) + [x]
  {
    var k := r.tail;
    assert FreeSlot(r, k);
    ReserveTailInv(r, t, x);
    StoreValueInv(ReserveTail(r, t, x), t, x, k);
    SetStateInv(StoreValue(ReserveTail(r, t, x), k, x), t, x, k);
  }

  lemma PopRingCalm<V(!new)>(r: Ring<V>, t: Tid)
    requires Calm(r) && Items(r) != []
    ensures r.slots[r.head % r.card] == Valid && r.values[r.head % r.card] == r.log[r.head]
    ensures Calm(PopRing(r, t)) && Items(PopRing(r, t)) == Items(r)[1..]
  {
    assert LiveSlot(r, r.head);
    ReserveHeadInv(r, t);
    ClearValueInv(ReserveHead(r, t), t, r.head, r.log[r.head]);
  }

  /** An uninterrupted push reports full exactly when the ring is full, and otherwise
      appends its value; it never reports busy. */
  lemma PushAlone<V(!new)>(r: Ring<V>, t: Tid, x: V)
    requires Calm(r)
    ensures |Items(r)| == r.card ==> Alone(r, t, PushStart(x), 2) == (r, Returning(Full))
    ensures |Items(r)| < r.card ==>
      var (r', p') := Alone(r, t, PushStart(x), 6);
      p' == Returning(Pushed) && Calm(r') && r'.card == r.card && Items(r') == Items(r) + [x]
  {
    var k := r.tail;
    if |Items(r)| == r.card {
      calc {
        Alone(r, t, PushStart(x), 2);
        Alone(r, t, PushTailLoaded(x, k), 1);
        Alone(r, t, Returning(Full), 0);
      }
    } else {
      PushRingCalm(r, t, x);
      calc {
        Alone(r, t, PushStart(x), 6);
        Alone(r, t, PushTailLoaded(x, k), 5);
        Alone(r, t, PushNotFull(x, k), 4);
        Alone(r, t, PushSawWaiting(x, k), 3);
        Alone(ReserveTail(r, t, x), t, PushReserved(x, k), 2);
        Alone(StoreValue(ReserveTail(r, t, x), k, x), t, PushStored(x, k), 1);
        Alone(PushRing(r, t, x), t, Returning(Pushed), 0);
      }
    }
  }

  /** An uninterrupted pop reports empty exactly when the ring is empty, and otherwise
      removes and returns the oldest value; it never reports busy. */
  lemma PopAlone<V(!new)>(r: Ring<V>, t: Tid)
    requires Calm(r)
    ensures Items(r) == [] ==> Alone(r, t, PopStart, 2) == (r, Returning(Empty))
    ensures Items(r) != [] ==>
      var (r', p') := Alone(r, t, PopStart, 6);
      p' == Returning(Popped(Items(r)[0])) && Calm(r') && r'.card == r.card && Items(r') == Items(r)[1..]
  {
    var k := r.head;
    if Items(r) == [] {
      calc {
        Alone(r, t, PopStart, 2);
        Alone(r, t, PopHeadLoaded(k), 1);
        Alone(r, t, Returning(Empty), 0);
      }
    } else {
      PopRingCalm(r, t);
      var v := r.log[k];
      calc {
        Alone(r, t, PopStart, 6);
        Alone(r, t, PopHeadLoaded(k), 5);
        Alone(r, t, PopNotEmpty(k), 4);
        Alone(r, t, PopSawValid(k), 3);
        Alone(ReserveHead(r, t), t, PopReserved(k), 2);
        Alone(ReserveHead(r, t), t, PopCopied(k, v), 1);
        Alone(PopRing(r, t), t, Returning(Popped(v)), 0);
      }
    }
  }

  // A thread that is about to return takes no further access.
  lemma {:induction false} AloneStays<V>(r: Ring<V>, t: Tid, p: PC<V>, n: nat)
    requires Sized(r) && p.Returning?
    ensures Alone(r, t, p, n) == (r, p)
    decreases n
  {
    if n > 0 { AloneStays(r, t, p, n - 1); }
  }

  lemma {:induction false} AloneSettles<V>(r: Ring<V>, t: Tid, p: PC<V>, m: nat, n: nat)
    requires Sized(r) && Alone(r, t, p, m).1.Returning? && Alone(r, t, p, n).1.Returning?
    ensures Alone(r, t, p, m) == Alone(r, t, p, n)
    decreases m
  {
    if m == 0 {
      AloneStays(r, t, p, n);
    } else if n == 0 {
      AloneStays(r, t, p, m);
    } else {
      AloneSettles(Step(r, t, p).0, t, Step(r, t, p).1, m - 1, n - 1);
    }
  }

  // m accesses of thread t in a row, from the n-th event of a run on.
  lemma {:induction false} RunAlone<V(!new)>(ss: seq<Queue<V>>, es: seq<Event<V>>, n: nat, t: Tid, m: nat, last: nat)
    requires IsRun(ss, es) && n + m == last < |ss| && t in ss[n].pc && Sized(ss[n].ring)
    requires forall i :: n <= i < last ==> es[i] == Access(t)
    ensures t in ss[last].pc
    ensures Alone(ss[n].ring, t, ss[n].pc[t], m) == (ss[last].ring, ss[last].pc[t])
    decreases m
  {
    if m > 0 {
      assert Next(ss[n], es[n], ss[n + 1]);
      RunInv(ss, es, n + 1);
      RunAlone(ss, es, n + 1, t, m - 1, last);
    }
  }

  /** Between operations, in any run, the ring is calm. */
  lemma QuiescentCalm<V(!new)>(ss: seq<Queue<V>>, es: seq<Event<V>>, n: nat)
    requires IsRun(ss, es) && n < |ss| && Quiescent(ss[n])
    ensures Calm(ss[n].ring)
  {
    RunInv(ss, es, n);
    QuiescentSlots(ss, es, n);
  }

  // In a run, thread t calls op when no other operation is under way, makes m accesses while
  // nobody else moves, and returns r.
  ghost predicate Undisturbed<V>(ss: seq<Queue<V>>, es: seq<Event<V>>, n: nat, t: Tid, op: Op<V>, m: nat, r: Result<V>) {
    && IsRun(ss, es) && n + m + 1 < |es| && Quiescent(ss[n])
    && es[n] == Invoke(t, op) && es[n + m + 1] == Return(t, r)
    && forall i :: n < i <= n + m ==> es[i] == Access(t)
  }

  lemma UndisturbedAlone<V(!new)>(ss: seq<Queue<V>>, es: seq<Event<V>>, n: nat, t: Tid, op: Op<V>, m: nat, r: Result<V>)
    requires Undisturbed(ss, es, n, t, op, m, r)
    ensures Calm(ss[n].ring) && Alone(ss[n].ring, t, Begin(op), m) == (ss[n + m + 2].ring, Returning(r))
  {
    QuiescentCalm(ss, es, n);
    assert Next(ss[n], es[n], ss[n + 1]);
    RunAlone(ss, es, n + 1, t, m, n + m + 1);
    assert Next(ss[n + m + 1], es[n + m + 1], ss[n + m + 2]);
  }

  /** A push that overlaps no other operation of the run. */
  lemma PushInRun<V(!new)>(ss: seq<Queue<V>>, es: seq<Event<V>>, n: nat, t: Tid, x: V, m: nat, r: Result<V>)
    requires Undisturbed(ss, es, n, t, Push(x), m, r)
    ensures Calm(ss[n].ring) && Calm(ss[n + m + 2].ring)
    ensures var before, after := Items(ss[n].ring), Items(ss[n + m + 2].ring);
      if |before| == ss[n].ring.card then r == Full && after == before else r == Pushed && after == before + [x]
  {
    UndisturbedAlone(ss, es, n, t, Push(x), m, r);
    var ring := ss[n].ring;
    PushAlone(ring, t, x);
    AloneSettles(ring, t, PushStart(x), m, if |Items(ring)| == ring.card then 2 else 6);
  }

  /** A pop that overlaps no other operation of the run. */
  lemma PopInRun<V(!new)>(ss: seq<Queue<V>>, es: seq<Event<V>>, n: nat, t: Tid, m: nat, r: Result<V>)
    requires Undisturbed(ss, es, n, t, Pop, m, r)
    ensures Calm(ss[n].ring) && Calm(ss[n + m + 2].ring)
    ensures var before, after := Items(ss[n].ring), Items(ss[n + m + 2].ring);
      if before == [] then r == Empty && after == before else r == Popped(before[0]) && after == before[1..]
  {
    UndisturbedAlone(ss, es, n, t, Pop, m, r);
    var ring := ss[n].ring;
    PopAlone(ring, t);
    AloneSettles(ring, t, PopStart, m, if Items(ring) == [] then 2 else 6);
  }

  /* ---------- the object updated in place ---------- */

  /** The queue as its only user sees it: fields and arrays changed by one operation at a
      time.  The concurrent behaviour of the same accesses is the transition system above. */
  class LockFreeBufferQueue<V(!new, 0)> {
    const cardinality: nat
    var head: nat
    var tail: nat
    const valueState: array<SlotState>
    const values: array<V>
    ghost var log: seq<V>

    ghost function View(): Ring<V>
      reads this, valueState, values
    {
      Ring(cardinality, head, tail, valueState[..], values[..], log, map[], map[])
    }

    ghost predicate Valid()
      reads this, valueState, values
    {
      valueState != (values as object) && Calm(View())
    }

    // init throws when no element is allowed
    constructor (maxElems: nat)
      requires maxElems >= 1
      ensures Valid() && Items(View()) == [] && cardinality == maxElems
      ensures fresh(valueState) && fresh(values)
    {
      cardinality := maxElems;
      head := 0;
      tail := 0;
      values := new V[maxElems];
      valueState := new SlotState[maxElems](_ => Waiting);
      log := [];
    }

    method NonblockingPush(elem: V) returns (status: Result<V>)
      requires Valid()
      modifies this, valueState, values
      ensures Valid()
      ensures status == if |old(Items(View()))| == cardinality then Full else Pushed
      ensures Items(View()) == old(Items(View())) + if status == Pushed then [elem] else []
    {
      ghost var r := View();
      var t := tail;
      if t == head + cardinality {
        return Full;
      }
      PushRingCalm(r, 0, elem);
      var pos := t % cardinality;
      if valueState[pos] != Waiting || tail != t {
        return Busy;
      }
      tail := t + 1;
      log := log + [elem];
      values[pos] := elem;
      if valueState[pos] == Waiting {
        valueState[pos] := SlotState.Valid;
      }
      assert View() == PushRing(r, 0, elem);
      return Pushed;
    }

    method NonblockingPop() returns (status: Result<V>)
      requires Valid()
      modifies this, valueState, values
      ensures Valid()
      ensures status == if old(Items(View())) == [] then Empty else Popped(old(Items(View()))[0])
      ensures Items(View()) == if status == Empty then old(Items(View())) else old(Items(View()))[1..]
    {
      ghost var r := View();
      var h := head;
      if h == tail {
        return Empty;
      }
      PopRingCalm(r, 0);
      var pos := h % cardinality;
      var oldState := valueState[pos];
      if oldState != SlotState.Valid || head != h {
        return Busy;
      }
      head := h + 1;
      var elem := values[pos];
      if valueState[pos] == SlotState.Valid {
        valueState[pos] := Waiting;
      }
      assert View() == PopRing(r, 0);
      return Popped(elem);
    }
  }
}

/** The way of every chunk through the stages of DedupNetwork, in any run. */
module DedupNetworkPaths {
  import opened DedupNetwork

  // How often the chunk has been processed by a stage in the first k events.
  function Processed(es: seq<Step>, id: Id, stage: Stage, k: nat): nat
    requires k <= |es|
  {
    if k == 0 then 0 else
      Processed(es, id, stage, k - 1) +
      if es[k - 1].Process? && es[k - 1].id == id && es[k - 1].stage == stage then 1 else 0
  }

  // How often Reorder has got it.
  function Fetched(es: seq<Step>, id: Id, k: nat): nat
    requires k <= |es|
  {
    if k == 0 then 0 else
      Fetched(es, id, k - 1) + if es[k - 1].Fetch? && id in es[k - 1].ids then 1 else 0
  }

  // Deduplicate has found it to be a duplicate.
  predicate Duplicate(es: seq<Step>, id: Id, k: nat)
    requires k <= |es|
  {
    k > 0 && (Duplicate(es, id, k - 1) ||
              (es[k - 1].Process? && es[k - 1].id == id && es[k - 1].stage == Dedup && es[k - 1].isDuplicate))
  }

  // What has been done to a chunk: refined r times, deduplicated d times, compressed c times,
  // fetched f times, and whether it is a duplicate.
  datatype History = History(r: nat, d: nat, c: nat, f: nat, dup: bool)

  function HistoryOf(es: seq<Step>, id: Id, k: nat): History
    requires k <= |es|
  {
    History(Processed(es, id, Refine, k), Processed(es, id, Dedup, k), Processed(es, id, Compress, k),
            Fetched(es, id, k), Duplicate(es, id, k))
  }

  // What must have been done to a chunk that is at p.
  function Due(p: Place, dup: bool): History {
    match p
    case Source => History(0, 0, 0, 0, false)
    case Queued(level, _) =>
      (match level
       case RefineQueue => History(0, 0, 0, 0, false)
       case DedupQueue => History(1, 0, 0, 0, false)
       case CompressQueue => History(1, 1, 0, 0, false)
       case ReorderQueue => History(1, 1, if dup then 0 else 1, 0, dup))
    case Received(stage, _) =>
      (match stage
       case Refine => History(0, 0, 0, 0, false)
       case Dedup => History(1, 0, 0, 0, false)
       case Compress => History(1, 1, 0, 0, false))
    case ToSend(stage, _, level) =>
      (match stage
       case Refine => History(1, 0, 0, 0, false)
       case Dedup => History(1, 1, 0, 0, level == ReorderQueue)
       case Compress => History(1, 1, 1, 0, false))
    case Written => History(1, 1, if dup then 0 else 1, 1, dup)
  }

  // One step takes the chunk from what is due at one place to what is due at the next.
  lemma StepDue(n: nat, s: Net, e: Step, s': Net, id: Id, h: History, h': History)
    requires Inv(n, s) && Next(n, s, e, s') && id in s.place && h == Due(s.place[id], h.dup)
    requires h' == History(
      h.r + if e.Process? && e.id == id && e.stage == Refine then 1 else 0,
      h.d + if e.Process? && e.id == id && e.stage == Dedup then 1 else 0,
      h.c + if e.Process? && e.id == id && e.stage == Compress then 1 else 0,
      h.f + if e.Fetch? && id in e.ids then 1 else 0,
      h.dup || (e.Process? && e.id == id && e.stage == Dedup && e.isDuplicate))
    ensures id in s'.place && h' == Due(s'.place[id], h'.dup)
  {
    assert Placed(n, s.place[id]);
  }

  lemma {:induction false} RunDue(n: nat, ss: seq<Net>, es: seq<Step>, k: nat, id: Id)
    requires n > 0 && IsRun(n, ss, es) && k < |ss| && id in ss[0].place
    ensures id in ss[k].place
    ensures HistoryOf(es, id, k) == Due(ss[k].place[id], Duplicate(es, id, k))
  {
    if k > 0 {
      RunDue(n, ss, es, k - 1, id);
      RunInv(n, ss, es, k - 1);
      assert StepsAt(n, ss, es, k - 1);
      StepDue(n, ss[k - 1], es[k - 1], ss[k], id, HistoryOf(es, id, k - 1), HistoryOf(es, id, k));
    }
  }

  /** Over whole runs: a chunk that has reached Reorder has been refined once and deduplicated once,
      has reached it once, and has been compressed once, or never if it was found to be a duplicate;
      and a duplicate never is in the compress stage. */
  lemma ProcessedOnce(n: nat, ss: seq<Net>, es: seq<Step>, k: nat, id: Id)
    requires n > 0 && IsRun(n, ss, es) && k < |ss| && id in ss[0].place
    ensures id in ss[k].place
    ensures ss[k].place[id] == Written ==>
      && Processed(es, id, Refine, k) == 1 && Processed(es, id, Dedup, k) == 1 && Fetched(es, id, k) == 1
      && Processed(es, id, Compress, k) == if Duplicate(es, id, k) then 0 else 1
    ensures Duplicate(es, id, k) ==>
      && (forall q :: ss[k].place[id] != Queued(CompressQueue, q))
      && (forall t :: ss[k].place[id] != Received(Compress, t))
    ensures Fetched(es, id, k) == 1 <==> ss[k].place[id] == Written
  {
    RunDue(n, ss, es, k, id);
  }
}

/** How a pipeline waits for its threads (class __instance of include/pipeline.h): the workers
    meet at a barrier; its completion opens the latch `end_` once and makes the barrier one
    for a single thread, at which the waiting thread arrives. */
module PipelineInstance {
  import opened FiniteSets
  import opened B = FlexBarrier

  // `called` and `gone`: the threads that have called arrive_and_wait, and returned from it
  datatype Instance = Instance(
    barrier: Barrier,
    workers: set<Tid>,
    waiter: Tid,
    called: set<Tid>,
    gone: set<Tid>,
    done: bool,
    end: nat)

  // all_threads_done, when the step has run the completion function
  function AllThreadsDone(s: Instance): Instance
    requires s.done || s.end > 0
  {
    s.(done := true, end := if s.done then s.end else s.end - 1)
  }

  ghost predicate Next(s: Instance, e: Step, s': Instance) {
    && B.Next(s.barrier, e, s'.barrier) && e.t in s'.barrier.pc
    && (e.Run? ==> e.result == 1)
    // a worker calls thread_done once; wait() first waits for end_
    && (e.Call? ==> e.kind == Wait && (e.t == s.waiter ==> s.end == 0) && (e.t != s.waiter ==> e.t !in s.called))
    && (s.done || s.end > 0)
    && var s1 := if s'.barrier.completions == s.barrier.completions then s else AllThreadsDone(s);
       s' == s1.(barrier := s'.barrier,
                 called := if e.Call? then s.called + {e.t} else s.called,
                 gone := if e.Run? && s'.barrier.pc[e.t] == Out then s.gone + {e.t} else s.gone)
  }

  ghost predicate Init(s: Instance) {
    && B.Init(s.barrier) && s.barrier.b.threadCount == |s.workers|
    && s.waiter !in s.workers && s.barrier.pc.Keys == s.workers + {s.waiter}
    && s.called == {} && s.gone == {} && !s.done && s.end == 1
  }

  ghost predicate WorkerInv(s: Instance, w: Tid)
    requires w in s.barrier.pc
  {
    var p := s.barrier.pc[w];
    && (p != Out || w in s.gone <==> w in s.called)
    && (w in s.gone ==> w in s.called && p == Out)
    && (p.AtIdle? ==> p.kind == Wait)
    && (if s.barrier.completions == 0 then w !in s.gone else p.AtReady? || w in s.gone)
  }

  ghost predicate WaiterInv(s: Instance) {
    && s.waiter in s.barrier.pc
    && var p := s.barrier.pc[s.waiter];
    && !p.AtReady?
    && (p.AtIdle? ==> p.kind == Wait)
    && (s.barrier.completions == 0 ==> p == Out)
    && (s.waiter in s.gone ==> s.barrier.completions > 0 && s.workers <= s.gone)
  }

  ghost predicate CountInv(s: Instance) {
    && s.barrier.dropped == 0
    && (s.barrier.completions == 0 ==> s.barrier.start == |s.workers| && s.barrier.b.numToLeave == 0)
    && (s.barrier.completions > 0 && s.barrier.b.numToLeave == 0 ==> s.barrier.b.threadCount == 1)
    && (s.barrier.b.numToLeave > 0 ==> s.barrier.b.newThreadCount == 1)
    && s.done == (s.barrier.completions > 0)
    && s.end == (if s.barrier.completions == 0 then 1 else 0)
  }

  ghost predicate Inv(s: Instance) {
    && B.Inv(s.barrier)
    && s.waiter !in s.workers && s.barrier.pc.Keys == s.workers + {s.waiter}
    && (forall w :: w in s.workers ==> WorkerInv(s, w))
    && WaiterInv(s)
    && CountInv(s)
  }

  lemma InitInv(s: Instance)
    requires Init(s)
    ensures Inv(s)
  {
    B.InitInv(s.barrier);
  }

  // The first completion happens when the last worker arrives.
  lemma FirstCompletion(s: Instance, t: Tid, w: Tid)
    requires Inv(s) && s.barrier.completions == 0 && t in s.workers && t !in Inside(s.barrier)
    requires |Inside(s.barrier)| + 1 == |s.workers| && w in s.workers
    ensures w == t || s.barrier.pc[w].AtReady?
  {
    var a := Inside(s.barrier) + {t};
    if w !in a {
      SubsetSize(a + {w}, s.workers);
    }
  }

  // Nobody is inside while a generation of one gathers.
  lemma AloneInside(s: Instance)
    requires Inv(s) && s.barrier.completions > 0 && s.barrier.b.numToLeave == 0
    ensures s.workers <= s.gone
  {
    assert |Inside(s.barrier)| == 0;
    forall w | w in s.workers ensures w in s.gone {
      assert WorkerInv(s, w) && w !in Inside(s.barrier);
    }
  }

  // What the last arrival leaves behind.
  lemma CompletionShape(s: Barrier, e: Step, s': Barrier)
    requires B.Inv(s) && B.Next(s, e, s') && s'.completions != s.completions
    requires forall t :: t in s.pc && s.pc[t].AtIdle? ==> s.pc[t].kind == Wait
    ensures e.t !in Inside(s) && s'.pc[e.t] == Out && e.Run? && s'.completions == s.completions + 1
    ensures |Inside(s)| + 1 + s.dropped == s.start
    ensures forall u :: u in s.pc && u != e.t ==>
      && u in s'.pc
      && s'.pc[u].AtReady? == s.pc[u].AtReady?
      && (s'.pc[u] == Out <==> s.pc[u] == Out)
      && (s'.pc[u].AtIdle? ==> s'.pc[u].kind == s.pc[u].kind)
  {
  }

  lemma WorkerStep(s: Instance, e: Step, s': Instance, w: Tid)
    requires Inv(s) && Next(s, e, s') && w in s.workers
    ensures w in s'.barrier.pc && WorkerInv(s', w)
  {
    assert WorkerInv(s, w) && (e.t in s.workers ==> WorkerInv(s, e.t));
    if s'.barrier.completions != s.barrier.completions {
      forall t | t in s.barrier.pc && s.barrier.pc[t].AtIdle? ensures s.barrier.pc[t].kind == Wait {
        assert t in s.workers ==> WorkerInv(s, t);
      }
      CompletionShape(s.barrier, e, s'.barrier);
      if s.barrier.completions == 0 { FirstCompletion(s, e.t, w); } else { AloneInside(s); }
    }
  }

  lemma WaiterStep(s: Instance, e: Step, s': Instance)
    requires Inv(s) && Next(s, e, s')
    ensures WaiterInv(s')
  {
    if e.t == s.waiter && s.barrier.completions > 0 && s.barrier.b.numToLeave == 0 {
      AloneInside(s);
      assert |Inside(s.barrier)| == 0;
    }
  }

  lemma CountStep(s: Instance, e: Step, s': Instance)
    requires Inv(s) && Next(s, e, s')
    ensures CountInv(s')
  {
    assert e.t in s.workers ==> WorkerInv(s, e.t);
    if s.barrier.completions > 0 && s.barrier.b.numToLeave == 0 {
      assert |Inside(s.barrier)| == 0;
    }
  }

  lemma SameThreads(s: Instance, e: Step, s': Instance)
    requires Next(s, e, s')
    ensures s'.workers == s.workers && s'.waiter == s.waiter && s'.barrier.pc.Keys == s.barrier.pc.Keys
  {
  }

  lemma WorkersStep(s: Instance, e: Step, s': Instance)
    requires Inv(s) && Next(s, e, s')
    ensures forall w :: w in s'.workers ==> w in s'.barrier.pc && WorkerInv(s', w)
  {
    SameThreads(s, e, s');
    forall w | w in s.workers ensures w in s'.barrier.pc && WorkerInv(s', w) {
      WorkerStep(s, e, s', w);
    }
  }

  lemma NextInv(s: Instance, e: Step, s': Instance)
    requires Inv(s) && Next(s, e, s')
    ensures Inv(s')
  {
    B.NextInv(s.barrier, e, s'.barrier);
    SameThreads(s, e, s');
    WorkersStep(s, e, s');
    WaiterStep(s, e, s');
    CountStep(s, e, s');
  }

  ghost predicate IsRun(ss: seq<Instance>, es: seq<Step>) {
    |ss| == |es| + 1 && Init(ss[0]) && forall k :: 0 <= k < |es| ==> Next(ss[k], es[k], ss[k + 1])
  }

  lemma {:induction false} RunInv(ss: seq<Instance>, es: seq<Step>, k: nat)
    requires IsRun(ss, es) && k < |ss|
    ensures Inv(ss[k])
  {
    if k == 0 {
      InitInv(ss[0]);
    } else {
      RunInv(ss, es, k - 1);
      NextInv(ss[k - 1], es[k - 1], ss[k]);
    }
  }

  /** wait() returns only after every worker has left the barrier, and `end_` is counted down
      exactly once, at the first completion. */
  lemma WaitAfterWorkers(ss: seq<Instance>, es: seq<Step>, k: nat)
    requires IsRun(ss, es) && k < |ss|
    ensures ss[k].waiter in ss[k].gone ==> ss[k].workers <= ss[k].gone && ss[k].done
    ensures ss[k].end == (if ss[k].barrier.completions == 0 then 1 else 0)
    ensures ss[k].done || ss[k].end > 0
  {
    RunInv(ss, es, k);
  }

  // Once the first completion has run, a worker is still inside or has left.
  lemma WorkersGone(s: Instance)
    requires Inv(s) && s.barrier.completions > 0
    ensures s.workers <= s.gone <==> !BeingReleased(s.barrier)
  {
    ReleasedIff(s.barrier);
    if s.barrier.b.numToLeave == 0 {
      AloneInside(s);
    } else {
      assert |Inside(s.barrier)| > 0;
      var w :| w in Inside(s.barrier);
      assert WorkerInv(s, w);
    }
  }

  /** The waiting thread, at the barrier in any run: its step ends wait() if every worker has left,
      and else it sleeps. */
  lemma WaiterDecided(ss: seq<Instance>, es: seq<Step>, k: nat)
    requires IsRun(ss, es) && k < |es| && es[k].Run? && es[k].t == ss[k].waiter
    ensures ss[k].waiter in ss[k + 1].barrier.pc
    ensures if ss[k].workers <= ss[k].gone
      then ss[k].waiter in ss[k + 1].gone && ss[k + 1].barrier.pc[ss[k].waiter] == Out
      else ss[k + 1].barrier.pc[ss[k].waiter] == AtIdle(Wait, true)
  {
    RunInv(ss, es, k);
    var s := ss[k];
    assert Next(s, es[k], ss[k + 1]);
    WorkersGone(s);
    ReleasedIff(s.barrier);
  }

  // A thread at the barrier that is not asleep can take its step.
  lemma RunPossible(s: Instance, t: Tid)
    requires Inv(s) && t in s.barrier.pc && s.barrier.pc[t] != Out && !s.barrier.pc[t].asleep
    requires s.barrier.pc[t].AtIdle? ==> s.barrier.pc[t].kind == Wait
    ensures exists e, s' :: Next(s, e, s')
  {
    var e, b' := Run(t, 1), Stretch(s.barrier, t, 1);
    assert B.Next(s.barrier, e, b');
    var s1 := if b'.completions == s.barrier.completions then s else AllThreadsDone(s);
    assert Next(s, e, s1.(barrier := b', gone := if b'.pc[t] == Out then s.gone + {t} else s.gone));
  }

  lemma CallPossible(s: Instance, t: Tid)
    requires Inv(s) && t in s.barrier.pc && s.barrier.pc[t] == Out
    requires if t == s.waiter then s.end == 0 else t !in s.called
    ensures exists e, s' :: Next(s, e, s')
  {
    var e, b' := Call(t, Wait), s.barrier.(pc := s.barrier.pc[t := AtIdle(Wait, false)]);
    assert B.Next(s.barrier, e, b');
    assert Next(s, e, s.(barrier := b', called := s.called + {t}));
  }

  // All workers are at the barrier, and one of them is awake.
  lemma AwakeWorker(s: Instance) returns (t: Tid)
    requires Inv(s) && s.barrier.completions == 0 && s.workers != {}
    requires forall w :: w in s.workers ==> w in s.called
    ensures t in s.workers && s.barrier.pc[t].AtIdle? && !s.barrier.pc[t].asleep
  {
    if s.workers <= Inside(s.barrier) {
      SubsetSize(s.workers, Inside(s.barrier));
      assert false;
    }
    t :| t in s.workers && !s.barrier.pc[t].AtReady?;
    assert WorkerInv(s, t);
  }

  /** Until wait() has returned some step is possible. */
  lemma Progress(ss: seq<Instance>, es: seq<Step>)
    requires IsRun(ss, es) && ss[|es|].waiter !in ss[|es|].gone
    ensures exists e, s' :: Next(ss[|es|], e, s')
  {
    RunInv(ss, es, |es|);
    var s := ss[|es|];
    if s.barrier.completions == 0 {
      if w :| w in s.workers && w !in s.called {
        assert WorkerInv(s, w);
        CallPossible(s, w);
      } else {
        var t := AwakeWorker(s);
        assert WorkerInv(s, t);
        RunPossible(s, t);
      }
    } else if s.barrier.b.numToLeave > 0 {
      assert |Inside(s.barrier)| > 0;
      var t :| t in Inside(s.barrier);
      RunPossible(s, t);
    } else if s.barrier.pc[s.waiter] == Out {
      CallPossible(s, s.waiter);
    } else {
      RunPossible(s, s.waiter);
    }
  }
}

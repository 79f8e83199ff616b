/**
 What a task graph means, and that every schedule computes it.  The reference is
 the graph run one task at a time in a topological order.
 */
module TaskMeaning {
  import opened Common
  import opened TaskGraphs
  import opened TaskRuns
  import opened TaskInvariant

  /** The outcome of task `t` once the outcomes `m` of its dependencies are known. */
  function Fate(g: Graph, x: Executor, init: States, m: States, t: Id): TaskState
    requires t in g && t in init
  {
    if init[t].status == Pending && g[t].deps <= CompletedIds(m) then Attempts(x, g[t].maxAttempts, t, init[t])
    else init[t]
  }

  /** The dataflow reading of the graph: one task after the other along `order`. */
  function Dataflow(g: Graph, x: Executor, init: States, order: seq<Id>): States
    requires forall t :: t in order ==> t in g && t in init
  {
    if order == [] then map[]
    else
      var k := |order| - 1;
      var m := Dataflow(g, x, init, order[..k]);
      m[order[k] := Fate(g, x, init, m, order[k])]
  }

  /** `m` gives every task the outcome its dependencies' outcomes in `m` call for. */
  ghost predicate Settled(g: Graph, x: Executor, init: States, m: States)
    requires g.Keys == init.Keys
  {
    m.Keys == g.Keys && forall t :: t in g ==> m[t] == Fate(g, x, init, m, t)
  }

  lemma {:induction false} FinishedIsSettled(g: Graph, x: Executor, init: States, s: Sys)
    requires Inv(g, x, init, s) && Finished(g, s)
    ensures Settled(g, x, init, s.tasks)
  {
    forall t | t in g
      ensures s.tasks[t] == Fate(g, x, init, s.tasks, t)
    {
      assert TaskInv(g, x, init, s, t);
      if t !in Started(s.waves) && init[t].status == Pending {
        assert !AllComplete(s.tasks);
        assert t !in Ready(g, s.tasks);
      }
    }
  }

  /** The next task along the order, once those before it agree. */
  lemma {:induction false} NextFateMatches(g: Graph, x: Executor, init: States, m: States, d: States, t: Id)
    requires g.Keys == init.Keys && Settled(g, x, init, m) && t in g
    requires forall u :: u in g[t].deps ==> u in d && u in m && d[u] == m[u]
    ensures Fate(g, x, init, d, t) == m[t]
  {
    assert g[t].deps <= CompletedIds(d) <==> g[t].deps <= CompletedIds(m) by {
      forall u | u in g[t].deps
        ensures u in CompletedIds(d) <==> u in CompletedIds(m)
      {
      }
    }
  }

  /** The dataflow reading along a prefix of the order agrees with `m`. */
  ghost predicate AgreesAlong(g: Graph, x: Executor, init: States, prefix: seq<Id>, m: States)
    requires forall t :: t in prefix ==> t in g && t in init
  {
    var d := Dataflow(g, x, init, prefix);
    forall t :: t in prefix ==> t in d && t in m && d[t] == m[t]
  }

  lemma {:induction false} DataflowKeys(g: Graph, x: Executor, init: States, order: seq<Id>)
    requires forall t :: t in order ==> t in g && t in init
    ensures Dataflow(g, x, init, order).Keys == Elements(order)
  {
    if order != [] {
      var k := |order| - 1;
      DataflowKeys(g, x, init, order[..k]);
      assert order == order[..k] + [order[k]];
    }
  }

  lemma {:induction false} AgreesNext(g: Graph, x: Executor, init: States, prefix: seq<Id>, t: Id, m: States)
    requires g.Keys == init.Keys && Settled(g, x, init, m) && t in g && t !in prefix
    requires forall u :: u in prefix ==> u in g
    requires g[t].deps <= Elements(prefix) && AgreesAlong(g, x, init, prefix, m)
    ensures forall u :: u in prefix + [t] ==> u in g
    ensures AgreesAlong(g, x, init, prefix + [t], m)
  {
    assert (prefix + [t])[..|prefix|] == prefix;
    NextFateMatches(g, x, init, m, Dataflow(g, x, init, prefix), t);
  }

  lemma {:induction false} OrderIsKnown(g: Graph, order: seq<Id>)
    requires IsTopological(DepsOf(g), order)
    ensures forall t :: t in order ==> t in g
  {
    assert forall t :: t in order ==> t in Elements(order);
  }

  lemma {:induction false} OrderStep(g: Graph, order: seq<Id>, k: nat)
    requires IsTopological(DepsOf(g), order) && 0 < k <= |order|
    ensures order[k - 1] in g && g[order[k - 1]].deps <= Elements(order[..k - 1])
    ensures order[k - 1] !in order[..k - 1] && order[..k] == order[..k - 1] + [order[k - 1]]
  {
    OrderIsKnown(g, order);
    assert order[k - 1] in order;
    assert DepsOf(g)[order[k - 1]] <= Elements(order[..k - 1]);
  }

  lemma {:induction false} DataflowMatches(g: Graph, x: Executor, init: States, order: seq<Id>, m: States, k: nat)
    requires g.Keys == init.Keys && IsTopological(DepsOf(g), order) && Settled(g, x, init, m) && k <= |order|
    ensures forall t :: t in order[..k] ==> t in g
    ensures AgreesAlong(g, x, init, order[..k], m)
  {
    if k > 0 {
      DataflowMatches(g, x, init, order, m, k - 1);
      OrderStep(g, order, k);
      AgreesNext(g, x, init, order[..k - 1], order[k - 1], m);
    }
  }

  /** In an acyclic graph there is only one way to settle: the dataflow reading. */
  lemma {:induction false} SettledIsDataflow(g: Graph, x: Executor, init: States, order: seq<Id>, m: States)
    requires g.Keys == init.Keys && IsTopological(DepsOf(g), order) && Settled(g, x, init, m)
    ensures forall t :: t in order ==> t in g
    ensures m == Dataflow(g, x, init, order)
  {
    DataflowMatches(g, x, init, order, m, |order|);
    assert order[..|order|] == order;
    DataflowKeys(g, x, init, order);
    assert m.Keys == Elements(order);
    forall t | t in m
      ensures m[t] == Dataflow(g, x, init, order)[t]
    {
      assert t in Elements(order) && t in order;
    }
  }

  /**
   Confluence: whatever the order in which coroutines are resumed, a finished run
   of an acyclic graph leaves exactly the states of the one-task-at-a-time reading.
   */
  lemma {:induction false} EveryScheduleComputesDataflow(g: Graph, x: Executor, init: States, order: seq<Id>,
                                                         run: seq<Sys>)
    requires g.Keys == init.Keys && IsTopological(DepsOf(g), order)
    requires IsRun(g, x, init, run) && Finished(g, run[|run| - 1])
    ensures forall t :: t in order ==> t in g
    ensures run[|run| - 1].tasks == Dataflow(g, x, init, order)
    ensures !run[|run| - 1].crashed
  {
    RunKeepsInv(g, x, init, run);
    FinishedIsSettled(g, x, init, run[|run| - 1]);
    SettledIsDataflow(g, x, init, order, run[|run| - 1].tasks);
  }

  /** Running a settled graph again starts nothing: failed tasks are not retried by a second run. */
  lemma {:induction false} RerunStartsNothing(g: Graph, x: Executor, init: States, m: States)
    requires g.Keys == init.Keys && Settled(g, x, init, m)
    ensures Finished(g, Initial(m))
  {
    forall t | t in g
      ensures t !in Ready(g, m)
    {
      AttemptsMeaning(x, g[t].maxAttempts, t, init[t]);
    }
  }

  // ------------------------------------------------------------------ graphs that start all pending

  ghost predicate AllPending(init: States) {
    forall t :: t in init ==> init[t].status == Pending && init[t].attempts == 0
  }

  /** The number of attempts allowed: a non-positive maximum still allows one. */
  function Allowance(max: int): int {
    if max <= 1 then 1 else max
  }

  /** Some dependency of `t`, direct or not, failed. */
  ghost predicate FailureUpstream(g: Graph, m: States, t: Id) {
    exists p :: |p| >= 2 && p[0] == t && EndsInFailure(g, m, p)
  }

  ghost predicate EndsInFailure(g: Graph, m: States, p: seq<Id>) {
    IsPath(DepsOf(g), p) && p[|p| - 1] in m && m[p[|p| - 1]].status == Failed
  }

  lemma {:induction false} FailureAbove(g: Graph, m: States, t: Id, p: seq<Id>)
    requires t in g && EndsInFailure(g, m, p) && p[0] in g[t].deps
    ensures FailureUpstream(g, m, t)
  {
    PathPrepend(DepsOf(g), t, p);
    var q := [t] + p;
    assert q[|q| - 1] == p[|p| - 1];
    assert EndsInFailure(g, m, q);
  }

  /** A pending task waits for a dependency that is not completed: it failed, or is pending itself. */
  lemma {:induction false} BlockingDep(g: Graph, x: Executor, init: States, m: States, t: Id) returns (d: Id)
    requires g.Keys == init.Keys && Settled(g, x, init, m) && AllPending(init)
    requires t in g && m[t].status == Pending && g[t].deps <= g.Keys
    ensures d in g[t].deps && d in m && (m[d].status == Failed || m[d].status == Pending)
  {
    AttemptsMeaning(x, g[t].maxAttempts, t, init[t]);
    d :| d in g[t].deps && d !in CompletedIds(m);
    AttemptsMeaning(x, g[d].maxAttempts, d, init[d]);
  }

  /** A blocked task has a failed task upstream. */
  lemma {:induction false} BlockedHasFailure(g: Graph, x: Executor, init: States, order: seq<Id>, m: States, i: nat)
    requires g.Keys == init.Keys && IsTopological(DepsOf(g), order) && Settled(g, x, init, m) && AllPending(init)
    requires i < |order| && order[i] in m && m[order[i]].status == Pending
    ensures FailureUpstream(g, m, order[i])
  {
    var t := order[i];
    OrderStep(g, order, i + 1);
    var d := BlockingDep(g, x, init, m, t);
    var j :| 0 <= j < i && order[j] == d;
    if m[d].status == Failed {
      assert EndsInFailure(g, m, [d]);
      FailureAbove(g, m, t, [d]);
    } else {
      BlockedHasFailure(g, x, init, order, m, j);
      var p :| |p| >= 2 && p[0] == d && EndsInFailure(g, m, p);
      FailureAbove(g, m, t, p);
    }
  }

  lemma {:induction false} PathPrepend(g: Deps, t: Id, p: seq<Id>)
    requires IsPath(g, p) && t in g && p[0] in g[t]
    ensures IsPath(g, [t] + p)
  {
    var q := [t] + p;
    forall i | 0 <= i < |q| - 1
      ensures q[i] in g && q[i + 1] in g[q[i]]
    {
      if i > 0 {
        assert q[i] == p[i - 1] && q[i + 1] == p[i];
      }
    }
  }

  /** A failed task blocks everything downstream. */
  lemma {:induction false} FailureBlocks(g: Graph, x: Executor, init: States, m: States, p: seq<Id>)
    requires g.Keys == init.Keys && Settled(g, x, init, m) && AllPending(init)
    requires |p| >= 2 && EndsInFailure(g, m, p)
    ensures m[p[0]].status == Pending
  {
    var t, d := p[0], p[1];
    if |p| > 2 {
      PathSuffix(DepsOf(g), p, 1);
      FailureBlocks(g, x, init, m, p[1..]);
    }
    assert d in g[t].deps && d !in CompletedIds(m);
  }

  /**
   The three fates of a task in an acyclic graph that starts all pending: it
   completes, it fails, or it is never touched, and which of them is decided by
   its own allowed attempts and by failures upstream.
   */
  lemma {:induction false} ThreeFates(g: Graph, x: Executor, init: States, order: seq<Id>, m: States, t: Id)
    requires g.Keys == init.Keys && IsTopological(DepsOf(g), order)
    requires Settled(g, x, init, m) && AllPending(init) && t in g
    ensures m[t].status == Completed <==>
            g[t].deps <= CompletedIds(m) && exists k :: 1 <= k <= Allowance(g[t].maxAttempts) && x(t, k).Returns?
    ensures m[t].status == Failed <==>
            g[t].deps <= CompletedIds(m) && forall k :: 1 <= k <= Allowance(g[t].maxAttempts) ==> x(t, k).Raises?
    ensures m[t].status == Pending <==> FailureUpstream(g, m, t)
    ensures m[t].status == Pending ==> m[t] == init[t]
    ensures m[t].status in {Pending, Completed, Failed}
  {
    AttemptsMeaning(x, g[t].maxAttempts, t, init[t]);
    assert t in Elements(order);
    var i :| 0 <= i < |order| && order[i] == t;
    if m[t].status == Pending {
      BlockedHasFailure(g, x, init, order, m, i);
    }
    if FailureUpstream(g, m, t) {
      var p :| |p| >= 2 && p[0] == t && EndsInFailure(g, m, p);
      FailureBlocks(g, x, init, m, p);
    }
  }

  /** The events of a task once its run has finished: announced and completed, announced and given up, or none. */
  lemma {:induction false} EventsOfFates(g: Graph, x: Executor, init: States, s: Sys, t: Id)
    requires Inv(g, x, init, s) && Finished(g, s) && AllPending(init) && t in g
    ensures s.tasks[t].status == Completed ==>
            Story(s.log, t) == [Event(TaskAssigned, t, Assigned), Event(TaskCompleted, t, Completed)]
    ensures s.tasks[t].status == Failed ==>
            Story(s.log, t) == [Event(TaskAssigned, t, Assigned), Event(TaskDeadLetter, t, Failed)]
    ensures s.tasks[t].status == Pending ==> Story(s.log, t) == []
    ensures s.tasks[t].status in {Pending, Completed, Failed}
  {
    assert TaskInv(g, x, init, s, t);
  }

  // ------------------------------------------------------------------ order of events

  /** Every task is announced only after each dependency that had to be run was reported complete. */
  ghost predicate LogRespectsDeps(g: Graph, init: States, log: seq<Event>) {
    forall i, d :: 0 <= i < |log| && log[i].topic == TaskAssigned && log[i].id in g
      && d in g[log[i].id].deps && d in init && init[d].status != Completed
      ==> Event(TaskCompleted, d, Completed) in log[..i]
  }

  lemma {:induction false} StoryIsInLog(log: seq<Event>, id: Id, e: Event)
    requires e in Story(log, id)
    ensures e in log
  {
    var k := |log| - 1;
    if e in Story(log[..k], id) {
      StoryIsInLog(log[..k], id, e);
    }
  }

  /** When a coroutine runs, the completion of each dependency is already in the log. */
  lemma {:induction false} DepsAreInLog(g: Graph, x: Executor, init: States, s: Sys, t: Id)
    requires Inv(g, x, init, s) && t in s.live
    ensures forall d :: d in g[t].deps && d in init && init[d].status != Completed ==>
            Event(TaskCompleted, d, Completed) in s.log
  {
    assert TaskInv(g, x, init, s, t);
    forall d | d in g[t].deps && d in init && init[d].status != Completed
      ensures Event(TaskCompleted, d, Completed) in s.log
    {
      assert TaskInv(g, x, init, s, d);
      StoryIsInLog(s.log, d, StoryAt(d, Done, Completed)[1]);
    }
  }

  lemma {:induction false} AppendRespectsDeps(g: Graph, init: States, log: seq<Event>, more: seq<Event>, t: Id)
    requires LogRespectsDeps(g, init, log) && t in g
    requires forall e :: e in more ==> e.id == t
    requires forall d :: d in g[t].deps && d in init && init[d].status != Completed ==>
             Event(TaskCompleted, d, Completed) in log
    ensures LogRespectsDeps(g, init, log + more)
  {
    var whole := log + more;
    forall i, d | 0 <= i < |whole| && whole[i].topic == TaskAssigned && whole[i].id in g
      && d in g[whole[i].id].deps && d in init && init[d].status != Completed
      ensures Event(TaskCompleted, d, Completed) in whole[..i]
    {
      if i < |log| {
        assert whole[i] == log[i] && whole[..i] == log[..i];
      } else {
        assert whole[i] == more[i - |log|];
        assert whole[..i] == log + more[..i - |log|];
      }
    }
  }

  lemma {:induction false} NextRespectsDeps(g: Graph, x: Executor, init: States, s: Sys, s': Sys)
    requires Inv(g, x, init, s) && LogRespectsDeps(g, init, s.log) && Next(g, x, s, s')
    ensures LogRespectsDeps(g, init, s'.log)
  {
    if s' != StartWave(g, s) {
      var t :| t in s.live && t in g && t in s.tasks && s' == ResumeTask(g, x, s, t);
      var turn := Resume(x, g[t].maxAttempts, t, s.tasks[t], s.live[t]);
      LiveTurns(g, x, init, s, t);
      DepsAreInLog(g, x, init, s, t);
      AppendRespectsDeps(g, init, s.log, turn.emitted, t);
    }
  }

  /** In every state of every run, dependencies complete before their dependents are announced. */
  lemma {:induction false} RunRespectsDeps(g: Graph, x: Executor, init: States, run: seq<Sys>)
    requires g.Keys == init.Keys && IsRun(g, x, init, run)
    ensures forall i :: 0 <= i < |run| ==> LogRespectsDeps(g, init, run[i].log)
  {
    RunKeepsInv(g, x, init, run);
    var n := 1;
    while n < |run|
      invariant 1 <= n <= |run|
      invariant forall i :: 0 <= i < n ==> LogRespectsDeps(g, init, run[i].log)
    {
      assert Next(g, x, run[n - 1], run[n - 1 + 1]);
      NextRespectsDeps(g, x, init, run[n - 1], run[n]);
      n := n + 1;
    }
  }

  // ------------------------------------------------------------------ reachable states, for code that runs the machine

  ghost predicate Reachable(g: Graph, x: Executor, init: States, s: Sys) {
    exists run :: IsRun(g, x, init, run) && run[|run| - 1] == s
  }

  ghost function Fuel(g: Graph, s: Sys, keys: seq<Id>): int {
    Sum(keys, BudgetIn(g, s))
  }

  lemma {:induction false} InitialIsReachable(g: Graph, x: Executor, init: States)
    ensures Reachable(g, x, init, Initial(init))
  {
    assert IsRun(g, x, init, [Initial(init)]);
  }

  lemma {:induction false} ReachableIsSound(g: Graph, x: Executor, init: States, s: Sys)
    requires g.Keys == init.Keys && Reachable(g, x, init, s)
    ensures Inv(g, x, init, s) && LogRespectsDeps(g, init, s.log)
  {
    var run :| IsRun(g, x, init, run) && run[|run| - 1] == s;
    RunKeepsInv(g, x, init, run);
    RunRespectsDeps(g, x, init, run);
  }

  lemma {:induction false} RunExtends(g: Graph, x: Executor, init: States, run: seq<Sys>, s': Sys)
    requires IsRun(g, x, init, run) && Next(g, x, run[|run| - 1], s')
    ensures IsRun(g, x, init, run + [s'])
  {
    var longer := run + [s'];
    forall i | 0 <= i < |longer| - 1
      ensures Next(g, x, longer[i], longer[i + 1])
    {
      if i < |run| - 1 {
        assert Next(g, x, run[i], run[i + 1]);
      }
    }
  }

  lemma {:induction false} ReachableNext(g: Graph, x: Executor, init: States, s: Sys, s': Sys)
    requires Reachable(g, x, init, s) && Next(g, x, s, s')
    ensures Reachable(g, x, init, s')
  {
    var run :| IsRun(g, x, init, run) && run[|run| - 1] == s;
    RunExtends(g, x, init, run, s');
    var longer := run + [s'];
    assert longer[|longer| - 1] == s';
  }

  lemma {:induction false} NextIsReachable(g: Graph, x: Executor, init: States, s: Sys, s': Sys, keys: seq<Id>)
    requires g.Keys == init.Keys == Elements(keys) && Reachable(g, x, init, s) && Next(g, x, s, s')
    ensures Reachable(g, x, init, s')
    ensures 0 <= Fuel(g, s', keys) < Fuel(g, s, keys)
  {
    ReachableNext(g, x, init, s, s');
    ReachableIsSound(g, x, init, s);
    NextBurnsFuel(g, x, init, s, s', keys);
  }

  lemma {:induction false} NextBurnsFuel(g: Graph, x: Executor, init: States, s: Sys, s': Sys, keys: seq<Id>)
    requires Elements(keys) == g.Keys && Inv(g, x, init, s) && Next(g, x, s, s')
    ensures 0 <= Fuel(g, s', keys) < Fuel(g, s, keys)
  {
    NextSpendsBudget(g, x, init, s, s', keys);
    SumNonNegative(keys, BudgetIn(g, s'));
  }

  /** What a finished run leaves, for a caller that runs one. */
  lemma {:induction false} FinishedIsDataflow(g: Graph, x: Executor, init: States, order: seq<Id>, s: Sys)
    requires g.Keys == init.Keys && Reachable(g, x, init, s) && Finished(g, s) && IsTopological(DepsOf(g), order)
    ensures forall t :: t in order ==> t in g
    ensures s.tasks == Dataflow(g, x, init, order)
  {
    ReachableIsSound(g, x, init, s);
    FinishedIsSettled(g, x, init, s);
    SettledIsDataflow(g, x, init, order, s.tasks);
  }

  /** What resuming a live coroutine does, for a caller that runs one. */
  lemma {:induction false} ResumeIsReachable(g: Graph, x: Executor, init: States, s: Sys, t: Id, keys: seq<Id>)
    requires g.Keys == init.Keys == Elements(keys) && Reachable(g, x, init, s) && t in s.live
    ensures t in g && t in s.tasks && s.live[t] != Done
    ensures
      var turn, s' := Resume(x, g[t].maxAttempts, t, s.tasks[t], s.live[t]), ResumeTask(g, x, s, t);
      && turn.Turn?
      && s'.tasks == s.tasks[t := turn.st]
      && s'.live == (if turn.pc == Done then s.live - {t} else s.live[t := turn.pc])
      && s'.log == s.log + turn.emitted
      && Reachable(g, x, init, s')
      && 0 <= Fuel(g, s', keys) < Fuel(g, s, keys)
  {
    ReachableIsSound(g, x, init, s);
    LiveTurns(g, x, init, s, t);
    assert Next(g, x, s, ResumeTask(g, x, s, t));
    NextIsReachable(g, x, init, s, ResumeTask(g, x, s, t), keys);
  }

  /** What starting a wave does, for a caller that starts one. */
  lemma {:induction false} StartIsReachable(g: Graph, x: Executor, init: States, s: Sys, keys: seq<Id>)
    requires g.Keys == init.Keys == Elements(keys) && Reachable(g, x, init, s)
    requires s.live == map[] && !Finished(g, s)
    ensures
      var s' := StartWave(g, s);
      && s'.tasks == s.tasks && s'.log == s.log
      && Reachable(g, x, init, s')
      && 0 <= Fuel(g, s', keys) < Fuel(g, s, keys)
  {
    ReachableIsSound(g, x, init, s);
    assert Next(g, x, s, StartWave(g, s));
    NextIsReachable(g, x, init, s, StartWave(g, s), keys);
  }
}

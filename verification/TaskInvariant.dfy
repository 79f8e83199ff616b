/**
 What every reachable state of a run keeps, whatever the interleaving: each task
 is untouched, on course, or finished exactly as it would be on its own; no
 transition is refused; and each task's events tell one fixed story.
 */
module TaskInvariant {
  import opened Common
  import opened TaskGraphs
  import opened TaskRuns

  /** All tasks that were ever put in a wave. */
  function Started(waves: seq<set<Id>>): set<Id> {
    if waves == [] then {} else Started(waves[..|waves| - 1]) + waves[|waves| - 1]
  }

  /** The events of one task, in order. */
  function Story(log: seq<Event>, id: Id): seq<Event> {
    if log == [] then []
    else
      var e := log[|log| - 1];
      Story(log[..|log| - 1], id) + (if e.id == id then [e] else [])
  }

  function PcOf(s: Sys, t: Id): Pc {
    if t in s.live then s.live[t] else Done
  }

  ghost predicate DepsCompleted(g: Graph, tasks: States, t: Id)
    requires t in g
  {
    forall d :: d in g[t].deps ==> d in tasks && tasks[d].status == Completed
  }

  ghost predicate TaskInv(g: Graph, x: Executor, init: States, s: Sys, t: Id)
    requires t in g && t in init && t in s.tasks
  {
    if t in Started(s.waves) then
      && init[t].status == Pending
      && DepsCompleted(g, s.tasks, t)
      && StatusAt(PcOf(s, t), s.tasks[t].status)
      && Outlook(x, g[t].maxAttempts, t, s.tasks[t], PcOf(s, t)) == Attempts(x, g[t].maxAttempts, t, init[t])
      && Story(s.log, t) == StoryAt(t, PcOf(s, t), s.tasks[t].status)
    else
      t !in s.live && s.tasks[t] == init[t] && Story(s.log, t) == []
  }

  ghost predicate Inv(g: Graph, x: Executor, init: States, s: Sys) {
    && g.Keys == init.Keys == s.tasks.Keys
    && !s.crashed
    && s.live.Keys <= g.Keys
    && Started(s.waves) <= g.Keys
    && (forall t :: t in s.live ==> s.live[t] != Done)
    && (forall e :: e in s.log ==> e.id in g)
    && (forall t :: t in g ==> TaskInv(g, x, init, s, t))
  }

  lemma {:induction false} StoryLast(log: seq<Event>, e: Event, u: Id)
    ensures Story(log + [e], u) == Story(log, u) + if e.id == u then [e] else []
  {
    assert (log + [e])[..|log|] == log;
  }

  /** Appending events about `id` extends the story of `id` and no other. */
  lemma {:induction false} StoryAppend(log: seq<Event>, more: seq<Event>, id: Id, u: Id)
    requires forall e :: e in more ==> e.id == id
    ensures Story(log + more, u) == if u == id then Story(log, u) + more else Story(log, u)
  {
    if more == [] {
      assert log + more == log;
    } else {
      var front, last := more[..|more| - 1], more[|more| - 1];
      assert more == front + [last];
      StoryAppend(log, front, id, u);
      StoryLast(log + front, last, u);
      Regroup(log, front, [last]);
      Regroup(Story(log, u), front, [last]);
    }
  }

  lemma {:induction false} InitialInv(g: Graph, x: Executor, init: States)
    requires g.Keys == init.Keys
    ensures Inv(g, x, init, Initial(init))
  {
  }

  lemma {:induction false} StartWaveKeepsInv(g: Graph, x: Executor, init: States, s: Sys)
    requires Inv(g, x, init, s) && s.live == map[]
    ensures Inv(g, x, init, StartWave(g, s))
  {
    var s' := StartWave(g, s);
    assert s'.waves[..|s'.waves| - 1] == s.waves;
    forall t | t in g
      ensures TaskInv(g, x, init, s', t)
    {
      assert TaskInv(g, x, init, s, t);
    }
  }

  /** A live coroutine can be resumed, and stays on course. */
  lemma {:induction false} LiveTurns(g: Graph, x: Executor, init: States, s: Sys, t: Id)
    requires Inv(g, x, init, s) && t in s.live
    ensures
      var turn := Resume(x, g[t].maxAttempts, t, s.tasks[t], s.live[t]);
      && turn.Turn? && StatusAt(turn.pc, turn.st.status)
      && Outlook(x, g[t].maxAttempts, t, turn.st, turn.pc) ==
         Outlook(x, g[t].maxAttempts, t, s.tasks[t], s.live[t])
      && StoryAt(t, turn.pc, turn.st.status) == Story(s.log, t) + turn.emitted
      && forall e :: e in turn.emitted ==> e.id == t
  {
    assert TaskInv(g, x, init, s, t);
    ResumeKeepsOutlook(x, g[t].maxAttempts, t, s.tasks[t], s.live[t]);
    ResumeEmitsOwn(x, g[t].maxAttempts, t, s.tasks[t], s.live[t]);
  }

  /** Resuming one coroutine changes its own task as foreseen. */
  lemma {:induction false} ResumeTaskOwn(g: Graph, x: Executor, init: States, s: Sys, t: Id)
    requires Inv(g, x, init, s) && t in s.live
    ensures
      var s', turn := ResumeTask(g, x, s, t), Resume(x, g[t].maxAttempts, t, s.tasks[t], s.live[t]);
      && turn.Turn? && s'.tasks[t] == turn.st && PcOf(s', t) == turn.pc
      && Outlook(x, g[t].maxAttempts, t, s'.tasks[t], PcOf(s', t)) ==
         Outlook(x, g[t].maxAttempts, t, s.tasks[t], PcOf(s, t))
      && StatusAt(PcOf(s', t), s'.tasks[t].status)
      && Story(s'.log, t) == StoryAt(t, PcOf(s', t), s'.tasks[t].status)
  {
    LiveTurns(g, x, init, s, t);
    StoryAppend(s.log, Resume(x, g[t].maxAttempts, t, s.tasks[t], s.live[t]).emitted, t, t);
  }

  /** What resuming one coroutine leaves as it was. */
  lemma {:induction false} ResumeTaskFrame(g: Graph, x: Executor, init: States, s: Sys, t: Id)
    requires Inv(g, x, init, s) && t in s.live
    ensures
      var s' := ResumeTask(g, x, s, t);
      && !s'.crashed && s'.waves == s.waves && s'.tasks.Keys == s.tasks.Keys
      && s'.live.Keys <= s.live.Keys
      && (forall u :: u in s'.live ==> s'.live[u] != Done)
      && (forall e :: e in s'.log ==> e in s.log || e.id == t)
  {
    LiveTurns(g, x, init, s, t);
  }

  lemma {:induction false} ResumeEmitsOwn(x: Executor, max: int, id: Id, st: TaskState, pc: Pc)
    ensures
      var r := Resume(x, max, id, st, pc);
      r.Turn? ==> forall e :: e in r.emitted ==> e.id == id
  {
  }

  /** Resuming one coroutine leaves every other task as it was. */
  lemma {:induction false} ResumeTaskOther(g: Graph, x: Executor, init: States, s: Sys, t: Id, u: Id)
    requires Inv(g, x, init, s) && t in s.live && u in g && u != t
    ensures
      var s' := ResumeTask(g, x, s, t);
      && s'.waves == s.waves && u in s'.tasks && s'.tasks[u] == s.tasks[u]
      && PcOf(s', u) == PcOf(s, u) && (u in s'.live <==> u in s.live)
      && Story(s'.log, u) == Story(s.log, u)
  {
    LiveTurns(g, x, init, s, t);
    StoryAppend(s.log, Resume(x, g[t].maxAttempts, t, s.tasks[t], s.live[t]).emitted, t, u);
  }

  /** A task with a live coroutine is not complete, so no dependency of a started task is lost. */
  lemma {:induction false} ResumeKeepsDeps(g: Graph, x: Executor, init: States, s: Sys, t: Id, u: Id)
    requires Inv(g, x, init, s) && t in s.live && u in g && DepsCompleted(g, s.tasks, u)
    ensures DepsCompleted(g, ResumeTask(g, x, s, t).tasks, u)
  {
    assert TaskInv(g, x, init, s, t);
    ResumeKeepsOutlook(x, g[t].maxAttempts, t, s.tasks[t], s.live[t]);
  }

  lemma {:induction false} ResumeKeepsOwn(g: Graph, x: Executor, init: States, s: Sys, t: Id)
    requires Inv(g, x, init, s) && t in s.live
    ensures t in ResumeTask(g, x, s, t).tasks && TaskInv(g, x, init, ResumeTask(g, x, s, t), t)
  {
    assert TaskInv(g, x, init, s, t);
    ResumeTaskOwn(g, x, init, s, t);
    ResumeTaskFrame(g, x, init, s, t);
    ResumeKeepsDeps(g, x, init, s, t, t);
  }

  lemma {:induction false} ResumeKeepsOther(g: Graph, x: Executor, init: States, s: Sys, t: Id, u: Id)
    requires Inv(g, x, init, s) && t in s.live && u in g && u != t
    ensures u in ResumeTask(g, x, s, t).tasks && TaskInv(g, x, init, ResumeTask(g, x, s, t), u)
  {
    assert TaskInv(g, x, init, s, u);
    ResumeTaskOther(g, x, init, s, t, u);
    if u in Started(s.waves) {
      ResumeKeepsDeps(g, x, init, s, t, u);
    }
  }

  lemma {:induction false} ResumeTaskKeepsInv(g: Graph, x: Executor, init: States, s: Sys, t: Id)
    requires Inv(g, x, init, s) && t in s.live
    ensures Inv(g, x, init, ResumeTask(g, x, s, t))
  {
    ResumeTaskFrame(g, x, init, s, t);
    forall u | u in g
      ensures u in ResumeTask(g, x, s, t).tasks && TaskInv(g, x, init, ResumeTask(g, x, s, t), u)
    {
      if u == t {
        ResumeKeepsOwn(g, x, init, s, t);
      } else {
        ResumeKeepsOther(g, x, init, s, t, u);
      }
    }
  }

  lemma {:induction false} NextKeepsInv(g: Graph, x: Executor, init: States, s: Sys, s': Sys)
    requires Inv(g, x, init, s) && Next(g, x, s, s')
    ensures Inv(g, x, init, s')
  {
    if s.live == map[] && !Finished(g, s) && s' == StartWave(g, s) {
      StartWaveKeepsInv(g, x, init, s);
    } else {
      var t :| t in s.live && t in g && t in s.tasks && s' == ResumeTask(g, x, s, t);
      ResumeTaskKeepsInv(g, x, init, s, t);
    }
  }

  /** Safety over whole runs; in particular no run ever meets a forbidden transition. */
  lemma {:induction false} RunKeepsInv(g: Graph, x: Executor, init: States, run: seq<Sys>)
    requires g.Keys == init.Keys && IsRun(g, x, init, run)
    ensures forall i :: 0 <= i < |run| ==> Inv(g, x, init, run[i]) && !run[i].crashed
  {
    InitialInv(g, x, init);
    var n := 1;
    while n < |run|
      invariant 1 <= n <= |run|
      invariant forall i :: 0 <= i < n ==> Inv(g, x, init, run[i])
    {
      assert Next(g, x, run[n - 1], run[n - 1 + 1]);
      NextKeepsInv(g, x, init, run[n - 1], run[n]);
      n := n + 1;
    }
  }

  // ------------------------------------------------------------------ termination

  function Remaining(max: int, attempts: int): nat {
    if max > attempts then max - attempts else 0
  }

  function AtLeastOne(n: nat): nat {
    if n == 0 then 1 else n
  }

  /** How many more steps a task can cause. */
  function Budget(max: int, st: TaskState, pc: Pc): nat {
    match pc
    case Created => 2 * AtLeastOne(Remaining(max, st.attempts)) + 1
    case Announced => 2 * AtLeastOne(Remaining(max, st.attempts))
    case Executing => 2 * Remaining(max, st.attempts) + 1
    case Sleeping => 2 * AtLeastOne(Remaining(max, st.attempts))
    case Done => if st.status == Pending then 2 * AtLeastOne(Remaining(max, st.attempts)) + 2 else 0
  }

  function BudgetIn(g: Graph, s: Sys): Id -> int {
    t => if t in g && t in s.tasks then Budget(g[t].maxAttempts, s.tasks[t], PcOf(s, t)) else 0
  }

  lemma {:induction false} ResumeSpends(x: Executor, max: int, id: Id, st: TaskState, pc: Pc)
    requires StatusAt(pc, st.status) && pc != Done
    ensures
      var r := Resume(x, max, id, st, pc);
      r.Turn? ==> Budget(max, r.st, r.pc) < Budget(max, st, pc)
  {
  }

  lemma {:induction false} ResumeTaskSpends(g: Graph, x: Executor, init: States, s: Sys, t: Id)
    requires Inv(g, x, init, s) && t in s.live
    ensures
      var b, b' := BudgetIn(g, s), BudgetIn(g, ResumeTask(g, x, s, t));
      b'(t) < b(t) && forall u :: b'(u) <= b(u)
  {
    OwnSpends(g, x, init, s, t);
    var b, b' := BudgetIn(g, s), BudgetIn(g, ResumeTask(g, x, s, t));
    forall u
      ensures b'(u) <= b(u)
    {
      if u in g && u != t {
        ResumeTaskOther(g, x, init, s, t, u);
      }
    }
  }

  lemma {:induction false} OwnSpends(g: Graph, x: Executor, init: States, s: Sys, t: Id)
    requires Inv(g, x, init, s) && t in s.live
    ensures BudgetIn(g, ResumeTask(g, x, s, t))(t) < BudgetIn(g, s)(t)
  {
    assert TaskInv(g, x, init, s, t);
    ResumeSpends(x, g[t].maxAttempts, t, s.tasks[t], s.live[t]);
    ResumeTaskOwn(g, x, init, s, t);
  }

  lemma {:induction false} StartWaveSpends(g: Graph, x: Executor, init: States, s: Sys, t: Id)
    requires Inv(g, x, init, s) && s.live == map[] && t in Ready(g, s.tasks)
    ensures
      var b, b' := BudgetIn(g, s), BudgetIn(g, StartWave(g, s));
      b'(t) < b(t) && forall u :: b'(u) <= b(u)
  {
  }

  lemma {:induction false} NextSpendsBudget(g: Graph, x: Executor, init: States, s: Sys, s': Sys, keys: seq<Id>)
    requires Inv(g, x, init, s) && Next(g, x, s, s') && Elements(keys) == g.Keys
    ensures Sum(keys, BudgetIn(g, s')) < Sum(keys, BudgetIn(g, s))
  {
    var t: Id;
    if s.live == map[] && !Finished(g, s) && s' == StartWave(g, s) {
      t :| t in Ready(g, s.tasks);
      StartWaveSpends(g, x, init, s, t);
    } else {
      t :| t in s.live && t in g && t in s.tasks && s' == ResumeTask(g, x, s, t);
      ResumeTaskSpends(g, x, init, s, t);
    }
    assert t in Elements(keys);
    SumMonotone(keys, BudgetIn(g, s'), BudgetIn(g, s));
  }

  /** No run is longer than the retry budget of its graph allows; so every run ends. */
  lemma {:induction false} RunsEnd(g: Graph, x: Executor, init: States, run: seq<Sys>, keys: seq<Id>)
    requires g.Keys == init.Keys && IsRun(g, x, init, run) && Elements(keys) == g.Keys
    ensures |run| - 1 <= Sum(keys, BudgetIn(g, Initial(init)))
  {
    RunKeepsInv(g, x, init, run);
    var n := 0;
    while n < |run| - 1
      invariant 0 <= n <= |run| - 1
      invariant Sum(keys, BudgetIn(g, run[n])) + n <= Sum(keys, BudgetIn(g, Initial(init)))
    {
      assert Next(g, x, run[n], run[n + 1]);
      NextSpendsBudget(g, x, init, run[n], run[n + 1], keys);
      n := n + 1;
    }
    SumNonNegative(keys, BudgetIn(g, run[n]));
  }

  /** A run that has not finished can always go on. */
  lemma {:induction false} Progress(g: Graph, x: Executor, init: States, s: Sys)
    requires Inv(g, x, init, s)
    ensures Finished(g, s) <==> !exists s' :: Next(g, x, s, s')
  {
    if s.live != map[] {
      var t :| t in s.live;
      assert Next(g, x, s, ResumeTask(g, x, s, t));
    } else if !Finished(g, s) {
      assert Next(g, x, s, StartWave(g, s));
    }
  }
}

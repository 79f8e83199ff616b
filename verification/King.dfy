/** The king: plans an objective, runs the plan through the generals, and merges what came out. */
module King {
  import opened Common
  import opened TaskGraphs
  import opened TaskRuns
  import opened TaskInvariant
  import opened TaskMeaning
  import opened TaskManagement
  import opened TaskLedger
  import opened ClauseCuts
  import opened Planning
  import opened PlanGraphs
  import opened Aggregators
  import opened Texts

  // ------------------------------------------------------------------ dispatch to a general

  /** What a request to a general comes back with. */
  datatype Reply =
    | NotRunning  // a KeyError, as when there is no handler under the general's name
    | Threw(message: string)
    | Replied(status: string, result: Value, error: Option<string>)

  function DispatchOutcome(owner: string, reply: Reply): Outcome {
    match reply
    case NotRunning => Raises("general " + Quoted(owner) + " not running")
    case Threw(message) => Raises(message)
    case Replied(status, result, error) =>
      if status == "completed" then Returns(result)
      else Raises(match error case Some(e) => (if e == "" then "general failed" else e) case None => "general failed")
  }

  /** What the generals reply to a step at an attempt. */
  type Replies = (Id, int) -> Reply

  /** The executor of a request: dispatches a task to the general that owns it. */
  function DispatchExecutor(owners: map<Id, string>, replies: Replies): Executor {
    (id: Id, n: int) => DispatchOutcome(if id in owners then owners[id] else "", replies(id, n))
  }

  /** The generals of a plan's tasks. */
  function Owners(plan: seq<PlanStep>, ids: seq<Id>): map<Id, string>
    requires |ids| == |plan|
  {
    map t | t in ids :: plan[IndexOf(ids, t)].general
  }

  /** The general of a step replied that it completed it, at one of the attempts. */
  ghost predicate Delivered(replies: Replies, t: Id) {
    exists k :: 1 <= k <= DEFAULT_MAX_ATTEMPTS && replies(t, k).Replied? && replies(t, k).status == "completed"
  }

  /** An attempt returns exactly when the general replied with a completion. */
  lemma {:induction false} SucceedsExactlyWhenDelivered(owners: map<Id, string>, replies: Replies, t: Id)
    ensures StepSucceeds(DispatchExecutor(owners, replies), t) <==> Delivered(replies, t)
  {
    var x := DispatchExecutor(owners, replies);
    forall k
      ensures x(t, k).Returns? <==> replies(t, k).Replied? && replies(t, k).status == "completed"
    {
    }
  }

  // ------------------------------------------------------------------ execute

  /** Grows the task graph of a plan step by step. */
  method BuildGraph(plan: seq<PlanStep>, uuid: nat -> Id) returns (graph: TaskGraph, ghost ids: seq<Id>)
    requires forall i: nat, j: nat :: i < j ==> uuid(i) != uuid(j)
    requires forall i :: 0 <= i < |plan| ==> forall j :: j in plan[i].dependsOn ==> 0 <= j < i
    ensures Distinct(ids) && fresh(graph) && fresh(graph.tasks.Values)
    ensures graph.Valid() && graph.keys == ids && |ids| == |plan|
    ensures graph.Shape() == PlanGraph(plan, ids) && graph.Snapshot() == PlanStart(ids)
    ensures forall i :: 0 <= i < |plan| ==> ids[i] in graph.tasks && StepTask(graph.tasks[ids[i]], plan[i], ids, i)
    ensures forall i :: 0 <= i < |plan| ==> ids[i] in graph.tasks && graph.tasks[ids[i]].maxAttempts == 3
  {
    graph := new TaskGraph();
    var stepTasks: seq<Task> := [];
    ids := TaskIds(|plan|, uuid);
    for k := 0 to |plan|
      invariant fresh(graph) && fresh(graph.tasks.Values)
      invariant GraphSoFar(graph, stepTasks, plan, ids, k)
    {
      stepTasks := AddStep(graph, stepTasks, plan, uuid(k), ids, k);
    }
    assert ids[..|plan|] == ids;
    GraphOfSteps(graph, stepTasks, plan, ids);
  }

  /** The graph once the first `k` steps have become tasks. */
  ghost predicate GraphSoFar(graph: TaskGraph, stepTasks: seq<Task>, plan: seq<PlanStep>, ids: seq<Id>, k: nat)
    requires k <= |plan| == |ids|
    reads graph, stepTasks
  {
    && graph.Valid() && graph.keys == ids[..k] && |stepTasks| == k
    && (forall i :: 0 <= i < k ==> StepTask(stepTasks[i], plan[i], ids, i))
    && (forall i :: 0 <= i < k ==> ids[i] in graph.tasks && graph.tasks[ids[i]] == stepTasks[i])
  }

  method AddStep(graph: TaskGraph, stepTasks: seq<Task>, plan: seq<PlanStep>, id: Id, ghost ids: seq<Id>, ghost k: nat)
    returns (more: seq<Task>)
    requires k < |plan| == |ids| && Distinct(ids) && ids[k] == id
    requires GraphSoFar(graph, stepTasks, plan, ids, k)
    requires forall j :: j in plan[k].dependsOn ==> 0 <= j < k
    modifies graph
    ensures GraphSoFar(graph, more, plan, ids, k + 1)
    ensures fresh(graph.tasks.Values - old(graph.tasks.Values))
  {
    TakeNext(ids, k);
    var task := MakeTask(stepTasks, plan, id, ids, k);
    assert id !in Elements(graph.keys);
    graph.Add(task);
    more := stepTasks + [task];
    StepsSoFar(old(graph.tasks), graph.tasks, stepTasks, task, plan, ids, k);
  }

  lemma {:induction false} StepsSoFar(before: map<Id, Task>, now: map<Id, Task>, stepTasks: seq<Task>, task: Task,
                                      plan: seq<PlanStep>, ids: seq<Id>, k: nat)
    requires |stepTasks| == k < |plan| == |ids| && Distinct(ids)
    requires now == before[ids[k] := task] && StepTask(task, plan[k], ids, k)
    requires forall i :: 0 <= i < k ==> StepTask(stepTasks[i], plan[i], ids, i)
    requires forall i :: 0 <= i < k ==> ids[i] in before && before[ids[i]] == stepTasks[i]
    ensures
      var more := stepTasks + [task];
      && (forall i :: 0 <= i < k + 1 ==> StepTask(more[i], plan[i], ids, i))
      && (forall i :: 0 <= i < k + 1 ==> ids[i] in now && now[ids[i]] == more[i])
  {
  }

  method MakeTask(stepTasks: seq<Task>, plan: seq<PlanStep>, id: Id, ghost ids: seq<Id>, ghost k: nat)
    returns (task: Task)
    requires |stepTasks| == k < |plan| == |ids| && ids[k] == id
    requires forall i :: 0 <= i < k ==> stepTasks[i].id == ids[i]
    requires forall j :: j in plan[k].dependsOn ==> 0 <= j < k
    ensures fresh(task) && StepTask(task, plan[k], ids, k)
  {
    StepDeps(stepTasks, plan, ids, k);
    var step := plan[|stepTasks|];
    var deps := set j | j in step.dependsOn :: stepTasks[j].id;
    task := new Task(id, step.objective, step.general, deps, DEFAULT_MAX_ATTEMPTS);
  }

  lemma {:induction false} StepDeps(stepTasks: seq<Task>, plan: seq<PlanStep>, ids: seq<Id>, k: nat)
    requires |stepTasks| == k < |plan| == |ids|
    requires forall j :: j in plan[k].dependsOn ==> 0 <= j < k
    requires forall j :: 0 <= j < k ==> stepTasks[j].id == ids[j]
    ensures (set j | j in plan[k].dependsOn :: stepTasks[j].id) == DepIds(plan[k].dependsOn, ids)
  {
  }

  /** The task is for the general and the objective of the step. */
  predicate IsFor(task: Task, step: PlanStep)
    reads task
  {
    task.owner == step.general && task.objective == step.objective
  }

  /** Task `task` is the one made for step `i` of the plan. */
  predicate StepTask(task: Task, step: PlanStep, ids: seq<Id>, i: nat)
    requires i < |ids|
    reads task
  {
    && task.id == ids[i] && IsFor(task, step)
    && task.Shape() == Node(DepIds(step.dependsOn, ids), DEFAULT_MAX_ATTEMPTS)
    && task.State() == TaskState(Pending, 0, None, None)
  }

  lemma {:induction false} GraphOfSteps(graph: TaskGraph, stepTasks: seq<Task>, plan: seq<PlanStep>, ids: seq<Id>)
    requires graph.Valid() && graph.keys == ids && |ids| == |plan| == |stepTasks|
    requires forall i :: 0 <= i < |plan| ==> StepTask(stepTasks[i], plan[i], ids, i)
    requires forall i :: 0 <= i < |plan| ==> ids[i] in graph.tasks && graph.tasks[ids[i]] == stepTasks[i]
    ensures graph.Shape() == PlanGraph(plan, ids) && graph.Snapshot() == PlanStart(ids)
  {
    assert forall t :: t in graph.tasks ==> t in Elements(ids);
    forall t | t in graph.tasks
      ensures graph.tasks[t].Shape() == PlanGraph(plan, ids)[t] && graph.tasks[t].State() == PlanStart(ids)[t]
    {
      var i := IndexOf(ids, t);
      assert StepTask(stepTasks[i], plan[i], ids, i);
    }
  }

  function TaskIds(n: nat, uuid: nat -> Id): seq<Id> {
    seq(n, i requires 0 <= i < n => uuid(i))
  }

  /** The counts of a report against the ledger of the run it reports on. */
  ghost predicate ReportBalances(r: Report, s: Sys) {
    && r.total == r.completed + r.failed
    && r.completed == CountTopic(s.log, TaskCompleted)
    && CountTopic(s.log, TaskAssigned) == CountTopic(s.log, TaskCompleted) + CountTopic(s.log, TaskDeadLetter)
    && r.failed == CountTopic(s.log, TaskDeadLetter) + |WithStatus(s.tasks, Pending)|
  }

  /** How step `i` ends up when `f` is the first group with a step that no general completes. */
  ghost predicate StepEnds(flat: seq<Clause>, ids: seq<Id>, replies: Replies, s: Sys, f: nat, i: int)
    requires |ids| == |flat| && 0 <= i < |ids|
  {
    && ids[i] in s.tasks
    && (flat[i].level < f ==> s.tasks[ids[i]].status == Completed)
    && (flat[i].level == f ==> s.tasks[ids[i]].status == if Delivered(replies, ids[i]) then Completed else Failed)
    && (flat[i].level > f ==> s.tasks[ids[i]] == TaskState(Pending, 0, None, None) && Story(s.log, ids[i]) == [])
  }

  /** `f` is the first group with a step that no general completes, or the number of groups. */
  ghost predicate FirstUndelivered(replies: Replies, ids: seq<Id>, flat: seq<Clause>, n: nat, f: nat)
    requires |ids| == |flat|
  {
    && f <= n
    && (forall i :: 0 <= i < |flat| && flat[i].level < f ==> Delivered(replies, ids[i]))
    && (f < n ==> exists i :: 0 <= i < |flat| && flat[i].level == f && !Delivered(replies, ids[i]))
  }

  /** Whatever the generals reply there is such a group, and it decides the fate of every step of a finished run. */
  lemma {:induction false} RepliesDecide(plan: seq<PlanStep>, flat: seq<Clause>, n: nat, route: string -> string,
                                         ids: seq<Id>, replies: Replies, s: Sys) returns (f: nat)
    requires Distinct(ids) && |ids| == |plan| && IsPlan(plan, flat, route) && Contiguous(flat, n)
    requires Reachable(PlanGraph(plan, ids), DispatchExecutor(Owners(plan, ids), replies), PlanStart(ids), s)
    requires Finished(PlanGraph(plan, ids), s)
    ensures FirstUndelivered(replies, ids, flat, n, f)
    ensures forall i :: 0 <= i < |ids| ==> StepEnds(flat, ids, replies, s, f, i)
  {
    var x := DispatchExecutor(Owners(plan, ids), replies);
    forall t
      ensures StepSucceeds(x, t) <==> Delivered(replies, t)
    {
      SucceedsExactlyWhenDelivered(Owners(plan, ids), replies, t);
    }
    f := FirstFailingGroupExists(x, ids, flat, n, 0);
    PlanRunsInGroups(plan, flat, n, route, ids, x, s, f);
    forall i | 0 <= i < |ids|
      ensures StepEnds(flat, ids, replies, s, f, i)
    {
      assert PlanStepFate(flat, ids, x, s, f, i);
    }
  }

  /** What a request came to: its plan, the ids of its tasks, the state its run ended in. */
  datatype Request = Request(plan: seq<PlanStep>, ids: seq<Id>, end: Sys)

  /** A finished run of the graph of a plan for the objective, by dispatch to the generals. */
  ghost predicate RanThrough(q: Request, objective: string, sp: Splitter, rt: Router, replies: Replies) {
    && IsPlan(q.plan, PlanClauses(sp, objective), PlanRoute(sp, objective, Routing(rt), rt.fallback))
    && Distinct(q.ids) && |q.ids| == |q.plan|
    && Reachable(PlanGraph(q.plan, q.ids), DispatchExecutor(Owners(q.plan, q.ids), replies), PlanStart(q.ids), q.end)
    && Finished(PlanGraph(q.plan, q.ids), q.end)
  }

  /** The line of a step whose task ended in a state. */
  function LineFor(step: PlanStep, st: TaskState): Line {
    Line(step.general, step.objective, st.status, st.attempts, if st.status == Completed then st.result else None,
         st.error)
  }

  /** The results of the tasks in creation order. */
  function ResultsIn(ids: seq<Id>, m: States): seq<Option<Value>> {
    seq(|ids|, i requires 0 <= i < |ids| => if ids[i] in m then m[ids[i]].result else None)
  }

  /** The report lists the steps of the plan as their tasks ended; its summary and its action are of their results. */
  ghost predicate ReportsOn(r: Report, q: Request, objective: string, reader: Reader)
    requires |q.ids| == |q.plan|
  {
    && r.objective == objective && r.total == |q.plan| == |r.breakdown|
    && (forall i :: 0 <= i < |q.plan| ==>
         q.ids[i] in q.end.tasks && r.breakdown[i] == LineFor(q.plan[i], q.end.tasks[q.ids[i]]))
    && OpensFirst(ResultsIn(q.ids, q.end.tasks), reader, r.action)
    && r.summary ==
       Summary(objective, Answers(ResultsIn(q.ids, q.end.tasks), reader), r.breakdown, r.completed, r.failed)
  }

  // ------------------------------------------------------------------ the report, from the replies alone

  /** The general replies that it completed the step. */
  predicate Completes(replies: Replies, t: Id, k: int) {
    replies(t, k).Replied? && replies(t, k).status == "completed"
  }

  /** At one of the three attempts a step has. */
  predicate CompletesInThree(replies: Replies, t: Id) {
    Completes(replies, t, 1) || Completes(replies, t, 2) || Completes(replies, t, 3)
  }

  /** The error of an attempt that failed. */
  function Complaint(general: string, reply: Reply): string {
    match reply
    case NotRunning => "general '" + general + "' not running"
    case Threw(message) => message
    case Replied(_, _, Some(e)) => if e != "" then e else "general failed"
    case Replied(_, _, None) => "general failed"
  }

  /** What becomes of a step that is reached: the first completion in three attempts, or the last failure. */
  function EndOf(general: string, replies: Replies, t: Id): TaskState {
    if Completes(replies, t, 1) then TaskState(Completed, 1, Some(replies(t, 1).result), None)
    else if Completes(replies, t, 2) then
      TaskState(Completed, 2, Some(replies(t, 2).result), Some(Complaint(general, replies(t, 1))))
    else if Completes(replies, t, 3) then
      TaskState(Completed, 3, Some(replies(t, 3).result), Some(Complaint(general, replies(t, 2))))
    else TaskState(Failed, 3, None, Some(Complaint(general, replies(t, 3))))
  }

  /** All steps of the groups before that of step `i` complete. */
  ghost predicate IsReached(flat: seq<Clause>, ids: seq<Id>, replies: Replies, i: int)
    requires |ids| == |flat| && 0 <= i < |flat|
  {
    forall j :: 0 <= j < |flat| && flat[j].level < flat[i].level ==> CompletesInThree(replies, ids[j])
  }

  lemma {:induction false} DeliveredInThree(replies: Replies, t: Id)
    ensures Delivered(replies, t) <==> CompletesInThree(replies, t)
  {
    if Delivered(replies, t) {
      var k :| 1 <= k <= DEFAULT_MAX_ATTEMPTS && replies(t, k).Replied? && replies(t, k).status == "completed";
      assert k == 1 || k == 2 || k == 3;
    }
    if CompletesInThree(replies, t) {
      var k := if Completes(replies, t, 1) then 1 else if Completes(replies, t, 2) then 2 else 3;
      assert replies(t, k).Replied? && replies(t, k).status == "completed";
    }
  }

  lemma {:induction false} ComplaintIs(owners: map<Id, string>, replies: Replies, t: Id, k: int)
    requires t in owners
    ensures
      var out := DispatchExecutor(owners, replies)(t, k);
      if Completes(replies, t, k) then out == Returns(replies(t, k).result)
      else out == Raises(Complaint(owners[t], replies(t, k)))
  {
    assert "general " + ("'" + owners[t] + "'") == "general '" + owners[t] + "'";
  }

  lemma {:induction false} ThreeAttempts(owners: map<Id, string>, replies: Replies, t: Id)
    requires t in owners
    ensures Attempts(DispatchExecutor(owners, replies), 3, t, TaskState(Pending, 0, None, None)) ==
            EndOf(owners[t], replies, t)
  {
    var x, p := DispatchExecutor(owners, replies), Complaint(owners[t], replies(t, 1));
    ComplaintIs(owners, replies, t, 1);
    ComplaintIs(owners, replies, t, 2);
    ComplaintIs(owners, replies, t, 3);
    if !Completes(replies, t, 1) {
      var first := TaskState(Failed, 1, None, Some(p));
      assert Attempts(x, 3, t, TaskState(Pending, 0, None, None)) == Attempts(x, 3, t, first);
      if !Completes(replies, t, 2) {
        assert Attempts(x, 3, t, first) ==
               Attempts(x, 3, t, TaskState(Failed, 2, None, Some(Complaint(owners[t], replies(t, 2)))));
      }
    }
  }

  /**
   How a request ends, from the replies alone.  A step is reached if every step of the
   groups before its own is completed by its general at attempt 1, 2 or 3.  A step that
   is reached is completed by its first completion, with that attempt's result, or fails
   after exactly three attempts with the error of the third; one that is not is pending.
   */
  lemma {:induction false} RepliesTell(q: Request, objective: string, sp: Splitter, rt: Router, replies: Replies,
                                       i: nat)
    requires RanThrough(q, objective, sp, rt, replies) && i < |q.ids|
    ensures q.ids[i] in q.end.tasks
    ensures q.end.tasks[q.ids[i]] ==
            if IsReached(PlanClauses(sp, objective), q.ids, replies, i) then EndOf(q.plan[i].general, replies, q.ids[i])
            else TaskState(Pending, 0, None, None)
  {
    var flat, n := PlanClauses(sp, objective), PlanDepth(sp, objective);
    var route := PlanRoute(sp, objective, Routing(rt), rt.fallback);
    PlanIsContiguous(sp, objective);
    var f := RepliesDecide(q.plan, flat, n, route, q.ids, replies, q.end);
    assert StepEnds(flat, q.ids, replies, q.end, f, i);
    ReachedUpTo(flat, q.ids, replies, n, f, i);
    if flat[i].level <= f {
      ReachedEnds(q, replies, i);
    }
  }

  lemma {:induction false} ReachedUpTo(flat: seq<Clause>, ids: seq<Id>, replies: Replies, n: nat, f: nat, i: nat)
    requires |ids| == |flat| && i < |flat| && flat[i].level < n && FirstUndelivered(replies, ids, flat, n, f)
    ensures IsReached(flat, ids, replies, i) <==> flat[i].level <= f
  {
    forall j | 0 <= j < |flat|
      ensures Delivered(replies, ids[j]) <==> CompletesInThree(replies, ids[j])
    {
      DeliveredInThree(replies, ids[j]);
    }
    if f < n {
      var j :| 0 <= j < |flat| && flat[j].level == f && !Delivered(replies, ids[j]);
    }
  }

  lemma {:induction false} ReachedEnds(q: Request, replies: Replies, i: nat)
    requires Distinct(q.ids) && |q.ids| == |q.plan| && i < |q.ids|
    requires Reachable(PlanGraph(q.plan, q.ids), DispatchExecutor(Owners(q.plan, q.ids), replies), PlanStart(q.ids),
                       q.end)
    requires Finished(PlanGraph(q.plan, q.ids), q.end)
    requires q.ids[i] in q.end.tasks && q.end.tasks[q.ids[i]].status != Pending
    ensures q.end.tasks[q.ids[i]] == EndOf(q.plan[i].general, replies, q.ids[i])
  {
    var g, x, t := PlanGraph(q.plan, q.ids), DispatchExecutor(Owners(q.plan, q.ids), replies), q.ids[i];
    ReachableIsSound(g, x, PlanStart(q.ids), q.end);
    FinishedIsSettled(g, x, PlanStart(q.ids), q.end);
    assert t in g && IndexOf(q.ids, t) == i;
    assert q.end.tasks[t] == Fate(g, x, PlanStart(q.ids), q.end.tasks, t);
    ThreeAttempts(Owners(q.plan, q.ids), replies, t);
  }

  /** The line of a step in the report, from the replies alone. */
  ghost predicate LineTells(line: Line, q: Request, flat: seq<Clause>, replies: Replies, i: int)
    requires |q.ids| == |q.plan| == |flat| && 0 <= i < |flat|
  {
    var step, t := q.plan[i], q.ids[i];
    && line.general == step.general && line.objective == flat[i].text
    && (if !IsReached(flat, q.ids, replies, i) then
          line.status == Pending && line.attempts == 0 && line.result == None && line.error == None
        else
          && (line.status == Completed <==> CompletesInThree(replies, t))
          && (line.status != Completed ==>
              && line.status == Failed && line.attempts == 3 && line.result == None
              && line.error == Some(Complaint(step.general, replies(t, 3))))
          && (line.status == Completed ==>
              && 1 <= line.attempts <= 3 && Completes(replies, t, line.attempts)
              && line.result == Some(replies(t, line.attempts).result)
              && (forall k :: 1 <= k < line.attempts ==> !Completes(replies, t, k))
              && line.error ==
                 if line.attempts == 1 then None else Some(Complaint(step.general, replies(t, line.attempts - 1)))))
  }

  lemma {:induction false} ReportTells(r: Report, q: Request, objective: string, sp: Splitter, rt: Router,
                                       replies: Replies, reader: Reader)
    requires RanThrough(q, objective, sp, rt, replies) && ReportsOn(r, q, objective, reader)
    ensures forall i :: 0 <= i < |q.ids| ==> LineTells(r.breakdown[i], q, PlanClauses(sp, objective), replies, i)
  {
    forall i | 0 <= i < |q.ids|
      ensures LineTells(r.breakdown[i], q, PlanClauses(sp, objective), replies, i)
    {
      LineIsTold(r.breakdown[i], q, objective, sp, rt, replies, i);
    }
  }

  lemma {:induction false} LineIsTold(line: Line, q: Request, objective: string, sp: Splitter, rt: Router,
                                      replies: Replies, i: nat)
    requires RanThrough(q, objective, sp, rt, replies) && i < |q.ids|
    requires q.ids[i] in q.end.tasks ==> line == LineFor(q.plan[i], q.end.tasks[q.ids[i]])
    ensures LineTells(line, q, PlanClauses(sp, objective), replies, i)
  {
    RepliesTell(q, objective, sp, rt, replies, i);
    ClauseOfStep(q.plan, PlanClauses(sp, objective), PlanRoute(sp, objective, Routing(rt), rt.fallback), i);
    LineOfEnd(line, q, PlanClauses(sp, objective), replies, i, q.end.tasks[q.ids[i]]);
  }

  lemma {:induction false} ClauseOfStep(plan: seq<PlanStep>, flat: seq<Clause>, route: string -> string, i: nat)
    requires IsPlan(plan, flat, route) && i < |flat|
    ensures plan[i].objective == flat[i].text
  {
    assert plan[i] == StepFor(flat, flat[i], route);
  }

  lemma {:induction false} LineOfEnd(line: Line, q: Request, flat: seq<Clause>, replies: Replies, i: nat, st: TaskState)
    requires |q.ids| == |q.plan| == |flat| && i < |flat| && q.plan[i].objective == flat[i].text
    requires line == LineFor(q.plan[i], st)
    requires st == if IsReached(flat, q.ids, replies, i) then EndOf(q.plan[i].general, replies, q.ids[i])
                   else TaskState(Pending, 0, None, None)
    ensures LineTells(line, q, flat, replies, i)
  {
  }

  /**
   Plans the objective, turns the plan into a task graph, runs it and merges the
   outcome.  The graph is always accepted, the run is a finished run of the plan's
   graph, the report balances with the events emitted, and the first group with a step
   that no general completes decides how every step ends.
   */
  method PlanAndRun(objective: string, sp: Splitter, rt: Router, uuid: nat -> Id, replies: Replies, reader: Reader,
                    tm: TaskManager)
    returns (r: Report, ghost q: Request, ghost f: nat)
    requires forall i: nat, j: nat :: i < j ==> uuid(i) != uuid(j)
    modifies tm
    ensures RanThrough(q, objective, sp, rt, replies)
    ensures tm.log == old(tm.log) + q.end.log
    ensures ReportBalances(r, q.end) && ReportsOn(r, q, objective, reader)
    ensures FirstUndelivered(replies, q.ids, PlanClauses(sp, objective), PlanDepth(sp, objective), f)
    ensures forall i :: 0 <= i < |q.ids| ==> StepEnds(PlanClauses(sp, objective), q.ids, replies, q.end, f, i)
    ensures forall i :: 0 <= i < |q.ids| ==> LineTells(r.breakdown[i], q, PlanClauses(sp, objective), replies, i)
  {
    ghost var flat, n := PlanClauses(sp, objective), PlanDepth(sp, objective);
    ghost var route := PlanRoute(sp, objective, Routing(rt), rt.fallback);
    PlanIsContiguous(sp, objective);
    var plan := Plan(sp, objective, rt);
    DepsAreEarlier(plan, flat, n, route);
    r, q := ExecutePlan(objective, plan, uuid, replies, reader, tm, flat, n, route);
    f := RepliesDecide(plan, flat, n, route, q.ids, replies, q.end);
    ReportTells(r, q, objective, sp, rt, replies, reader);
  }

  method ExecutePlan(objective: string, plan: seq<PlanStep>, uuid: nat -> Id, replies: Replies, reader: Reader,
                     tm: TaskManager, ghost flat: seq<Clause>, ghost n: nat, ghost route: string -> string)
    returns (r: Report, ghost q: Request)
    requires forall i: nat, j: nat :: i < j ==> uuid(i) != uuid(j)
    requires forall i :: 0 <= i < |plan| ==> forall j :: j in plan[i].dependsOn ==> 0 <= j < i
    requires IsPlan(plan, flat, route) && Contiguous(flat, n)
    modifies tm
    ensures q.plan == plan && Distinct(q.ids) && |q.ids| == |plan|
    ensures Reachable(PlanGraph(plan, q.ids), DispatchExecutor(Owners(plan, q.ids), replies), PlanStart(q.ids), q.end)
    ensures Finished(PlanGraph(plan, q.ids), q.end)
    ensures tm.log == old(tm.log) + q.end.log
    ensures ReportBalances(r, q.end) && ReportsOn(r, q, objective, reader)
  {
    var graph, x;
    ghost var ids, s;
    graph, x, ids := Prepare(plan, uuid, replies, flat, n, route);
    r, s := RunAndReport(objective, graph, x, reader, tm, plan, ids);
    q := Request(plan, ids, s);
  }

  /** The graph of a plan, accepted by the validation, and the executor that dispatches its tasks. */
  method Prepare(plan: seq<PlanStep>, uuid: nat -> Id, replies: Replies, ghost flat: seq<Clause>, ghost n: nat,
                 ghost route: string -> string)
    returns (graph: TaskGraph, x: Executor, ghost ids: seq<Id>)
    requires forall i: nat, j: nat :: i < j ==> uuid(i) != uuid(j)
    requires forall i :: 0 <= i < |plan| ==> forall j :: j in plan[i].dependsOn ==> 0 <= j < i
    requires IsPlan(plan, flat, route) && Contiguous(flat, n)
    ensures fresh(graph) && fresh(graph.tasks.Values)
    ensures Distinct(ids) && |ids| == |plan| && graph.Valid() && graph.keys == ids
    ensures graph.Shape() == PlanGraph(plan, ids) && graph.Snapshot() == PlanStart(ids)
    ensures Closed(DepsOf(PlanGraph(plan, ids))) && !Cyclic(DepsOf(PlanGraph(plan, ids)))
    ensures forall i :: 0 <= i < |plan| ==> ids[i] in graph.tasks && IsFor(graph.tasks[ids[i]], plan[i])
    ensures x == DispatchExecutor(Owners(plan, ids), replies)
  {
    graph, ids := BuildGraph(plan, uuid);
    assert forall i :: 0 <= i < |plan| ==> ids[i] in graph.tasks && IsFor(graph.tasks[ids[i]], plan[i]);
    OwnersOfPlan(graph, plan, ids);
    x := DispatchExecutor(map t | t in graph.tasks :: graph.tasks[t].owner, replies);
    PlanIsAcyclic(plan, flat, n, route, ids);
  }

  method RunAndReport(objective: string, graph: TaskGraph, x: Executor, reader: Reader, tm: TaskManager,
                      ghost plan: seq<PlanStep>, ghost ids: seq<Id>)
    returns (r: Report, ghost s: Sys)
    requires Distinct(ids) && |ids| == |plan| && graph.Valid() && graph.keys == ids
    requires graph.Shape() == PlanGraph(plan, ids) && graph.Snapshot() == PlanStart(ids)
    requires Closed(DepsOf(PlanGraph(plan, ids))) && !Cyclic(DepsOf(PlanGraph(plan, ids)))
    requires forall i :: 0 <= i < |plan| ==> ids[i] in graph.tasks && IsFor(graph.tasks[ids[i]], plan[i])
    modifies tm, graph.tasks.Values
    ensures Reachable(PlanGraph(plan, ids), x, PlanStart(ids), s) && Finished(PlanGraph(plan, ids), s)
    ensures tm.log == old(tm.log) + s.log
    ensures ReportBalances(r, s) && ReportsOn(r, Request(plan, ids, s), objective, reader)
  {
    s := RunAccepted(graph, x, tm, PlanGraph(plan, ids), PlanStart(ids));
    r := ReportOn(objective, graph, reader, s.tasks, plan);
    ReportIsBalanced(r, plan, ids, x, s);
  }

  lemma {:induction false} OwnersOfPlan(graph: TaskGraph, plan: seq<PlanStep>, ids: seq<Id>)
    requires graph.Valid() && graph.keys == ids && |ids| == |plan|
    requires forall i :: 0 <= i < |plan| ==> ids[i] in graph.tasks && IsFor(graph.tasks[ids[i]], plan[i])
    ensures (map t | t in graph.tasks :: graph.tasks[t].owner) == Owners(plan, ids)
  {
    assert forall t :: t in ids <==> t in Elements(graph.keys);
  }

  /** The report in terms of the plan and the states `m` the run left. */
  method ReportOn(objective: string, graph: TaskGraph, reader: Reader, ghost m: States, ghost plan: seq<PlanStep>)
    returns (r: Report)
    requires graph.Valid() && graph.Snapshot() == m && |graph.keys| == |plan|
    requires forall i :: 0 <= i < |plan| ==>
               graph.keys[i] in graph.tasks && IsFor(graph.tasks[graph.keys[i]], plan[i])
    ensures r.objective == objective && r.total == |plan| == |r.breakdown| == r.completed + r.failed
    ensures r.completed == |WithStatus(m, Completed)|
    ensures forall i :: 0 <= i < |plan| ==>
              graph.keys[i] in m && r.breakdown[i] == LineFor(plan[i], m[graph.keys[i]])
    ensures OpensFirst(ResultsIn(graph.keys, m), reader, r.action)
    ensures r.summary ==
            Summary(objective, Answers(ResultsIn(graph.keys, m), reader), r.breakdown, r.completed, r.failed)
  {
    ghost var results;
    r, results := Merge(objective, graph, reader);
    ResultsOfGraph(graph, results);
    LinesOfGraph(graph, r.breakdown, plan);
  }

  lemma {:induction false} LinesOfGraph(graph: TaskGraph, lines: seq<Line>, plan: seq<PlanStep>)
    requires |graph.keys| == |plan| == |lines|
    requires forall i :: 0 <= i < |plan| ==>
               graph.keys[i] in graph.tasks && IsFor(graph.tasks[graph.keys[i]], plan[i])
    requires forall i :: 0 <= i < |plan| ==> lines[i] == LineOf(graph.tasks[graph.keys[i]])
    ensures forall i :: 0 <= i < |plan| ==>
              graph.keys[i] in graph.Snapshot() && lines[i] == LineFor(plan[i], graph.Snapshot()[graph.keys[i]])
  {
    forall i | 0 <= i < |plan|
      ensures graph.keys[i] in graph.Snapshot()
      ensures lines[i] == LineFor(plan[i], graph.Snapshot()[graph.keys[i]])
    {
      assert IsFor(graph.tasks[graph.keys[i]], plan[i]);
    }
  }

  lemma {:induction false} ResultsOfGraph(graph: TaskGraph, results: seq<Option<Value>>)
    requires AreResults(graph, results)
    ensures results == ResultsIn(graph.keys, graph.Snapshot())
  {
  }

  method RunAccepted(graph: TaskGraph, x: Executor, tm: TaskManager, ghost g: Graph, ghost init: States)
    returns (ghost s: Sys)
    requires graph.Valid() && graph.Shape() == g && graph.Snapshot() == init
    requires Closed(DepsOf(g)) && !Cyclic(DepsOf(g))
    modifies tm, graph.tasks.Values
    ensures graph.Valid() && graph.keys == old(graph.keys) && graph.tasks == old(graph.tasks)
    ensures Reachable(g, x, init, s) && Finished(g, s) && s.tasks == graph.Snapshot() && tm.log == old(tm.log) + s.log
  {
    var v;
    v, s := tm.RunGraph(graph, x);
  }

  lemma {:induction false} ReportIsBalanced(r: Report, plan: seq<PlanStep>, ids: seq<Id>, x: Executor, s: Sys)
    requires Distinct(ids) && |ids| == |plan|
    requires Reachable(PlanGraph(plan, ids), x, PlanStart(ids), s) && s.live == map[]
    requires r.total == |ids| == r.completed + r.failed && r.completed == |WithStatus(s.tasks, Completed)|
    ensures ReportBalances(r, s)
  {
    ReachableIsSound(PlanGraph(plan, ids), x, PlanStart(ids), s);
    assert PlanGraph(plan, ids).Keys == Elements(ids);
    LedgerBalances(PlanGraph(plan, ids), x, PlanStart(ids), s, ids);
  }

  lemma {:induction false} DepsAreEarlier(plan: seq<PlanStep>, flat: seq<Clause>, n: nat, route: string -> string)
    requires IsPlan(plan, flat, route) && Contiguous(flat, n)
    ensures forall i :: 0 <= i < |plan| ==> forall j :: j in plan[i].dependsOn ==> 0 <= j < i
  {
    forall i, j | 0 <= i < |plan| && j in plan[i].dependsOn
      ensures 0 <= j < i
    {
      assert plan[i] == StepFor(flat, flat[i], route);
      IndicesMeaning(flat, flat[i].level - 1, j);
    }
  }
}

/**
 Tasks, task graphs and the task manager as objects that are updated in place.
 `RunGraph` picks an arbitrary live coroutine at every step, so what it promises
 holds for every schedule.
 */
module TaskManagement {
  import opened Common
  import opened TaskGraphs
  import opened TaskRuns
  import opened TaskMeaning

  class Task {
    const id: Id
    const owner: string
    const objective: string
    const maxAttempts: int
    const dependsOn: set<Id>
    var status: Status
    var attempts: int
    var result: Option<Value>
    var error: Option<string>

    /** A task as it is created: pending, without attempts. */
    constructor (id: Id, objective: string, owner: string, dependsOn: set<Id>, maxAttempts: int)
      ensures this.id == id && this.objective == objective && this.owner == owner
      ensures Shape() == Node(dependsOn, maxAttempts)
      ensures State() == TaskState(Pending, 0, None, None)
    {
      this.id, this.objective, this.owner := id, objective, owner;
      this.dependsOn, this.maxAttempts := dependsOn, maxAttempts;
      status, attempts, result, error := Pending, 0, None, None;
    }

    function Shape(): Node {
      Node(dependsOn, maxAttempts)
    }

    function State(): TaskState
      reads this
    {
      TaskState(status, attempts, result, error)
    }
  }

  /** The chosen members of a list, in its order. */
  function Chosen(keys: seq<Id>, among: set<Id>): seq<Id> {
    if keys == [] then []
    else
      var last := keys[|keys| - 1];
      Chosen(keys[..|keys| - 1], among) + if last in among then [last] else []
  }

  function AreChosen(keys: seq<Id>, among: set<Id>): nat -> bool {
    (i: nat) => i < |keys| && keys[i] in among
  }

  lemma {:induction false} ChosenUpTo(keys: seq<Id>, among: set<Id>, n: nat)
    requires n <= |keys|
    ensures
      var ix := Positions(n, AreChosen(keys, among));
      && |Chosen(keys[..n], among)| == |ix|
      && forall k :: 0 <= k < |ix| ==> ix[k] < |keys| && Chosen(keys[..n], among)[k] == keys[ix[k]]
  {
    if n > 0 {
      ChosenUpTo(keys, among, n - 1);
      assert keys[..n][..n - 1] == keys[..n - 1];
    }
  }

  /** They are the members at the positions that are chosen, in order. */
  lemma {:induction false} ChosenMeaning(keys: seq<Id>, among: set<Id>) returns (ix: seq<nat>)
    ensures Picks(ix, |keys|, AreChosen(keys, among)) && |Chosen(keys, among)| == |ix|
    ensures forall k :: 0 <= k < |ix| ==> ix[k] < |keys| && Chosen(keys, among)[k] == keys[ix[k]]
  {
    ix := Positions(|keys|, AreChosen(keys, among));
    PositionsPick(|keys|, AreChosen(keys, among));
    ChosenUpTo(keys, among, |keys|);
    assert keys[..|keys|] == keys;
  }

  lemma {:induction false} ChosenElements(keys: seq<Id>, among: set<Id>)
    requires among <= Elements(keys)
    ensures Elements(Chosen(keys, among)) == among && (Chosen(keys, among) == [] <==> among == {})
  {
    ChosenMember(keys, among);
    assert Chosen(keys, among) != [] ==> Chosen(keys, among)[0] in among;
    assert forall t :: t in among ==> t in Elements(Chosen(keys, among));
  }

  lemma {:induction false} ChosenMember(keys: seq<Id>, among: set<Id>)
    ensures forall t :: t in Chosen(keys, among) <==> t in keys && t in among
  {
    if keys != [] {
      ChosenMember(keys[..|keys| - 1], among);
      assert keys == keys[..|keys| - 1] + [keys[|keys| - 1]];
    }
  }

  /** A dictionary of tasks; `keys` is its insertion order. */
  class TaskGraph {
    var keys: seq<Id>
    var tasks: map<Id, Task>

    ghost predicate Valid()
      reads this
    {
      && Distinct(keys)
      && Elements(keys) == tasks.Keys
      && forall t :: t in tasks ==> tasks[t].id == t
    }

    ghost function Shape(): Graph
      reads this
    {
      map t | t in tasks :: tasks[t].Shape()
    }

    ghost function Snapshot(): States
      reads this, tasks.Values
    {
      map t | t in tasks :: tasks[t].State()
    }

    constructor ()
      ensures Valid() && tasks == map[] && keys == []
    {
      keys, tasks := [], map[];
    }

    /** Adding a task under a new id appends it; an existing id keeps its place. */
    method Add(task: Task)
      requires Valid()
      modifies this
      ensures Valid()
      ensures tasks == old(tasks)[task.id := task]
      ensures keys == if task.id in old(tasks) then old(keys) else old(keys) + [task.id]
    {
      assert task.id in tasks <==> task.id in Elements(keys);
      if task.id !in tasks {
        assert Elements(keys + [task.id]) == Elements(keys) + {task.id};
        keys := keys + [task.id];
      }
      tasks := tasks[task.id := task];
    }

    /** The ready tasks in creation order. */
    method ReadyTasks() returns (ready: seq<Id>)
      requires Valid()
      ensures ready == Chosen(keys, Ready(Shape(), Snapshot()))
      ensures Elements(ready) == Ready(Shape(), Snapshot()) && (ready == [] <==> Ready(Shape(), Snapshot()) == {})
    {
      var done := set t | t in tasks && tasks[t].status == Completed;
      assert done == CompletedIds(Snapshot());
      ghost var all := Ready(Shape(), Snapshot());
      ready := [];
      for i := 0 to |keys|
        invariant ready == Chosen(keys[..i], all)
      {
        assert keys[i] in Elements(keys) && keys[..i + 1][..i] == keys[..i];
        var task := tasks[keys[i]];
        if task.status == Pending && task.dependsOn <= done {
          ready := ready + [task.id];
        }
      }
      assert keys[..|keys|] == keys;
      ChosenElements(keys, all);
    }

    method IsComplete() returns (complete: bool)
      requires Valid()
      ensures complete <==> AllComplete(Snapshot())
    {
      complete := forall t :: t in tasks ==> tasks[t].status == Completed || tasks[t].status == Cancelled;
      assert forall t :: t in tasks ==> Snapshot()[t].status == tasks[t].status;
    }
  }

  class TaskManager {
    /** What was published on the event bus. */
    var log: seq<Event>

    constructor ()
      ensures log == []
    {
      log := [];
    }

    method Transition(task: Task, to: Status) returns (allowed: bool)
      modifies task`status
      ensures allowed == Allowed(old(task.status), to)
      ensures task.status == if allowed then to else old(task.status)
    {
      allowed := Allowed(task.status, to);
      if allowed {
        task.status := to;
      }
    }

    method Emit(topic: Topic, task: Task)
      modifies this
      ensures log == old(log) + [Event(topic, task.id, task.status)]
    {
      log := log + [Event(topic, task.id, task.status)];
    }

    /** The task's coroutine from the suspension point `pc` to its next one. */
    method RunOne(task: Task, pc: Pc, x: Executor) returns (next: Pc, allowed: bool)
      requires pc != Done
      modifies this, task`status, task`attempts, task`result, task`error
      ensures
        var turn := Resume(x, task.maxAttempts, task.id, old(task.State()), pc);
        && allowed == turn.Turn?
        && (allowed ==> task.State() == turn.st && next == turn.pc && log == old(log) + turn.emitted)
    {
      next := Done;
      if pc == Created {
        allowed := Transition(task, Assigned);
        if allowed {
          Emit(TaskAssigned, task);
          next := Announced;
        }
        return;
      }
      if pc == Announced || pc == Sleeping {
        if pc == Sleeping {
          allowed := Transition(task, Assigned);
          if !allowed {
            return;
          }
        }
        task.attempts := task.attempts + 1;
        allowed := Transition(task, Running);
        next := Executing;
        return;
      }
      var outcome := x(task.id, task.attempts);
      var message := "not allowed";
      match outcome {
        case Returns(value) =>
          task.result := Some(value);
          allowed := Transition(task, Completed);
          if allowed {
            Emit(TaskCompleted, task);
            return;
          }
        case Raises(m) =>
          message := m;
      }
      task.error := Some(message);
      allowed := Transition(task, Failed);
      if allowed {
        if task.attempts >= task.maxAttempts {
          Emit(TaskDeadLetter, task);
        } else {
          next := Sleeping;
        }
      }
    }

    /**
     Validates the graph, then runs wave after wave until it is complete or
     blocked.  A rejected graph is left alone; an accepted one ends, under any
     schedule, in the states of its dataflow reading.
     */
    method RunGraph(graph: TaskGraph, x: Executor) returns (r: Validation, ghost s: Sys)
      requires graph.Valid()
      modifies this, graph.tasks.Values
      ensures graph.Valid() && graph.keys == old(graph.keys) && graph.tasks == old(graph.tasks)
      ensures r.Ordered? <==> Closed(DepsOf(graph.Shape())) && !Cyclic(DepsOf(graph.Shape()))
      ensures r.Rejected? ==> graph.Snapshot() == old(graph.Snapshot()) && log == old(log)
      ensures r.Ordered? ==> IsTopological(DepsOf(graph.Shape()), r.order)
      ensures r.Ordered? ==> forall t :: t in r.order ==> t in graph.tasks
      ensures r.Ordered? ==> graph.Snapshot() == Dataflow(graph.Shape(), x, old(graph.Snapshot()), r.order)
      ensures r.Ordered? ==>
        && Reachable(graph.Shape(), x, old(graph.Snapshot()), s) && Finished(graph.Shape(), s)
        && s.tasks == graph.Snapshot() && log == old(log) + s.log
    {
      ghost var g, init, base := graph.Shape(), graph.Snapshot(), log;
      s := Initial(init);
      var deps := map t | t in graph.tasks :: graph.tasks[t].dependsOn;
      assert deps == DepsOf(g);
      r := TopologicalOrder(graph.keys, deps);
      if r.Rejected? {
        return;
      }
      InitialIsReachable(g, x, init);
      s := RunWaves(graph, x, g, init, base, s);
      FinishedIsDataflow(g, x, init, r.order, s);
    }

    /** Gathers the ready tasks until the graph is complete or nothing is ready. */
    method RunWaves(graph: TaskGraph, x: Executor, ghost g: Graph, ghost init: States, ghost base: seq<Event>,
                    ghost s0: Sys)
      returns (ghost s: Sys)
      requires graph.Valid() && graph.Shape() == g && graph.Snapshot() == s0.tasks
      requires g.Keys == init.Keys && Reachable(g, x, init, s0) && s0.live == map[] && log == base + s0.log
      modifies this, graph.tasks.Values
      ensures graph.Snapshot() == s.tasks && log == base + s.log
      ensures Reachable(g, x, init, s) && Finished(g, s)
    {
      s := s0;
      var going := true;
      while going
        invariant graph.Snapshot() == s.tasks && log == base + s.log
        invariant Reachable(g, x, init, s) && s.live == map[]
        invariant !going ==> Finished(g, s)
        decreases going, Fuel(g, s, graph.keys)
      {
        going, s := NextWave(graph, x, g, init, base, s);
      }
    }

    /** The body of the loop of `run_graph`: stops when the graph is complete or blocked, else runs a wave. */
    method NextWave(graph: TaskGraph, x: Executor, ghost g: Graph, ghost init: States, ghost base: seq<Event>,
                    ghost s0: Sys)
      returns (going: bool, ghost s: Sys)
      requires graph.Valid() && graph.Shape() == g && graph.Snapshot() == s0.tasks
      requires g.Keys == init.Keys && Reachable(g, x, init, s0) && s0.live == map[] && log == base + s0.log
      modifies this, graph.tasks.Values
      ensures graph.Snapshot() == s.tasks && log == base + s.log
      ensures Reachable(g, x, init, s) && s.live == map[]
      ensures if going then 0 <= Fuel(g, s, graph.keys) < Fuel(g, s0, graph.keys) else s == s0 && Finished(g, s)
    {
      s := s0;
      var complete := graph.IsComplete();
      if complete {
        return false, s;
      }
      var ready := graph.ReadyTasks();
      if ready == [] {
        return false, s;
      }
      s := RunWave(graph, ready, x, g, init, base, s);
      going := true;
    }

    method RunWave(graph: TaskGraph, ready: seq<Id>, x: Executor, ghost g: Graph, ghost init: States,
                   ghost base: seq<Event>, ghost s0: Sys)
      returns (ghost s: Sys)
      requires graph.Valid() && graph.Shape() == g && graph.Snapshot() == s0.tasks
      requires g.Keys == init.Keys && Reachable(g, x, init, s0) && s0.live == map[] && log == base + s0.log
      requires !Finished(g, s0) && Elements(ready) == Ready(g, s0.tasks)
      modifies this, graph.tasks.Values
      ensures graph.Snapshot() == s.tasks && log == base + s.log
      ensures Reachable(g, x, init, s) && s.live == map[]
      ensures 0 <= Fuel(g, s, graph.keys) < Fuel(g, s0, graph.keys)
    {
      StartIsReachable(g, x, init, s0, graph.keys);
      s := Gather(graph, ready, x, g, init, base, StartWave(g, s0));
    }

    /** One wave: resumes the coroutines of `ready` in any order until all have returned. */
    method Gather(graph: TaskGraph, ready: seq<Id>, x: Executor, ghost g: Graph, ghost init: States,
                  ghost base: seq<Event>, ghost s0: Sys)
      returns (ghost s: Sys)
      requires graph.Valid() && graph.Shape() == g && graph.Snapshot() == s0.tasks
      requires g.Keys == init.Keys && Reachable(g, x, init, s0) && s0.live == Gathered(Elements(ready))
      requires log == base + s0.log && 0 <= Fuel(g, s0, graph.keys)
      modifies this, graph.tasks.Values
      ensures graph.Snapshot() == s.tasks && log == base + s.log
      ensures Reachable(g, x, init, s) && s.live == map[]
      ensures 0 <= Fuel(g, s, graph.keys) <= Fuel(g, s0, graph.keys)
    {
      s := s0;
      var live := map t | t in ready :: Created;
      assert live == Gathered(Elements(ready));
      while live != map[]
        invariant graph.Snapshot() == s.tasks && log == base + s.log
        invariant Reachable(g, x, init, s) && live == s.live
        invariant 0 <= Fuel(g, s, graph.keys) <= Fuel(g, s0, graph.keys)
        decreases Fuel(g, s, graph.keys)
      {
        var t :| t in live;
        live, s := ResumeAny(graph, live, t, x, g, init, base, s);
      }
    }

    method ResumeAny(graph: TaskGraph, live: map<Id, Pc>, t: Id, x: Executor, ghost g: Graph, ghost init: States,
                     ghost base: seq<Event>, ghost s: Sys)
      returns (live': map<Id, Pc>, ghost s': Sys)
      requires graph.Valid() && graph.Shape() == g && graph.Snapshot() == s.tasks
      requires g.Keys == init.Keys && Reachable(g, x, init, s) && live == s.live && t in live
      requires log == base + s.log
      modifies this, graph.tasks.Values
      ensures graph.Snapshot() == s'.tasks && log == base + s'.log
      ensures Reachable(g, x, init, s') && live' == s'.live
      ensures 0 <= Fuel(g, s', graph.keys) < Fuel(g, s, graph.keys)
    {
      ResumeIsReachable(g, x, init, s, t, graph.keys);
      s' := ResumeTask(g, x, s, t);
      ghost var turn := Resume(x, g[t].maxAttempts, t, s.tasks[t], s.live[t]);
      var next, allowed := ResumeOne(graph, t, live[t], x);
      live' := if next == Done then live - {t} else live[t := next];
      Regroup(base, s.log, turn.emitted);
    }

    /** Resumes the coroutine of task `t`; the other tasks of the graph are not touched. */
    method ResumeOne(graph: TaskGraph, t: Id, pc: Pc, x: Executor) returns (next: Pc, allowed: bool)
      requires graph.Valid() && t in graph.tasks && pc != Done
      modifies this, graph.tasks[t]
      ensures
        var turn := Resume(x, graph.Shape()[t].maxAttempts, t, old(graph.Snapshot())[t], pc);
        && allowed == turn.Turn?
        && (allowed ==>
            && graph.Snapshot() == old(graph.Snapshot())[t := turn.st]
            && next == turn.pc
            && log == old(log) + turn.emitted)
    {
      var task := graph.tasks[t];
      ghost var before, max := graph.Snapshot(), graph.Shape()[t].maxAttempts;
      assert before[t] == task.State() && max == task.maxAttempts;
      next, allowed := RunOne(task, pc, x);
      assert forall u :: u in graph.tasks && u != t ==> graph.tasks[u] != task;
      assert graph.Snapshot() == before[t := task.State()];
    }
  }
}

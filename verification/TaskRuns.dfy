/**
 The task manager as a state machine.  A wave gathers the coroutines of all
 ready tasks; each step resumes one of them up to its next suspension point, in
 any order.  The executor is an oracle over a task and its attempt number.
 */
module TaskRuns {
  import opened Common
  import opened TaskGraphs

  datatype Status = Pending | Assigned | Running | Completed | Failed | Cancelled

  /** The transition table. */
  predicate Allowed(from: Status, to: Status) {
    match from
    case Pending => to == Assigned || to == Cancelled
    case Assigned => to == Running || to == Cancelled
    case Running => to == Completed || to == Failed || to == Cancelled
    case Failed => to == Assigned
    case Completed => false
    case Cancelled => false
  }

  /** The transitions there are, and no other. */
  lemma {:induction false} TransitionTable(from: Status, to: Status)
    ensures Allowed(from, to) <==>
            (from, to) in {(Pending, Assigned), (Pending, Cancelled), (Assigned, Running), (Assigned, Cancelled),
                           (Running, Completed), (Running, Failed), (Running, Cancelled), (Failed, Assigned)}
  {
  }

  type Value = string

  datatype Outcome = Returns(value: Value) | Raises(message: string)

  type Executor = (Id, int) -> Outcome

  datatype TaskState = TaskState(status: Status, attempts: int, result: Option<Value>, error: Option<string>)

  datatype Node = Node(deps: set<Id>, maxAttempts: int)

  type Graph = map<Id, Node>

  type States = map<Id, TaskState>

  function DepsOf(g: Graph): Deps {
    map t | t in g :: g[t].deps
  }

  datatype Topic = TaskAssigned | TaskCompleted | TaskDeadLetter

  datatype Event = Event(topic: Topic, id: Id, status: Status)

  /** Where the coroutine of a task is suspended. */
  datatype Pc = Created | Announced | Executing | Sleeping | Done

  /** What one resumption does: the new task, the next suspension point, the events emitted on the way. */
  datatype Turn = Turn(st: TaskState, pc: Pc, emitted: seq<Event>) | InvalidTransition

  function Move(st: TaskState, to: Status): Option<TaskState> {
    if Allowed(st.status, to) then Some(st.(status := to)) else None
  }

  /** The head of the retry loop: count the attempt, mark the task running, call the executor. */
  function Launch(st: TaskState): Turn {
    match Move(st.(attempts := st.attempts + 1), Running)
    case None => InvalidTransition
    case Some(r) => Turn(r, Executing, [])
  }

  /** The exception handler of the retry loop. */
  function Rescue(max: int, id: Id, st: TaskState, message: string): Turn {
    match Move(st.(error := Some(message)), Failed)
    case None => InvalidTransition
    case Some(f) =>
      if f.attempts >= max then Turn(f, Done, [Event(TaskDeadLetter, id, f.status)]) else Turn(f, Sleeping, [])
  }

  function Resume(x: Executor, max: int, id: Id, st: TaskState, pc: Pc): Turn {
    match pc
    case Created => (
      match Move(st, Assigned)
      case None => InvalidTransition
      case Some(a) => Turn(a, Announced, [Event(TaskAssigned, id, a.status)]))
    case Announced => Launch(st)
    case Executing => (
      match x(id, st.attempts)
      case Raises(message) => Rescue(max, id, st, message)
      case Returns(value) => (
        match Move(st.(result := Some(value)), Completed)
        case None => Rescue(max, id, st.(result := Some(value)), "not allowed")
        case Some(c) => Turn(c, Done, [Event(TaskCompleted, id, c.status)])))
    case Sleeping => (
      match Move(st, Assigned)
      case None => InvalidTransition
      case Some(a) => Launch(a))
    case Done => Turn(st, Done, [])
  }

  /** `live` holds the gathered coroutines that have not returned; `waves` what each gather was given. */
  datatype Sys = Sys(tasks: States, live: map<Id, Pc>, log: seq<Event>, waves: seq<set<Id>>, crashed: bool)

  function Initial(init: States): Sys {
    Sys(init, map[], [], [], false)
  }

  function CompletedIds(tasks: States): set<Id> {
    set t | t in tasks && tasks[t].status == Completed
  }

  function Ready(g: Graph, tasks: States): set<Id> {
    set t | t in g && t in tasks && tasks[t].status == Pending && g[t].deps <= CompletedIds(tasks)
  }

  predicate AllComplete(tasks: States) {
    forall t :: t in tasks ==> tasks[t].status == Completed || tasks[t].status == Cancelled
  }

  /** The condition on which `run_graph` leaves its loop. */
  predicate Finished(g: Graph, s: Sys) {
    s.live == map[] && (AllComplete(s.tasks) || Ready(g, s.tasks) == {})
  }

  /** The coroutines a wave is made of, none of them begun. */
  function Gathered(ready: set<Id>): map<Id, Pc> {
    map t | t in ready :: Created
  }

  function StartWave(g: Graph, s: Sys): Sys {
    s.(live := Gathered(Ready(g, s.tasks)), waves := s.waves + [Ready(g, s.tasks)])
  }

  function ResumeTask(g: Graph, x: Executor, s: Sys, t: Id): Sys
    requires t in g && t in s.tasks && t in s.live
  {
    match Resume(x, g[t].maxAttempts, t, s.tasks[t], s.live[t])
    case InvalidTransition => s.(crashed := true)
    case Turn(st, pc, emitted) =>
      s.(tasks := s.tasks[t := st],
      live := if pc == Done then s.live - {t} else s.live[t := pc],
      log := s.log + emitted)
  }

  ghost predicate Next(g: Graph, x: Executor, s: Sys, s': Sys) {
    && !s.crashed
    && ((s.live == map[] && !Finished(g, s) && s' == StartWave(g, s))
        || (exists t :: t in s.live && t in g && t in s.tasks && s' == ResumeTask(g, x, s, t)))
  }

  ghost predicate IsRun(g: Graph, x: Executor, init: States, run: seq<Sys>) {
    && run != []
    && run[0] == Initial(init)
    && forall i :: 0 <= i < |run| - 1 ==> Next(g, x, run[i], run[i + 1])
  }

  // ------------------------------------------------------------------ one task on its own

  /** The retry loop run to its end with nothing else going on; `st.attempts` calls were made before. */
  function Attempts(x: Executor, max: int, id: Id, st: TaskState): TaskState
    decreases max - st.attempts
  {
    var n := st.attempts + 1;
    match x(id, n)
    case Returns(value) => TaskState(Completed, n, Some(value), st.error)
    case Raises(message) =>
      var f := TaskState(Failed, n, st.result, Some(message));
      if n >= max then f else Attempts(x, max, id, f)
  }

  /** The last attempt the retry loop may make: at least one is always made. */
  function LastAttempt(max: int, st: TaskState): int {
    if st.attempts + 1 >= max then st.attempts + 1 else max
  }

  /** The retry loop returns the first success among the allowed attempts, or fails with the last error. */
  lemma {:induction false} AttemptsMeaning(x: Executor, max: int, id: Id, st: TaskState)
    ensures
      var last, out := LastAttempt(max, st), Attempts(x, max, id, st);
      && st.attempts < out.attempts <= last
      && (forall k :: st.attempts < k < out.attempts ==> x(id, k).Raises?)
      && (out.status == Completed <==> exists k :: st.attempts < k <= last && x(id, k).Returns?)
      && (out.status == Completed ==> x(id, out.attempts).Returns? && out.result == Some(x(id, out.attempts).value))
      && (out.status == Completed && out.attempts == st.attempts + 1 ==> out.error == st.error)
      && (out.status == Completed && out.attempts > st.attempts + 1 ==>
          x(id, out.attempts - 1).Raises? && out.error == Some(x(id, out.attempts - 1).message))
      && (out.status != Completed ==>
          && out.status == Failed && out.attempts == last && out.result == st.result
          && x(id, last).Raises? && out.error == Some(x(id, last).message))
    decreases max - st.attempts
  {
    var n := st.attempts + 1;
    match x(id, n)
    case Returns(value) =>
    case Raises(message) =>
      if n < max {
        AttemptsMeaning(x, max, id, TaskState(Failed, n, st.result, Some(message)));
      }
  }

  /** What a coroutine suspended at `pc` still turns its task into. */
  function Outlook(x: Executor, max: int, id: Id, st: TaskState, pc: Pc): TaskState {
    match pc
    case Executing => Attempts(x, max, id, st.(attempts := st.attempts - 1))
    case Done => st
    case _ => Attempts(x, max, id, st)
  }

  /** The status a suspended coroutine finds its task in. */
  predicate StatusAt(pc: Pc, status: Status) {
    match pc
    case Created => status == Pending
    case Announced => status == Assigned
    case Executing => status == Running
    case Sleeping => status == Failed
    case Done => status == Completed || status == Failed
  }

  /** The events a coroutine has emitted once it is suspended at `pc`. */
  function StoryAt(id: Id, pc: Pc, status: Status): seq<Event> {
    match pc
    case Created => []
    case Done => [Event(TaskAssigned, id, Assigned),
                  Event(if status == Completed then TaskCompleted else TaskDeadLetter, id, status)]
    case _ => [Event(TaskAssigned, id, Assigned)]
  }

  /** No resumption meets a forbidden transition, and each keeps the task on course for the same result. */
  lemma {:induction false} ResumeKeepsOutlook(x: Executor, max: int, id: Id, st: TaskState, pc: Pc)
    requires StatusAt(pc, st.status) && pc != Done
    ensures
      var r := Resume(x, max, id, st, pc);
      && r.Turn?
      && StatusAt(r.pc, r.st.status)
      && Outlook(x, max, id, r.st, r.pc) == Outlook(x, max, id, st, pc)
      && StoryAt(id, r.pc, r.st.status) == StoryAt(id, pc, st.status) + r.emitted
  {
    var before := st.(attempts := st.attempts - 1);
    assert before.attempts + 1 == st.attempts;
    match pc
    case Created =>
    case Announced => assert Launch(st).st.(attempts := st.attempts) == st.(status := Running);
      SameLoop(x, max, id, st, st.(status := Running));
    case Sleeping => SameLoop(x, max, id, st, st.(status := Running));
    case Executing =>
      match x(id, st.attempts)
      case Returns(value) =>
      case Raises(message) =>
        SameLoop(x, max, id, TaskState(Failed, st.attempts, st.result, Some(message)),
                 st.(error := Some(message), status := Failed));
  }

  /** The retry loop does not read the status. */
  lemma {:induction false} SameLoop(x: Executor, max: int, id: Id, a: TaskState, b: TaskState)
    requires a.(status := b.status) == b
    ensures Attempts(x, max, id, a) == Attempts(x, max, id, b)
  {
  }
}

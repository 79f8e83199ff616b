/** The events of a run counted, and the balance between them and the states it leaves. */
module TaskLedger {
  import opened Common
  import opened TaskGraphs
  import opened TaskRuns
  import opened TaskInvariant
  import opened TaskMeaning

  function CountTopic(log: seq<Event>, topic: Topic): nat {
    if log == [] then 0
    else CountTopic(log[..|log| - 1], topic) + if log[|log| - 1].topic == topic then 1 else 0
  }

  function CountIn(log: seq<Event>, topic: Topic): Id -> int {
    t => CountTopic(Story(log, t), topic)
  }

  function WithStatus(tasks: States, status: Status): set<Id> {
    set t | t in tasks && tasks[t].status == status
  }

  lemma {:induction false} CountAppend(log: seq<Event>, e: Event, topic: Topic)
    ensures CountTopic(log + [e], topic) == CountTopic(log, topic) + if e.topic == topic then 1 else 0
  {
    assert (log + [e])[..|log|] == log;
  }

  lemma {:induction false} CountInAppend(log: seq<Event>, e: Event, topic: Topic, u: Id)
    ensures CountIn(log + [e], topic)(u) ==
            if u == e.id && e.topic == topic then CountIn(log, topic)(u) + 1 else CountIn(log, topic)(u)
  {
    StoryAppend(log, [e], e.id, u);
    CountAppend(Story(log, u), e, topic);
  }

  /** Counting a log is counting it task by task. */
  lemma {:induction false} CountByTask(log: seq<Event>, topic: Topic, keys: seq<Id>)
    requires Distinct(keys) && forall e :: e in log ==> e.id in keys
    ensures CountTopic(log, topic) == Sum(keys, CountIn(log, topic))
  {
    if log == [] {
      SumOfZeros(keys, CountIn(log, topic));
    } else {
      var k := |log| - 1;
      var e := log[k];
      assert log[..k] + [e] == log;
      CountByTask(log[..k], topic, keys);
      CountAppend(log[..k], e, topic);
      var d := if e.topic == topic then 1 else 0;
      forall u | u in keys
        ensures CountIn(log, topic)(u) ==
                if u == e.id then CountIn(log[..k], topic)(u) + d else CountIn(log[..k], topic)(u)
      {
        CountInAppend(log[..k], e, topic, u);
      }
      SumBump(keys, CountIn(log[..k], topic), CountIn(log, topic), e.id, d);
    }
  }

  /** If exactly the tasks of `s` have one event on `topic` and the others none, the log counts `s`. */
  lemma {:induction false} CountIsSize(log: seq<Event>, topic: Topic, keys: seq<Id>, s: set<Id>)
    requires Distinct(keys) && s <= Elements(keys) && forall e :: e in log ==> e.id in Elements(keys)
    requires forall t :: t in keys ==> CountIn(log, topic)(t) == if t in s then 1 else 0
    ensures CountTopic(log, topic) == |s|
  {
    CountByTask(log, topic, keys);
    SumCounts(keys, CountIn(log, topic), s);
  }

  lemma {:induction false} SumOfZeros(keys: seq<Id>, f: Id -> int)
    requires forall u :: u in keys ==> f(u) == 0
    ensures Sum(keys, f) == 0
  {
    if keys != [] {
      SumOfZeros(keys[1..], f);
    }
  }

  /** How often each topic occurs in the finished story of a task. */
  lemma {:induction false} CountStory(id: Id, status: Status, topic: Topic)
    requires status == Completed || status == Failed
    ensures CountTopic(StoryAt(id, Done, status), topic) ==
            match topic
            case TaskAssigned => 1
            case TaskCompleted => (if status == Completed then 1 else 0)
            case TaskDeadLetter => (if status == Failed then 1 else 0)
  {
    var story := StoryAt(id, Done, status);
    assert story == ([] + [story[0]]) + [story[1]];
    CountAppend([], story[0], topic);
    CountAppend([] + [story[0]], story[1], topic);
  }

  /**
   The ledger of a run that has nothing in flight: one announcement for each task
   started, one completion for each task completed, one dead letter for each task
   failed, and the rest were never started.
   */
  lemma {:induction false} LedgerBalances(g: Graph, x: Executor, init: States, s: Sys, keys: seq<Id>)
    requires Inv(g, x, init, s) && s.live == map[] && AllPending(init)
    requires Distinct(keys) && Elements(keys) == g.Keys
    ensures CountTopic(s.log, TaskCompleted) == |WithStatus(s.tasks, Completed)|
    ensures CountTopic(s.log, TaskDeadLetter) == |WithStatus(s.tasks, Failed)|
    ensures CountTopic(s.log, TaskAssigned) == CountTopic(s.log, TaskCompleted) + CountTopic(s.log, TaskDeadLetter)
    ensures |keys| == CountTopic(s.log, TaskAssigned) + |WithStatus(s.tasks, Pending)|
  {
    TasksPartition(g, x, init, s);
    var c, f, p := WithStatus(s.tasks, Completed), WithStatus(s.tasks, Failed), WithStatus(s.tasks, Pending);
    PartitionCounts(s.log, keys, c, f, p);
  }

  lemma {:induction false} TasksPartition(g: Graph, x: Executor, init: States, s: Sys)
    requires Inv(g, x, init, s) && s.live == map[] && AllPending(init)
    ensures
      var c, f, p := WithStatus(s.tasks, Completed), WithStatus(s.tasks, Failed), WithStatus(s.tasks, Pending);
      && c !! f !! p && g.Keys == c + f + p
      && (forall e :: e in s.log ==> e.id in g.Keys)
      && (forall t :: t in g.Keys ==>
          && CountIn(s.log, TaskAssigned)(t) == (if t in c + f then 1 else 0)
          && CountIn(s.log, TaskCompleted)(t) == (if t in c then 1 else 0)
          && CountIn(s.log, TaskDeadLetter)(t) == (if t in f then 1 else 0))
  {
    forall t | t in g
      ensures s.tasks[t].status in {Pending, Completed, Failed}
      ensures CountIn(s.log, TaskAssigned)(t) == (if s.tasks[t].status == Pending then 0 else 1)
      ensures CountIn(s.log, TaskCompleted)(t) == (if s.tasks[t].status == Completed then 1 else 0)
      ensures CountIn(s.log, TaskDeadLetter)(t) == (if s.tasks[t].status == Failed then 1 else 0)
    {
      TaskCounts(g, x, init, s, t);
    }
  }

  lemma {:induction false} PartitionCounts(log: seq<Event>, keys: seq<Id>, c: set<Id>, f: set<Id>, p: set<Id>)
    requires Distinct(keys) && c !! f !! p && Elements(keys) == c + f + p
    requires forall e :: e in log ==> e.id in Elements(keys)
    requires forall t :: t in Elements(keys) ==>
      && CountIn(log, TaskAssigned)(t) == (if t in c + f then 1 else 0)
      && CountIn(log, TaskCompleted)(t) == (if t in c then 1 else 0)
      && CountIn(log, TaskDeadLetter)(t) == (if t in f then 1 else 0)
    ensures CountTopic(log, TaskCompleted) == |c| && CountTopic(log, TaskDeadLetter) == |f|
    ensures CountTopic(log, TaskAssigned) == |c| + |f| && |keys| == |c| + |f| + |p|
  {
    assert forall t :: t in keys ==> t in Elements(keys);
    CountIsSize(log, TaskCompleted, keys, c);
    CountIsSize(log, TaskDeadLetter, keys, f);
    CountIsSize(log, TaskAssigned, keys, c + f);
    DistinctCardinality(keys);
  }

  lemma {:induction false} TaskCounts(g: Graph, x: Executor, init: States, s: Sys, t: Id)
    requires Inv(g, x, init, s) && s.live == map[] && AllPending(init) && t in g
    ensures
      var st := s.tasks[t].status;
      && st in {Pending, Completed, Failed}
      && CountIn(s.log, TaskAssigned)(t) == (if st == Pending then 0 else 1)
      && CountIn(s.log, TaskCompleted)(t) == (if st == Completed then 1 else 0)
      && CountIn(s.log, TaskDeadLetter)(t) == (if st == Failed then 1 else 0)
  {
    assert TaskInv(g, x, init, s, t);
    if s.tasks[t].status != Pending {
      CountStory(t, s.tasks[t].status, TaskAssigned);
      CountStory(t, s.tasks[t].status, TaskCompleted);
      CountStory(t, s.tasks[t].status, TaskDeadLetter);
    }
  }
}

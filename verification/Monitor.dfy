/** The progress monitor: tallies of the task events it is handed, with their payloads. */
module Monitors {
  import opened TaskRuns

  datatype ProgressReport = ProgressReport(started: nat, completed: nat, deadLetter: nat, eventsSeen: nat)

  /** How many events are of a topic. */
  function Seen<P>(events: seq<(Topic, P)>, topic: Topic): nat {
    if events == [] then 0
    else Seen(events[..|events| - 1], topic) + if events[|events| - 1].0 == topic then 1 else 0
  }

  function Tallies<P>(events: seq<(Topic, P)>): ProgressReport {
    ProgressReport(Seen(events, TaskAssigned), Seen(events, TaskCompleted), Seen(events, TaskDeadLetter), |events|)
  }

  class ProgressMonitor<P> {
    var counts: map<Topic, nat>
    var events: seq<(Topic, P)>

    ghost predicate Valid()
      reads this
    {
      forall topic :: (if topic in counts then counts[topic] else 0) == Seen(events, topic)
    }

    constructor ()
      ensures Valid() && events == []
    {
      counts, events := map[], [];
    }

    /** The handler subscribed to `topic`: it keeps the whole payload. */
    method OnEvent(topic: Topic, payload: P)
      requires Valid()
      modifies this
      ensures Valid() && events == old(events) + [(topic, payload)]
    {
      assert (events + [(topic, payload)])[..|events|] == events;
      counts := counts[topic := (if topic in counts then counts[topic] else 0) + 1];
      events := events + [(topic, payload)];
    }

    /** The three tallies together account for every event seen. */
    method Snapshot() returns (p: ProgressReport)
      requires Valid()
      ensures p == Tallies(events)
      ensures p.eventsSeen == p.started + p.completed + p.deadLetter
    {
      SeenAll(events);
      p := ProgressReport(if TaskAssigned in counts then counts[TaskAssigned] else 0,
                          if TaskCompleted in counts then counts[TaskCompleted] else 0,
                          if TaskDeadLetter in counts then counts[TaskDeadLetter] else 0,
                          |events|);
    }
  }

  lemma {:induction false} SeenAll<P>(events: seq<(Topic, P)>)
    ensures |events| == Seen(events, TaskAssigned) + Seen(events, TaskCompleted) + Seen(events, TaskDeadLetter)
  {
    if events != [] {
      SeenAll(events[..|events| - 1]);
      match events[|events| - 1].0
      case TaskAssigned =>
      case TaskCompleted =>
      case TaskDeadLetter =>
    }
  }
}

/**
 The scheduler as an object: a dictionary of mutable jobs visited in order by `Tick`,
 and a lock object that several schedulers may share.  Each method is proved to take
 the steps of the value-level history.
 */
module SchedulerObjects {
  import opened Common
  import opened Dicts
  import opened Schedules

  class InMemoryLock {
    var held: map<string, real>

    constructor ()
      ensures held == map[]
    {
      held := map[];
    }

    method Acquire(key: string, now: real, ttl: real) returns (ok: bool)
      modifies this
      ensures ok == old(Free(held, key, now))
      ensures held == if ok then old(held)[key := now + ttl] else old(held)
    {
      if key in held {
        var until := held[key];
        if until != 0.0 && until > now {
          return false;
        }
      }
      held := held[key := now + ttl];
      ok := true;
    }
  }

  class ScheduledJob {
    const id: string
    const name: string
    const trigger: Trigger
    var enabled: bool
    var nextRun: Option<int>
    var lastRun: Option<int>

    constructor (id: string, name: string, trigger: Trigger)
      ensures State() == Job(name, trigger, true, None, None) && this.id == id
    {
      this.id := id;
      this.name := name;
      this.trigger := trigger;
      enabled := true;
      nextRun := None;
      lastRun := None;
    }

    function State(): Job
      reads this
    {
      Job(name, trigger, enabled, nextRun, lastRun)
    }

    /** Asks the trigger for the first run; a trigger that raises leaves the job alone. */
    method Arm(now: nat) returns (raised: bool)
      modifies this
      ensures raised == NextOf(trigger, now).Error?
      ensures if raised then State() == old(State()) else Armed(old(State()), now) == Some(State())
    {
      match NextOf(trigger, now) {
        case Due(when) =>
          nextRun := Some(when);
          raised := false;
        case Never =>
          nextRun := None;
          raised := false;
        case Error =>
          raised := true;
      }
    }

    /** What a fire does to the job once it has been published. */
    method Advance(now: nat) returns (raised: bool)
      modifies this
      ensures State() == Fired(old(State()), now)
      ensures raised == NextOf(trigger, now).Error?
    {
      lastRun := Some(now);
      match NextOf(trigger, now) {
        case Due(when) =>
          nextRun := Some(when);
          raised := false;
        case Never =>
          nextRun := None;
          enabled := false;
          raised := false;
        case Error =>
          raised := true;
      }
    }
  }

  /** What one replica sees: its own jobs, the lock and its own publications. */
  datatype Local = Local(jobs: map<string, Job>, held: map<string, real>, fires: seq<Fire>)

  predicate FiresHere(l: Local, id: string, now: nat, clock: real) {
    id in l.jobs && IsDue(l.jobs[id], now) && Free(l.held, LockKey(id), clock)
  }

  /** It fires, and its trigger raises when asked for the run after it. */
  predicate RaisesHere(l: Local, id: string, now: nat, clock: real) {
    FiresHere(l, id, now, clock) && NextOf(l.jobs[id].trigger, now).Error?
  }

  function NameHere(l: Local, id: string, now: nat, clock: real): seq<string> {
    if FiresHere(l, id, now, clock) then [l.jobs[id].name] else []
  }

  function VisitHere(l: Local, r: nat, id: string, now: nat, clock: real): Local {
    if !FiresHere(l, id, now, clock) then l
    else
      Local(l.jobs[id := Fired(l.jobs[id], now)], l.held[LockKey(id) := clock + TTL],
            l.fires + [Fire(r, id, now, clock, NextOf(l.jobs[id].trigger, now).Error?)])
  }

  /** Visits to the first `k` of some jobs, one after the other. */
  function TickHere(l: Local, r: nat, ids: seq<string>, k: nat, now: nat, clocks: seq<real>): Local
    requires k <= |ids| <= |clocks|
    decreases k
  {
    if k == 0 then l
    else VisitHere(TickHere(l, r, ids, k - 1, now, clocks), r, ids[k - 1], now, clocks[k - 1])
  }

  /** The last of them fires a job whose trigger raises, which ends the tick. */
  predicate LastRaises(l: Local, r: nat, ids: seq<string>, k: nat, now: nat, clocks: seq<real>)
    requires k <= |ids| <= |clocks|
  {
    k > 0 && RaisesHere(TickHere(l, r, ids, k - 1, now, clocks), ids[k - 1], now, clocks[k - 1])
  }

  /** The names of the jobs that fire among them. */
  function FiredNames(l: Local, r: nat, ids: seq<string>, k: nat, now: nat, clocks: seq<real>): seq<string>
    requires k <= |ids| <= |clocks|
    decreases k
  {
    if k == 0 then []
    else
      var before := TickHere(l, r, ids, k - 1, now, clocks);
      FiredNames(l, r, ids, k - 1, now, clocks) + NameHere(before, ids[k - 1], now, clocks[k - 1])
  }

  /** The names a tick returns are those of the jobs it fires, one for each fire, in their order. */
  lemma {:induction false} NamesAreOfFires(l: Local, r: nat, ids: seq<string>, k: nat, now: nat, clocks: seq<real>)
    requires k <= |ids| <= |clocks|
    ensures
      var end := TickHere(l, r, ids, k, now, clocks);
      && l.fires <= end.fires && l.jobs.Keys == end.jobs.Keys
      && (forall id :: id in l.jobs ==> end.jobs[id].name == l.jobs[id].name)
      && |FiredNames(l, r, ids, k, now, clocks)| == |end.fires| - |l.fires|
      && forall i :: 0 <= i < |end.fires| - |l.fires| ==>
           NamedBy(l, end.fires[|l.fires| + i], FiredNames(l, r, ids, k, now, clocks)[i])
    decreases k
  {
    if k > 0 {
      NamesAreOfFires(l, r, ids, k - 1, now, clocks);
      var before, id := TickHere(l, r, ids, k - 1, now, clocks), ids[k - 1];
      if FiresHere(before, id, now, clocks[k - 1]) {
        assert before.jobs[id].name == l.jobs[id].name;
      }
    }
  }

  predicate NamedBy(l: Local, f: Fire, name: string) {
    f.id in l.jobs && l.jobs[f.id].name == name
  }

  /** The replica's share of the common history. */
  function Lift(r: nat, l: Local): World {
    World(map id | id in l.jobs :: (r, id) := l.jobs[id], l.held, l.fires)
  }

  function Visits(r: nat, ids: seq<string>, k: nat, now: nat, clocks: seq<real>): seq<Event>
    requires k <= |ids| <= |clocks|
  {
    seq(k, i requires 0 <= i < k => Visit(r, ids[i], now, clocks[i]))
  }

  lemma {:induction false} LiftPut(r: nat, l: Local, id: string, j: Job)
    ensures Lift(r, l.(jobs := l.jobs[id := j])).jobs == Lift(r, l).jobs[(r, id) := j]
    ensures Lift(r, l.(jobs := l.jobs - {id})).jobs == Lift(r, l).jobs - {(r, id)}
  {
  }

  lemma {:induction false} VisitIsStep(l: Local, r: nat, id: string, now: nat, clock: real)
    ensures Lift(r, VisitHere(l, r, id, now, clock)) == Step(Lift(r, l), Visit(r, id, now, clock))
  {
    if FiresHere(l, id, now, clock) {
      LiftPut(r, l, id, Fired(l.jobs[id], now));
      var v := VisitHere(l, r, id, now, clock);
      assert Lift(r, v).jobs == Lift(r, l.(jobs := v.jobs)).jobs;
    }
  }

  lemma {:induction false} RunLast(w: World, events: seq<Event>, e: Event)
    ensures Run(w, events + [e]) == Step(Run(w, events), e)
  {
    assert (events + [e])[..|events|] == events;
  }

  lemma {:induction false} VisitsLast(r: nat, ids: seq<string>, k: nat, now: nat, clocks: seq<real>)
    requires 0 < k <= |ids| <= |clocks|
    ensures Visits(r, ids, k, now, clocks) ==
            Visits(r, ids, k - 1, now, clocks) + [Visit(r, ids[k - 1], now, clocks[k - 1])]
  {
  }

  lemma {:induction false} TickStep(l: Local, r: nat, ids: seq<string>, k: nat, now: nat, clocks: seq<real>)
    requires 0 < k <= |ids| <= |clocks|
    ensures Lift(r, TickHere(l, r, ids, k, now, clocks)) ==
            Step(Lift(r, TickHere(l, r, ids, k - 1, now, clocks)), Visit(r, ids[k - 1], now, clocks[k - 1]))
  {
    VisitIsStep(TickHere(l, r, ids, k - 1, now, clocks), r, ids[k - 1], now, clocks[k - 1]);
  }

  /** A tick is the visits of its jobs in the common history. */
  lemma {:induction false} TickIsRun(l: Local, r: nat, ids: seq<string>, k: nat, now: nat, clocks: seq<real>)
    requires k <= |ids| <= |clocks|
    ensures Lift(r, TickHere(l, r, ids, k, now, clocks)) == Run(Lift(r, l), Visits(r, ids, k, now, clocks))
    decreases k
  {
    if k > 0 {
      var w, e := Lift(r, l), Visit(r, ids[k - 1], now, clocks[k - 1]);
      calc {
        Lift(r, TickHere(l, r, ids, k, now, clocks));
        { TickStep(l, r, ids, k, now, clocks); }
        Step(Lift(r, TickHere(l, r, ids, k - 1, now, clocks)), e);
        { TickIsRun(l, r, ids, k - 1, now, clocks); }
        Step(Run(w, Visits(r, ids, k - 1, now, clocks)), e);
        { RunLast(w, Visits(r, ids, k - 1, now, clocks), e); }
        Run(w, Visits(r, ids, k - 1, now, clocks) + [e]);
        { VisitsLast(r, ids, k, now, clocks); }
        Run(w, Visits(r, ids, k, now, clocks));
      }
    }
  }

  /** Scheduling and cancelling in the common history. */
  lemma {:induction false} EditIsStep(l: Local, r: nat, id: string, job: Job, now: nat)
    ensures Lift(r, l.(jobs := l.jobs - {id})) == Step(Lift(r, l), Cancel(r, id))
    ensures Lift(r, match Armed(job, now) case Some(j) => l.(jobs := l.jobs[id := j]) case None => l) ==
            Step(Lift(r, l), Schedule(r, id, job, now))
  {
    LiftPut(r, l, id, match Armed(job, now) case Some(j) => j case None => job);
  }

  class Scheduler {
    const replica: nat
    const lock: InMemoryLock
    var jobs: map<string, ScheduledJob>
    /** The keys of `jobs` in the order of their insertion. */
    var order: seq<string>
    /** What has been published to the bus. */
    var published: seq<Fire>
    /** The contents of the job objects. */
    ghost var states: map<string, Job>

    constructor (replica: nat, lock: InMemoryLock)
      ensures Valid() && Model() == Local(map[], lock.held, [])
      ensures this.replica == replica && this.lock == lock
    {
      this.replica := replica;
      this.lock := lock;
      jobs := map[];
      order := [];
      published := [];
      states := map[];
    }

    ghost function Objects(): set<ScheduledJob>
      reads `jobs
    {
      set id | id in jobs :: jobs[id]
    }

    ghost predicate Valid()
      reads this, Objects()
    {
      Distinct(order) && (forall id :: id in order <==> id in jobs) && Synced()
    }

    ghost predicate Synced()
      reads this, Objects()
    {
      && (forall id :: id in jobs <==> id in states)
      && (forall id :: id in jobs ==> jobs[id].id == id && jobs[id].State() == states[id])
    }

    ghost function Model(): Local
      reads this, lock
    {
      Local(states, lock.held, published)
    }

    method Schedule(job: ScheduledJob, now: nat) returns (raised: bool)
      requires Valid()
      modifies this, job
      ensures Valid()
      ensures raised == NextOf(job.trigger, now).Error?
      ensures raised ==> job.State() == old(job.State()) && Model() == old(Model()) && jobs == old(jobs)
      ensures raised ==> order == old(order)
      ensures !raised ==> Armed(old(job.State()), now) == Some(job.State()) && job.id in jobs && jobs[job.id] == job
      ensures !raised ==> Model() == old(Model()).(jobs := old(states)[job.id := job.State()])
      ensures !raised ==> order == if job.id in old(jobs) then old(order) else old(order) + [job.id]
    {
      raised := job.Arm(now);
      if !raised {
        Hold(job);
      }
    }

    /** `jobs[job.id] = job`: an id that is already there keeps its place. */
    method Hold(job: ScheduledJob)
      requires Distinct(order) && (forall id :: id in order <==> id in jobs) && jobs.Keys == states.Keys
      requires forall id :: id in jobs && id != job.id ==> jobs[id].id == id && jobs[id].State() == states[id]
      modifies `jobs, `order, `states
      ensures Valid() && jobs == old(jobs)[job.id := job] && states == old(states)[job.id := job.State()]
      ensures order == if job.id in old(jobs) then old(order) else old(order) + [job.id]
    {
      if job.id !in jobs {
        order := order + [job.id];
      }
      jobs := jobs[job.id := job];
      states := states[job.id := job.State()];
    }

    method Cancel(id: string)
      requires Valid()
      modifies this
      ensures Valid() && jobs == old(jobs) - {id} && order == Without(old(order), id)
      ensures Model() == old(Model()).(jobs := old(states) - {id})
    {
      WithoutMeaning(order, id);
      if id in jobs {
        order := Without(order, id);
      } else {
        WithoutNone(order, id);
      }
      jobs, states := jobs - {id}, states - {id};
    }

    /** One job of a tick: its name when it fires. */
    method VisitJob(id: string, now: nat, clock: real, ghost before: Local) returns (fired: seq<string>, raised: bool)
      requires Synced() && id in jobs && before == Model()
      modifies `published, `states, lock, jobs[id]
      ensures Synced()
      ensures Model() == VisitHere(before, replica, id, now, clock)
      ensures fired == NameHere(before, id, now, clock) && raised == RaisesHere(before, id, now, clock)
    {
      var job := jobs[id];
      fired, raised := [], false;
      if job.enabled && job.nextRun != None && job.nextRun.value <= now {
        var got := lock.Acquire(LockKey(id), clock, TTL);
        if got {
          published := published + [Fire(replica, id, now, clock, NextOf(job.trigger, now).Error?)];
          raised := job.Advance(now);
          states := states[id := job.State()];
          fired := [job.name];
        }
      }
    }

    /** The next job of a tick, and the names so far. */
    method VisitNext(k: nat, names: seq<string>, now: nat, clocks: seq<real>, ghost start: Local)
      returns (more: seq<string>, raised: bool)
      requires Synced() && k < |order| <= |clocks| && order[k] in jobs
      requires Model() == TickHere(start, replica, order, k, now, clocks)
      requires names == FiredNames(start, replica, order, k, now, clocks)
      modifies `published, `states, lock, jobs[order[k]]
      ensures Synced()
      ensures Model() == TickHere(start, replica, order, k + 1, now, clocks)
      ensures raised == LastRaises(start, replica, order, k + 1, now, clocks)
      ensures more == FiredNames(start, replica, order, k + 1, now, clocks)
    {
      var fired;
      fired, raised := VisitJob(order[k], now, clocks[k], TickHere(start, replica, order, k, now, clocks));
      more := names + fired;
    }

    /**
     Visits every job once, in order, up to the first whose trigger raises; the names
     are those of the jobs that fired (the caller sees them when none raises).
     */
    method Tick(now: nat, clocks: seq<real>) returns (names: seq<string>, visited: nat, raised: bool)
      requires Synced() && (forall id :: id in order ==> id in jobs) && |order| <= |clocks|
      modifies `published, `states, lock, Objects()
      ensures Synced() && visited <= |order|
      ensures Model() == TickHere(old(Model()), replica, order, visited, now, clocks)
      ensures raised == LastRaises(old(Model()), replica, order, visited, now, clocks)
      ensures raised || visited == |order|
      ensures names == FiredNames(old(Model()), replica, order, visited, now, clocks)
    {
      names, visited, raised := [], 0, false;
      ghost var start := Model();
      while visited < |order| && !raised
        invariant visited <= |order| && Synced()
        invariant Model() == TickHere(start, replica, order, visited, now, clocks)
        invariant raised == LastRaises(start, replica, order, visited, now, clocks)
        invariant names == FiredNames(start, replica, order, visited, now, clocks)
        decreases |order| - visited
      {
        names, raised := VisitNext(visited, names, now, clocks, start);
        visited := visited + 1;
      }
    }
  }
}

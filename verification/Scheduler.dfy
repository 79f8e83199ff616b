/**
 Jobs, triggers and the single-fire lock as values: replicas of a scheduler share one
 lock, and the lemmas speak about whole histories of schedules, cancels and visits.
 */
module Schedules {
  import opened Common
  import opened Calendar
  import opened Crons

  datatype Trigger = OnDate(when: int) | OnInterval(length: int, anchor: Option<int>) | OnCron(expr: Expr)

  const LAST_INSTANT := (LAST_MINUTE + 1) * MINUTE - 1

  /** The next instant after `now`; an instant outside the calendar raises. */
  function NextOf(t: Trigger, now: nat): Next {
    match t
    case OnDate(when) => if when > now then Due(when) else Never
    case OnInterval(length, anchor) =>
      var next := (match anchor case Some(a) => a case None => now as int) + length;
      if 0 <= next <= LAST_INSTANT then Due(next) else Error
    case OnCron(expr) => NextAfter(expr, now)
  }

  datatype Job = Job(name: string, trigger: Trigger, enabled: bool, nextRun: Option<int>, lastRun: Option<int>)

  const TTL := 30.0

  function LockKey(id: string): string {
    "job:" + id
  }

  /** The lock is free when it was never taken, or its time is up. */
  predicate Free(held: map<string, real>, key: string, clock: real) {
    key in held ==> held[key] == 0.0 || held[key] <= clock
  }

  predicate IsDue(j: Job, now: nat) {
    j.enabled && j.nextRun.Some? && j.nextRun.value <= now
  }

  /** A job after it has been published at `now`; a trigger that raises leaves its next run behind. */
  function Fired(j: Job, now: nat): Job {
    match NextOf(j.trigger, now)
    case Due(when) => j.(lastRun := Some(now), nextRun := Some(when))
    case Never => j.(lastRun := Some(now), nextRun := None, enabled := false)
    case Error => j.(lastRun := Some(now))
  }

  datatype Event =
    | Schedule(replica: nat, id: string, job: Job, now: nat)
    | Cancel(replica: nat, id: string)
    | Visit(replica: nat, id: string, now: nat, clock: real)

  datatype Fire = Fire(replica: nat, id: string, now: nat, clock: real, raised: bool)

  datatype World = World(jobs: map<(nat, string), Job>, held: map<string, real>, fires: seq<Fire>)

  /** A visit of a job that is there, is due and gets the lock fires it; any other leaves all as it was. */
  predicate WillFire(w: World, e: Event)
    requires e.Visit?
  {
    && (e.replica, e.id) in w.jobs
    && IsDue(w.jobs[(e.replica, e.id)], e.now)
    && Free(w.held, LockKey(e.id), e.clock)
  }

  function Armed(j: Job, now: nat): Option<Job> {
    match NextOf(j.trigger, now)
    case Due(when) => Some(j.(nextRun := Some(when)))
    case Never => Some(j.(nextRun := None))
    case Error => None
  }

  function Step(w: World, e: Event): World {
    match e
    case Schedule(r, id, job, now) =>
      (match Armed(job, now) case Some(j) => w.(jobs := w.jobs[(r, id) := j]) case None => w)
    case Cancel(r, id) => w.(jobs := w.jobs - {(r, id)})
    case Visit(r, id, now, clock) =>
      if !WillFire(w, e) then w
      else
        var j := w.jobs[(r, id)];
        World(w.jobs[(r, id) := Fired(j, now)], w.held[LockKey(id) := clock + TTL],
              w.fires + [Fire(r, id, now, clock, NextOf(j.trigger, now).Error?)])
  }

  function Run(w: World, events: seq<Event>): World {
    if events == [] then w else Step(Run(w, events[..|events| - 1]), events[|events| - 1])
  }

  // ------------------------------------------------------------------ the lock

  ghost predicate Spaced(w: World) {
    && (forall i :: 0 <= i < |w.fires| ==> w.fires[i].clock >= 0.0)
    && (forall i, j :: 0 <= i < j < |w.fires| && w.fires[i].id == w.fires[j].id ==>
       w.fires[j].clock - w.fires[i].clock >= TTL)
    && (forall i :: 0 <= i < |w.fires| ==>
          LockKey(w.fires[i].id) in w.held && w.held[LockKey(w.fires[i].id)] >= w.fires[i].clock + TTL)
  }

  lemma {:induction false} LockKeysDiffer(a: string, b: string)
    ensures LockKey(a) == LockKey(b) <==> a == b
  {
    assert LockKey(a)[4..] == a && LockKey(b)[4..] == b;
  }

  lemma {:induction false} StepKeepsSpaced(w: World, e: Event)
    requires Spaced(w) && (e.Visit? ==> e.clock >= 0.0)
    ensures Spaced(Step(w, e))
  {
    if e.Visit? && WillFire(w, e) {
      var v, n := Step(w, e), |w.fires|;
      forall i | 0 <= i <= n
        ensures LockKey(v.fires[i].id) in v.held && v.held[LockKey(v.fires[i].id)] >= v.fires[i].clock + TTL
        ensures i < n && v.fires[i].id == e.id ==> e.clock - v.fires[i].clock >= TTL
      {
        LockKeysDiffer(v.fires[i].id, e.id);
        if i < n {
          assert v.fires[i] == w.fires[i];
        }
      }
    }
  }

  /**
   Whatever the replicas do and whatever wall-clock times they use, two fires of one
   job id are at least one TTL apart on the clock of the lock they share.
   */
  lemma {:induction false} FiresAreSpaced(jobs: map<(nat, string), Job>, events: seq<Event>)
    requires forall e :: e in events && e.Visit? ==> e.clock >= 0.0
    ensures Spaced(Run(World(jobs, map[], []), events))
    ensures
      var fires := Run(World(jobs, map[], []), events).fires;
      forall i, j :: 0 <= i < j < |fires| && fires[i].id == fires[j].id ==> fires[j].clock - fires[i].clock >= 30.0
  {
    if events != [] {
      var earlier := events[..|events| - 1];
      FiresAreSpaced(jobs, earlier);
      StepKeepsSpaced(Run(World(jobs, map[], []), earlier), events[|events| - 1]);
    }
  }

  // ------------------------------------------------------------------ occurrences

  /** The fires of one job on one replica. */
  function Of(fires: seq<Fire>, r: nat, id: string): seq<Fire> {
    if fires == [] then []
    else
      var last := fires[|fires| - 1];
      Of(fires[..|fires| - 1], r, id) + if last.replica == r && last.id == id then [last] else []
  }

  predicate Touches(e: Event, r: nat, id: string) {
    !e.Visit? && e.replica == r && e.id == id
  }

  function Since(start: nat, fires: seq<Fire>): nat {
    if fires == [] then start else fires[|fires| - 1].now
  }

  /** Each fire answers a run the trigger announced when it was last asked. */
  ghost predicate Answers(ask: nat -> Next, start: nat, fires: seq<Fire>) {
    forall k :: 0 <= k < |fires| ==> Answered(ask(Since(start, fires[..k])), fires[k].now)
  }

  predicate Answered(next: Next, now: nat) {
    next.Due? && next.when <= now
  }

  function Asking(t: Trigger): nat -> Next {
    (now: nat) => NextOf(t, now)
  }

  /** A job that waits for what its trigger announced at its last fire, or when it was scheduled. */
  predicate Waits(j: Job, t: Trigger, start: nat, fires: seq<Fire>) {
    && j.trigger == t
    && (match NextOf(t, Since(start, fires))
        case Due(when) => j.nextRun == Some(when)
        case Never => j.nextRun == None
        case Error => false)
    && (fires != [] ==> j.lastRun == Some(Since(start, fires)) && (j.nextRun == None ==> !j.enabled))
  }

  lemma {:induction false} OfAppend(fires: seq<Fire>, f: Fire, r: nat, id: string)
    ensures Of(fires + [f], r, id) == Of(fires, r, id) + if f.replica == r && f.id == id then [f] else []
  {
    assert (fires + [f])[..|fires|] == fires;
  }

  lemma {:induction false} AnswersAppend(ask: nat -> Next, start: nat, fires: seq<Fire>, f: Fire)
    requires Answers(ask, start, fires) && Answered(ask(Since(start, fires)), f.now)
    ensures Answers(ask, start, fires + [f])
  {
    forall k | 0 <= k <= |fires|
      ensures Answered(ask(Since(start, (fires + [f])[..k])), (fires + [f])[k].now)
    {
      assert (fires + [f])[..k] == fires[..k];
      assert fires[..|fires|] == fires;
    }
  }

  lemma {:induction false} FiredWaits(j: Job, t: Trigger, start: nat, fires: seq<Fire>, f: Fire)
    requires Waits(j, t, start, fires) && IsDue(j, f.now) && !NextOf(t, f.now).Error?
    ensures Waits(Fired(j, f.now), t, start, fires + [f])
    ensures Answered(Asking(t)(Since(start, fires)), f.now)
  {
    assert Since(start, fires + [f]) == f.now;
  }

  /** The job a visit fires, when it fires. */
  function FireOf(w: World, e: Event): Fire
    requires e.Visit? && WillFire(w, e)
  {
    Fire(e.replica, e.id, e.now, e.clock, NextOf(w.jobs[(e.replica, e.id)].trigger, e.now).Error?)
  }

  lemma {:induction false} StepElsewhere(w: World, e: Event, r: nat, id: string)
    requires (r, id) in w.jobs && !Touches(e, r, id)
    requires e.Visit? && WillFire(w, e) ==> (e.replica, e.id) != (r, id)
    ensures (r, id) in Step(w, e).jobs && Step(w, e).jobs[(r, id)] == w.jobs[(r, id)]
    ensures Of(Step(w, e).fires, r, id) == Of(w.fires, r, id)
  {
    if e.Visit? && WillFire(w, e) {
      OfAppend(w.fires, FireOf(w, e), r, id);
    }
  }

  lemma {:induction false} StepOwn(w: World, e: Event)
    requires e.Visit? && WillFire(w, e)
    ensures
      var key, v := (e.replica, e.id), Step(w, e);
      && key in v.jobs && v.jobs[key] == Fired(w.jobs[key], e.now)
      && Of(v.fires, e.replica, e.id) == Of(w.fires, e.replica, e.id) + [FireOf(w, e)]
  {
    OfAppend(w.fires, FireOf(w, e), e.replica, e.id);
  }

  /** One event carries the account of one job forward. */
  lemma {:induction false} StepAnswers(w: World, e: Event, r: nat, id: string, t: Trigger, start: nat)
    requires (r, id) in w.jobs && !Touches(e, r, id)
    requires Waits(w.jobs[(r, id)], t, start, Of(w.fires, r, id)) && Answers(Asking(t), start, Of(w.fires, r, id))
    requires forall f :: f in Of(Step(w, e).fires, r, id) ==> !f.raised
    ensures (r, id) in Step(w, e).jobs
    ensures Waits(Step(w, e).jobs[(r, id)], t, start, Of(Step(w, e).fires, r, id))
    ensures Answers(Asking(t), start, Of(Step(w, e).fires, r, id))
  {
    if e.Visit? && WillFire(w, e) && (e.replica, e.id) == (r, id) {
      StepOwn(w, e);
      assert FireOf(w, e) in Of(Step(w, e).fires, r, id);
      FiredWaits(w.jobs[(r, id)], t, start, Of(w.fires, r, id), FireOf(w, e));
      AnswersAppend(Asking(t), start, Of(w.fires, r, id), FireOf(w, e));
    } else {
      StepElsewhere(w, e, r, id);
    }
  }

  /** A job just scheduled, before it has fired on its replica. */
  predicate Begins(w: World, r: nat, id: string, t: Trigger, start: nat) {
    Of(w.fires, r, id) == [] && (r, id) in w.jobs && Waits(w.jobs[(r, id)], t, start, [])
  }

  /** Scheduling puts a job in that state, or raises and leaves all as it was. */
  lemma {:induction false} ScheduleBegins(w: World, r: nat, id: string, job: Job, now: nat)
    requires Of(w.fires, r, id) == []
    ensures
      var v := Step(w, Schedule(r, id, job, now));
      if NextOf(job.trigger, now).Error? then v == w
      else
        && Begins(v, r, id, job.trigger, now)
        && v.jobs[(r, id)] ==
           job.(nextRun := if NextOf(job.trigger, now).Due? then Some(NextOf(job.trigger, now).when) else None)
        && (forall key :: key in w.jobs && key != (r, id) ==> key in v.jobs && v.jobs[key] == w.jobs[key])
  {
    assert Since(now, []) == now;
  }

  /**
   As long as a job is not scheduled anew or cancelled on its replica and its trigger
   does not raise, every fire of it is an answer to what the trigger announced at the
   previous fire (at first, when it was scheduled), whatever the other jobs and
   replicas do and however the wall clock jumps.
   */
  lemma {:induction false} FiresAreAnswers(w: World, events: seq<Event>, r: nat, id: string, t: Trigger, start: nat)
    requires Begins(w, r, id, t, start)
    requires forall e :: e in events ==> !Touches(e, r, id)
    requires forall f :: f in Of(Run(w, events).fires, r, id) ==> !f.raised
    ensures (r, id) in Run(w, events).jobs
    ensures Answers(Asking(t), start, Of(Run(w, events).fires, r, id))
    ensures Waits(Run(w, events).jobs[(r, id)], t, start, Of(Run(w, events).fires, r, id))
  {
    if events != [] {
      var earlier, e := events[..|events| - 1], events[|events| - 1];
      var v := Run(w, earlier);
      forall f | f in Of(v.fires, r, id)
        ensures !f.raised
      {
        OfGrows(v, e, r, id);
      }
      FiresAreAnswers(w, earlier, r, id, t, start);
      StepAnswers(v, e, r, id, t, start);
    }
  }

  lemma {:induction false} OfGrows(w: World, e: Event, r: nat, id: string)
    ensures forall f :: f in Of(w.fires, r, id) ==> f in Of(Step(w, e).fires, r, id)
  {
    if e.Visit? && WillFire(w, e) {
      OfAppend(w.fires, Step(w, e).fires[|w.fires|], r, id);
    }
  }

  /** A trigger whose answers are always later than the question. */
  predicate Advances(t: Trigger) {
    match t
    case OnDate(_) => true
    case OnInterval(length, anchor) => anchor == None && length > 0
    case OnCron(_) => true
  }

  /** For an anchored or non-positive interval the answer is later only until the one instant it names. */
  lemma {:induction false} NextIsLater(t: Trigger, now: nat)
    requires NextOf(t, now).Due?
    ensures NextOf(t, now).when > now <==>
            t.OnInterval? ==> (match t.anchor case Some(a) => a + t.length > now case None => t.length > 0)
    ensures Advances(t) ==> NextOf(t, now).when > now
  {
    if t.OnCron? {
      var m := DueIsMinute(t.expr, now);
    }
  }

  /**
   The fires of such a job go forward in wall-clock time, even when the wall clock
   itself is set back in between, and its next run lies after its last.
   */
  lemma {:induction false} FiresGoForward(w: World, events: seq<Event>, r: nat, id: string, t: Trigger, start: nat)
    requires Begins(w, r, id, t, start) && Advances(t)
    requires forall e :: e in events ==> !Touches(e, r, id)
    requires forall f :: f in Of(Run(w, events).fires, r, id) ==> !f.raised
    ensures Forward(start, Of(Run(w, events).fires, r, id))
    ensures (r, id) in Run(w, events).jobs
    ensures
      var j := Run(w, events).jobs[(r, id)];
      j.lastRun.Some? && j.nextRun.Some? && Of(Run(w, events).fires, r, id) != [] ==> j.nextRun.value > j.lastRun.value
  {
    FiresAreAnswers(w, events, r, id, t, start);
    var fires := Of(Run(w, events).fires, r, id);
    forall now: nat | NextOf(t, now).Due?
      ensures NextOf(t, now).when > now
    {
      NextIsLater(t, now);
    }
    AnswersGoForward(Asking(t), start, fires);
  }

  /** Fires at strictly increasing instants after `start`. */
  ghost predicate Forward(start: nat, fires: seq<Fire>) {
    && (forall i :: 0 <= i < |fires| ==> start < fires[i].now <= Since(start, fires))
    && (forall i, j :: 0 <= i < j < |fires| ==> fires[i].now < fires[j].now)
  }

  lemma {:induction false} ForwardAppend(start: nat, fires: seq<Fire>, f: Fire)
    requires Forward(start, fires) && f.now > Since(start, fires)
    ensures Forward(start, fires + [f])
  {
    assert Since(start, fires) >= start;
    assert Since(start, fires + [f]) == f.now;
  }

  lemma {:induction false} AnswersGoForward(ask: nat -> Next, start: nat, fires: seq<Fire>)
    requires Answers(ask, start, fires)
    requires forall now: nat :: ask(now).Due? ==> ask(now).when > now
    ensures Forward(start, fires)
  {
    if fires != [] {
      var k := |fires| - 1;
      var earlier := fires[..k];
      forall i | 0 <= i < k
        ensures Answered(ask(Since(start, earlier[..i])), earlier[i].now)
      {
        assert earlier[..i] == fires[..i];
      }
      AnswersGoForward(ask, start, earlier);
      assert Answered(ask(Since(start, earlier)), fires[k].now);
      assert fires == earlier + [fires[k]];
      ForwardAppend(start, earlier, fires[k]);
    }
  }

  /** A one-shot job fires at most once on its replica, and never before its time. */
  lemma {:induction false} DateFiresOnce(w: World, events: seq<Event>, r: nat, id: string, when: int, start: nat)
    requires Begins(w, r, id, OnDate(when), start)
    requires forall e :: e in events ==> !Touches(e, r, id)
    ensures |Of(Run(w, events).fires, r, id)| <= 1
    ensures forall f :: f in Of(Run(w, events).fires, r, id) ==> f.now >= when > start
  {
    DateNeverRaises(w, events, r, id, when, start);
    FiresAreAnswers(w, events, r, id, OnDate(when), start);
    DateAnswersOnce(when, start, Of(Run(w, events).fires, r, id));
  }

  lemma {:induction false} DateAnswersOnce(when: int, start: nat, fires: seq<Fire>)
    requires Answers(Asking(OnDate(when)), start, fires)
    ensures |fires| <= 1
    ensures forall f :: f in fires ==> f.now >= when > start
  {
    FirstTwo(Asking(OnDate(when)), start, fires);
  }

  lemma {:induction false} FirstTwo(ask: nat -> Next, start: nat, fires: seq<Fire>)
    requires Answers(ask, start, fires)
    ensures |fires| >= 1 ==> Answered(ask(start), fires[0].now)
    ensures |fires| >= 2 ==> Answered(ask(fires[0].now), fires[1].now)
  {
    if |fires| >= 1 {
      assert fires[..0] == [];
      if |fires| >= 2 {
        assert Since(start, fires[..1]) == fires[0].now;
      }
    }
  }

  lemma {:induction false} DateNeverRaises(w: World, events: seq<Event>, r: nat, id: string, when: int, start: nat)
    requires Begins(w, r, id, OnDate(when), start)
    requires forall e :: e in events ==> !Touches(e, r, id)
    ensures forall f :: f in Of(Run(w, events).fires, r, id) ==> !f.raised
    ensures (r, id) in Run(w, events).jobs && Run(w, events).jobs[(r, id)].trigger == OnDate(when)
  {
    if events != [] {
      var earlier, e := events[..|events| - 1], events[|events| - 1];
      DateNeverRaises(w, earlier, r, id, when, start);
      assert e in events && !Touches(e, r, id);
      DateStep(Run(w, earlier), e, r, id, when);
    }
  }

  lemma {:induction false} DateStep(w: World, e: Event, r: nat, id: string, when: int)
    requires (r, id) in w.jobs && w.jobs[(r, id)].trigger == OnDate(when) && !Touches(e, r, id)
    requires forall f :: f in Of(w.fires, r, id) ==> !f.raised
    ensures forall f :: f in Of(Step(w, e).fires, r, id) ==> !f.raised
    ensures (r, id) in Step(w, e).jobs && Step(w, e).jobs[(r, id)].trigger == OnDate(when)
  {
    if e.Visit? && WillFire(w, e) && (e.replica, e.id) == (r, id) {
      StepOwn(w, e);
    } else {
      StepElsewhere(w, e, r, id);
    }
  }

  /**
   One fire per replica is all the lock promises: a replica turned away keeps its run
   and takes it when the TTL is over.
   */
  lemma {:induction false} TwoReplicasFireTwice(id: string, j: Job)
    requires j == Job("once", OnDate(100), true, Some(100), None)
    ensures
      var w := World(map[(0, id) := j, (1, id) := j], map[], []);
      var events := [Visit(0, id, 100, 0.0), Visit(1, id, 100, 29.0), Visit(1, id, 101, 30.0)];
      |Run(w, events).fires| == 2
  {
    var w := World(map[(0, id) := j, (1, id) := j], map[], []);
    var a, b, c := Visit(0, id, 100, 0.0), Visit(1, id, 100, 29.0), Visit(1, id, 101, 30.0);
    assert [a, b, c][..2] == [a, b] && [a, b][..1] == [a] && [a][..0] == [];
    var w1 := Step(w, a);
    assert Run(w, [a]) == w1;
    assert w1.held[LockKey(id)] == 30.0;
    assert Step(w1, b) == w1;
    assert Run(w, [a, b]) == w1;
    assert WillFire(w1, c);
  }

  // ------------------------------------------------------------------ intervals

  /** An interval counts from its anchor, or from the question; outside the calendar it raises. */
  lemma {:induction false} IntervalAnswers(length: int, anchor: int, now: nat)
    ensures 0 <= now + length <= LAST_INSTANT ==> NextOf(OnInterval(length, None), now) == Due(now + length)
    ensures 0 <= anchor + length <= LAST_INSTANT ==>
              NextOf(OnInterval(length, Some(anchor)), now) == Due(anchor + length)
    ensures NextOf(OnInterval(length, None), now) == Error <==> now + length < 0 || now + length > LAST_INSTANT
    ensures LAST_INSTANT + 1 == (At(Date(9999, 12, 31), 23, 59) + 1) * 60_000_000
  {
    Anchors();
  }

  /**
   An un-anchored interval job: its first fire is no earlier than `length` after it was
   scheduled, each later one no earlier than `length` after the one before, and its next
   run is due exactly `length` after its last.
   */
  lemma {:induction false} IntervalFiresApart(w: World, events: seq<Event>, r: nat, id: string, length: nat, start: nat)
    requires Begins(w, r, id, OnInterval(length, None), start)
    requires forall e :: e in events ==> !Touches(e, r, id)
    requires forall f :: f in Of(Run(w, events).fires, r, id) ==> !f.raised
    ensures
      var fires := Of(Run(w, events).fires, r, id);
      && (fires != [] ==> fires[0].now >= start + length)
      && (forall k :: 0 <= k < |fires| - 1 ==> fires[k + 1].now >= fires[k].now + length)
      && (r, id) in Run(w, events).jobs
      && Run(w, events).jobs[(r, id)].nextRun ==
         Some((if fires == [] then start else fires[|fires| - 1].now) + length)
  {
    FiresAreAnswers(w, events, r, id, OnInterval(length, None), start);
    IntervalGaps(length, start, Of(Run(w, events).fires, r, id));
    IntervalWaits(Run(w, events).jobs[(r, id)], length, start, Of(Run(w, events).fires, r, id));
  }

  lemma {:induction false} IntervalWaits(j: Job, length: nat, start: nat, fires: seq<Fire>)
    requires Waits(j, OnInterval(length, None), start, fires)
    ensures j.nextRun == Some(Since(start, fires) + length)
  {
  }

  lemma {:induction false} SinceFront(start: nat, fires: seq<Fire>, k: nat)
    requires k <= |fires|
    ensures Since(start, fires[..k]) == if k == 0 then start else fires[k - 1].now
  {
  }

  lemma {:induction false} IntervalGaps(length: nat, start: nat, fires: seq<Fire>)
    requires Answers(Asking(OnInterval(length, None)), start, fires)
    ensures fires != [] ==> fires[0].now >= start + length
    ensures forall k :: 0 <= k < |fires| - 1 ==> fires[k + 1].now >= fires[k].now + length
  {
    forall k | 0 <= k < |fires|
      ensures fires[k].now >= (if k == 0 then start else fires[k - 1].now) + length
    {
      SinceFront(start, fires, k);
      assert Answered(Asking(OnInterval(length, None))(Since(start, fires[..k])), fires[k].now);
    }
    forall k | 0 <= k < |fires| - 1
      ensures fires[k + 1].now >= fires[k].now + length
    {
      assert fires[k + 1].now >= (if k + 1 == 0 then start else fires[k + 1 - 1].now) + length;
    }
  }

  // ------------------------------------------------------------------ the first fire

  /** A job with its first run at `when`, never fired, its lock never taken: a visit fires it exactly from `when` on. */
  lemma {:induction false} FiresFromItsTime(w: World, r: nat, id: string, when: int, now: nat, clock: real)
    requires (r, id) in w.jobs && w.jobs[(r, id)].enabled && w.jobs[(r, id)].nextRun == Some(when)
    requires "job:" + id !in w.held
    ensures
      var v := Step(w, Visit(r, id, now, clock));
      if now >= when then
        && |v.fires| == |w.fires| + 1 && v.fires[|w.fires|].replica == r && v.fires[|w.fires|].id == id
        && v.held == w.held["job:" + id := clock + 30.0]
        && (r, id) in v.jobs && v.jobs[(r, id)].lastRun == Some(now)
        && (match NextOf(w.jobs[(r, id)].trigger, now)
            case Due(next) => v.jobs[(r, id)].nextRun == Some(next) && v.jobs[(r, id)].enabled
            case Never => v.jobs[(r, id)].nextRun == None && !v.jobs[(r, id)].enabled
            case Error =>
              v.jobs[(r, id)].nextRun == Some(when) && v.jobs[(r, id)].enabled && v.fires[|w.fires|].raised)
      else v == w
  {
  }
}

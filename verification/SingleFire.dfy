/**
 How far the promise of a single fire across replicas goes: exactly as far as the
 guard of the lock, which is the time to live of the last fire.
 */
module SingleFires {
  import opened Common
  import opened Schedules

  /** How often a job id fired, on any replica. */
  function CountOf(fires: seq<Fire>, id: string): nat {
    if fires == [] then 0
    else CountOf(fires[..|fires| - 1], id) + if fires[|fires| - 1].id == id then 1 else 0
  }

  lemma {:induction false} CountAppend(fires: seq<Fire>, f: Fire, id: string)
    ensures CountOf(fires + [f], id) == CountOf(fires, id) + if f.id == id then 1 else 0
  {
    assert (fires + [f])[..|fires|] == fires;
  }

  /** Nothing is scheduled or cancelled under the id. */
  predicate Undisturbed(events: seq<Event>, id: string) {
    forall e :: e in events && !e.Visit? ==> e.id != id
  }

  /** The lock of the id was taken at `taken`. */
  predicate TakenAt(w: World, id: string, taken: real) {
    taken >= 0.0 && LockKey(id) in w.held && w.held[LockKey(id)] == taken + 30.0
  }

  /** A visit that finds its job due, by the jobs of `w`, and the time to live over. */
  predicate Passes(w: World, e: Event, id: string, taken: real) {
    && e.Visit? && e.id == id
    && (e.replica, id) in w.jobs && IsDue(w.jobs[(e.replica, id)], e.now)
    && e.clock >= taken + 30.0
  }

  /** As far as the id goes, nothing has happened since `w`. */
  ghost predicate Unchanged(w: World, v: World, id: string) {
    && (forall r: nat :: (r, id) in v.jobs <==> (r, id) in w.jobs)
    && (forall r: nat :: (r, id) in w.jobs && (r, id) in v.jobs ==> v.jobs[(r, id)] == w.jobs[(r, id)])
    && LockKey(id) in w.held && LockKey(id) in v.held && v.held[LockKey(id)] == w.held[LockKey(id)]
    && CountOf(v.fires, id) == CountOf(w.fires, id)
  }

  lemma {:induction false} CountNeverFalls(w: World, e: Event, id: string)
    ensures CountOf(Step(w, e).fires, id) >= CountOf(w.fires, id)
  {
    if e.Visit? && WillFire(w, e) {
      CountAppend(w.fires, FireOf(w, e), id);
    }
  }

  /** A step that does not fire the id leaves it alone. */
  lemma {:induction false} StepLeaves(w: World, v: World, e: Event, id: string)
    requires Unchanged(w, v, id) && (!e.Visit? ==> e.id != id)
    requires e.Visit? && e.id == id ==> !WillFire(v, e)
    ensures Unchanged(w, Step(v, e), id)
  {
    if e.Visit? && WillFire(v, e) {
      CountAppend(v.fires, FireOf(v, e), id);
      LockKeysDiffer(e.id, id);
    }
  }

  /** A visit fires exactly when it passes the guard, as long as nothing has happened to the id. */
  lemma {:induction false} FiresWhenItPasses(w: World, v: World, e: Event, id: string, taken: real)
    requires TakenAt(w, id, taken) && Unchanged(w, v, id) && e.Visit? && e.id == id
    ensures WillFire(v, e) <==> Passes(w, e, id, taken)
  {
  }

  /** Up to the first visit that passes the guard nothing happens to the id, and then it fires. */
  lemma {:induction false} UntilOnePasses(w: World, events: seq<Event>, id: string, taken: real)
    requires TakenAt(w, id, taken) && Undisturbed(events, id)
    ensures (forall e :: e in events ==> !Passes(w, e, id, taken)) ==> Unchanged(w, Run(w, events), id)
    ensures (exists e :: e in events && Passes(w, e, id, taken)) ==>
              CountOf(Run(w, events).fires, id) > CountOf(w.fires, id)
  {
    if events != [] {
      var k := |events| - 1;
      var earlier, e := events[..k], events[k];
      assert events == earlier + [e];
      UntilOnePasses(w, earlier, id, taken);
      var v := Run(w, earlier);
      CountNeverFalls(v, e, id);
      if forall d :: d in earlier ==> !Passes(w, d, id, taken) {
        LastEvent(w, v, e, id, taken);
      }
    }
  }

  lemma {:induction false} LastEvent(w: World, v: World, e: Event, id: string, taken: real)
    requires TakenAt(w, id, taken) && Unchanged(w, v, id) && (!e.Visit? ==> e.id != id)
    ensures if Passes(w, e, id, taken) then CountOf(Step(v, e).fires, id) > CountOf(w.fires, id)
            else Unchanged(w, Step(v, e), id)
  {
    if e.Visit? && e.id == id {
      FiresWhenItPasses(w, v, e, id, taken);
    }
    if Passes(w, e, id, taken) {
      CountAppend(v.fires, FireOf(v, e), id);
    } else {
      StepLeaves(w, v, e, id);
    }
  }

  /**
   The guard of the lock, for jobs of any kind on any number of replicas.  After the
   lock of an id was taken at `taken`, the id does not fire again if and only if no
   visit finds its job due at a lock clock of at least `taken` plus the time to live.
   */
  lemma {:induction false} QuietExactlyWhen(w: World, events: seq<Event>, id: string, taken: real)
    requires TakenAt(w, id, taken) && Undisturbed(events, id)
    ensures CountOf(Run(w, events).fires, id) == CountOf(w.fires, id) <==>
            forall e :: e in events ==> !Passes(w, e, id, taken)
  {
    UntilOnePasses(w, events, id, taken);
  }

  // ------------------------------------------------------------------ one-shot jobs

  /**
   Every replica that holds the id holds it as a one-shot job: waiting for its time, scheduled after it
   and so without a next run, or over.
   */
  ghost predicate OneShot(w: World, id: string, when: int) {
    forall r: nat :: (r, id) in w.jobs ==>
      && w.jobs[(r, id)].trigger == OnDate(when)
      && (w.jobs[(r, id)].enabled && w.jobs[(r, id)].nextRun.Some? ==> w.jobs[(r, id)].nextRun == Some(when))
  }

  /** A visit of a replica that still waits, at or after the time of the job, once the time to live is over. */
  predicate SecondChance(w: World, first: Event, e: Event, id: string, when: int)
    requires first.Visit?
  {
    && e.Visit? && e.id == id && e.replica != first.replica
    && (e.replica, id) in w.jobs && w.jobs[(e.replica, id)].enabled && w.jobs[(e.replica, id)].nextRun.Some?
    && e.now >= when && e.clock >= first.clock + 30.0
  }

  /**
   A one-shot job held by several replicas.  Once a visit has fired it, it does not
   fire again if and only if no other replica that still waits for it is visited at
   or after its time with the lock clock at or past the end of the time to live.
   */
  lemma {:induction false} OneShotFiresOnceExactlyWhen(w: World, first: Event, events: seq<Event>, id: string,
                                                       when: int)
    requires OneShot(w, id, when) && Undisturbed(events, id)
    requires first.Visit? && first.id == id && first.clock >= 0.0 && WillFire(w, first)
    ensures CountOf(Run(Step(w, first), events).fires, id) == CountOf(w.fires, id) + 1 <==>
            forall e :: e in events ==> !SecondChance(w, first, e, id, when)
  {
    var v := Step(w, first);
    CountAppend(w.fires, FireOf(w, first), id);
    QuietExactlyWhen(v, events, id, first.clock);
    forall e | e in events
      ensures Passes(v, e, id, first.clock) <==> SecondChance(w, first, e, id, when)
    {
      PassesIsSecondChance(w, first, e, id, when);
    }
  }

  lemma {:induction false} PassesIsSecondChance(w: World, first: Event, e: Event, id: string, when: int)
    requires OneShot(w, id, when)
    requires first.Visit? && first.id == id && WillFire(w, first)
    ensures Passes(Step(w, first), e, id, first.clock) <==> SecondChance(w, first, e, id, when)
  {
    var v := Step(w, first);
    assert v.jobs[(first.replica, id)] == Fired(w.jobs[(first.replica, id)], first.now);
    assert !v.jobs[(first.replica, id)].enabled;
  }
}

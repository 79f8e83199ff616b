/** Crash and resume: when an interrupted and resumed run is as good as an uninterrupted one. */
module WorkflowResume {
  import opened Common
  import opened Workflows

  datatype RunStatus = NotStarted | Running | Succeeded | Broken

  datatype RunRecord = RunRecord(state: State, status: RunStatus, cursor: nat)

  /** The steps an execution goes through start at the cursor; there are none when it lies beyond the end. */
  function From(wf: Workflow, cursor: nat): (i: nat)
    ensures i <= |wf| && (cursor <= |wf| ==> i == cursor)
  {
    if cursor <= |wf| then cursor else |wf|
  }

  /** One execution of a run, from its cursor: what `run` and `resume` have in common. */
  function Execute(wf: Workflow, r: RunRecord, fault: Option<Fault>): RunRecord {
    match Go(wf, From(wf, r.cursor), Before, r.state, fault)
    case Completed(s, _) => RunRecord(s, Succeeded, |wf|)
    case Failed(s, cursor, message, _) =>
      RunRecord(s[ERROR_KEY := Text(message)], Broken, if 0 <= cursor <= |wf| then cursor else |wf|)
  }

  /**
   One crash.  After a fault at the k-th call the run can be resumed in place, its
   remaining calls and final state being those of the undisturbed execution,
   exactly when the condition of the interrupted step holds of the saved state.
   */
  lemma {:induction false} ResumesInPlaceExactlyWhen(wf: Workflow, s: State, f: Fault)
    requires AllIgnoreError(wf) && Harmless(f)
    requires Go(wf, 0, Before, s, None).Completed? && f.after < |Go(wf, 0, Before, s, None).calls|
    ensures
      var clean := Go(wf, 0, Before, s, None);
      var r := Execute(wf, RunRecord(s, NotStarted, 0), Some(f));
      var resumed := Go(wf, r.cursor, Before, r.state, None);
      && r.status == Broken && r.cursor < |wf|
      && (AlikeCompleted(Completed(clean.state, clean.calls[f.after..]), resumed) <==> Passes(wf[r.cursor], r.state))
  {
    FaultStops(wf, 0, Before, s, f);
    var clean := Go(wf, 0, Before, s, None);
    var c := clean.calls[f.after];
    var r := Execute(wf, RunRecord(s, NotStarted, 0), Some(f));
    assert Same(r.state, c.state) by {
      assert Same(f.leaves(c.state), c.state);
      assert Strip(r.state) == Strip(f.leaves(c.state));
    }
    assert IgnoresError(wf[c.step]);
    if Passes(wf[r.cursor], r.state) {
      RestFromCall(wf, 0, Before, s, f.after);
      GoAlike(wf, c.step, Before, c.state, Before, r.state);
    } else {
      CallsStartLater(wf, r.cursor + 1, Before, r.state);
    }
  }

  /** The calls of an execution are of its first step or later ones. */
  lemma {:induction false} CallsStartLater(wf: Workflow, i: nat, phase: Phase, s: State)
    requires i <= |wf| && (phase.After? ==> i < |wf|)
    ensures forall c :: c in Go(wf, i, phase, s, None).calls ==> c.step >= i
    decreases |wf| - i, if phase.Before? then 1 else 0, if phase.Before? then 0 else wf[i].maxLoops - phase.loops
  {
    if i < |wf| {
      var skip := if phase.Before? then !Passes(wf[i], s) else !Loops(wf[i], s);
      if skip {
        CallsStartLater(wf, i + 1, Before, s);
      } else if phase.Before? || phase.loops < wf[i].maxLoops {
        CallsStartLater(wf, i, After(if phase.Before? then 0 else phase.loops + 1), wf[i].run(s));
      }
    }
  }

  // ------------------------------------------------------------------ any number of crashes

  /** Every call is made on a state on which its step would be entered. */
  ghost predicate AllEntered(wf: Workflow, calls: seq<Call>) {
    forall k :: 0 <= k < |calls| ==> Entered(wf, calls[k])
  }

  predicate Entered(wf: Workflow, c: Call) {
    0 <= c.step < |wf| && Passes(wf[c.step], c.state)
  }

  /** A step's condition stays true across the iterations of its own loop. */
  ghost predicate ConditionsStable(wf: Workflow) {
    forall i, s :: 0 <= i < |wf| && Passes(wf[i], s) && Loops(wf[i], wf[i].run(s)) ==> Passes(wf[i], wf[i].run(s))
  }

  /** Then every call is made on a state on which its step would be entered. */
  lemma {:induction false} CallsPass(wf: Workflow, i: nat, phase: Phase, s: State)
    requires i <= |wf| && (phase.After? ==> i < |wf| && (Loops(wf[i], s) ==> Passes(wf[i], s))) && ConditionsStable(wf)
    ensures AllEntered(wf, Go(wf, i, phase, s, None).calls)
    decreases |wf| - i, if phase.Before? then 1 else 0, if phase.Before? then 0 else wf[i].maxLoops - phase.loops
  {
    if i < |wf| {
      var skip := if phase.Before? then !Passes(wf[i], s) else !Loops(wf[i], s);
      if skip {
        CallsPass(wf, i + 1, Before, s);
      } else if phase.Before? || phase.loops < wf[i].maxLoops {
        CallsPass(wf, i, After(if phase.Before? then 0 else phase.loops + 1), wf[i].run(s));
      }
    }
  }

  /** A run executed once per fault, resumed after each. */
  function Recover(wf: Workflow, r: RunRecord, faults: seq<Option<Fault>>): RunRecord
    decreases |faults|
  {
    if faults == [] then r else Recover(wf, Execute(wf, r, faults[0]), faults[1..])
  }

  /** The calls that returned in one execution. */
  function CallsOf(wf: Workflow, r: RunRecord, fault: Option<Fault>): seq<Call> {
    Go(wf, From(wf, r.cursor), Before, r.state, fault).calls
  }

  /** All the calls that returned, over those executions. */
  function CallsMade(wf: Workflow, r: RunRecord, faults: seq<Option<Fault>>): seq<Call>
    decreases |faults|
  {
    if faults == [] then []
    else CallsOf(wf, r, faults[0]) + CallsMade(wf, Execute(wf, r, faults[0]), faults[1..])
  }

  ghost predicate AllHarmless(faults: seq<Option<Fault>>) {
    forall k :: 0 <= k < |faults| && faults[k].Some? ==> Harmless(faults[k].value)
  }

  /** What is left to do from `r`, if nothing fails any more. */
  function Remaining(wf: Workflow, r: RunRecord): Result {
    Go(wf, From(wf, r.cursor), Before, r.state, None)
  }

  /** One execution, interrupted or not, does a first part of what is left and leaves the rest. */
  lemma {:induction false} ExecuteSplits(wf: Workflow, r: RunRecord, fault: Option<Fault>)
    requires AllIgnoreError(wf) && Remaining(wf, r).Completed? && AllEntered(wf, Remaining(wf, r).calls)
    requires fault.Some? ==> Harmless(fault.value)
    ensures
      var done, r' := CallsOf(wf, r, fault), Execute(wf, r, fault);
      var left := Remaining(wf, r);
      && |done| <= |left.calls| && done == left.calls[..|done|]
      && AlikeCompleted(Completed(left.state, left.calls[|done|..]), Remaining(wf, r'))
      && (r'.status == Broken ==>
         fault.Some? && ERROR_KEY in r'.state && r'.state[ERROR_KEY] == Text(fault.value.message))
      && (r'.status == Succeeded ==> r'.state == left.state && |done| == |left.calls|)
      && r'.status in {Broken, Succeeded}
  {
    var left, i := Remaining(wf, r), From(wf, r.cursor);
    if fault == None || fault.value.after >= |left.calls| {
      if fault.Some? {
        LateFaultIsNone(wf, i, Before, r.state, fault.value);
      }
    } else {
      var f := fault.value;
      FaultStops(wf, i, Before, r.state, f);
      assert Entered(wf, left.calls[f.after]);
      var c, r' := left.calls[f.after], Execute(wf, r, fault);
      RestFromCall(wf, i, Before, r.state, f.after);
      assert Same(f.leaves(c.state), c.state);
      assert Strip(r'.state) == Strip(f.leaves(c.state));
      GoAlike(wf, c.step, Before, c.state, Before, r'.state);
    }
  }

  lemma {:induction false} AlikeParts(c: seq<Call>, d: seq<Call>, rest: seq<Call>, n: nat)
    requires n <= |c| && |c| == |d| && AlikeCalls(c, d) && AlikeCalls(d[n..], rest)
    ensures AlikeCalls(c, d[..n] + rest)
  {
    var whole := d[..n] + rest;
    forall k | 0 <= k < |c|
      ensures c[k].step == whole[k].step && Same(c[k].state, whole[k].state)
    {
      if k >= n {
        assert d[n..][k - n] == d[k] && whole[k] == rest[k - n];
      }
    }
  }

  /**
   However often a run was interrupted and resumed: it stopped at a transient failure,
   never at an exhausted loop; and the calls made so far followed by those of one
   undisturbed resumption are the calls of the uninterrupted run and end in its state,
   up to the error key.
   */
  ghost predicate Equivalent(wf: Workflow, r: RunRecord, faults: seq<Option<Fault>>) {
    var last := Recover(wf, r, faults);
    && (faults != [] && last.status == Broken ==>
        && faults[|faults| - 1].Some? && ERROR_KEY in last.state
        && last.state[ERROR_KEY] == Text(faults[|faults| - 1].value.message))
    && Remaining(wf, last).Completed?
    && Execute(wf, last, None).status == Succeeded
    && Same(Execute(wf, last, None).state, Remaining(wf, r).state)
    && AlikeCalls(Remaining(wf, r).calls, CallsMade(wf, r, faults) + Remaining(wf, last).calls)
  }

  /** Calls that agree up to the error key are entered alike. */
  lemma {:induction false} AlikeEntered(wf: Workflow, c: seq<Call>, d: seq<Call>)
    requires AllIgnoreError(wf) && AlikeCalls(c, d) && AllEntered(wf, c)
    ensures AllEntered(wf, d)
  {
    forall k | 0 <= k < |d|
      ensures Entered(wf, d[k])
    {
      assert Entered(wf, c[k]) && IgnoresError(wf[c[k].step]);
    }
  }

  /** One execution more in front. */
  lemma {:induction false} EquivalentOnward(wf: Workflow, r: RunRecord, faults: seq<Option<Fault>>)
    requires AllIgnoreError(wf) && AllHarmless(faults) && faults != []
    requires Remaining(wf, r).Completed? && AllEntered(wf, Remaining(wf, r).calls)
    requires Equivalent(wf, Execute(wf, r, faults[0]), faults[1..])
    ensures Equivalent(wf, r, faults)
  {
    var r', rest := Execute(wf, r, faults[0]), faults[1..];
    ExecuteSplits(wf, r, faults[0]);
    CallsChain(Remaining(wf, r).calls, CallsOf(wf, r, faults[0]), Remaining(wf, r').calls, CallsMade(wf, r', rest),
               Remaining(wf, Recover(wf, r', rest)).calls);
  }

  /** Crash and resume equivalence, in mid-loop or not, if every call left is made where its step would be entered. */
  lemma {:induction false} ResumeEquivalence(wf: Workflow, r: RunRecord, faults: seq<Option<Fault>>)
    requires AllIgnoreError(wf) && AllHarmless(faults)
    requires Remaining(wf, r).Completed? && AllEntered(wf, Remaining(wf, r).calls)
    ensures Equivalent(wf, r, faults)
    decreases |faults|
  {
    if faults == [] {
      assert CallsMade(wf, r, faults) + Remaining(wf, r).calls == Remaining(wf, r).calls;
    } else {
      var r', rest := Execute(wf, r, faults[0]), faults[1..];
      ExecuteSplits(wf, r, faults[0]);
      AlikeEntered(wf, Remaining(wf, r).calls[|CallsOf(wf, r, faults[0])|..], Remaining(wf, r').calls);
      ResumeEquivalence(wf, r', rest);
      EquivalentOnward(wf, r, faults);
    }
  }

  /** Conditions that stay true across the iterations of their own loops are enough. */
  lemma {:induction false} StableConditionsResume(wf: Workflow, r: RunRecord, faults: seq<Option<Fault>>)
    requires AllIgnoreError(wf) && ConditionsStable(wf) && AllHarmless(faults) && Remaining(wf, r).Completed?
    ensures Equivalent(wf, r, faults)
  {
    CallsPass(wf, From(wf, r.cursor), Before, r.state);
    ResumeEquivalence(wf, r, faults);
  }

  /** A fault at a call whose step would not be entered again: the resumed run does not make that call. */
  lemma {:induction false} FaultShows(wf: Workflow, r: RunRecord, k: nat)
    requires AllIgnoreError(wf) && Remaining(wf, r).Completed? && k < |Remaining(wf, r).calls|
    requires !Entered(wf, Remaining(wf, r).calls[k])
    ensures exists faults :: AllHarmless(faults) && !Equivalent(wf, r, faults)
  {
    var f := Fault(k, "transient", (s: State) => s);
    var faults := [Some(f)];
    var left, c := Remaining(wf, r), Remaining(wf, r).calls[k];
    FaultStops(wf, From(wf, r.cursor), Before, r.state, f);
    var r' := Execute(wf, r, Some(f));
    assert r'.cursor == c.step && Same(r'.state, c.state);
    assert IgnoresError(wf[c.step]) && !Passes(wf[c.step], r'.state);
    CallsStartLater(wf, c.step + 1, Before, r'.state);
    assert Recover(wf, r', []) == r';
    assert faults[1..] == [] && Recover(wf, r, faults) == r' && CallsMade(wf, r, faults) == left.calls[..k];
    var after := left.calls[..k] + Remaining(wf, r').calls;
    if Remaining(wf, r').calls != [] {
      assert after[k] == Remaining(wf, r').calls[0] && after[k] in Remaining(wf, r').calls;
    }
    assert AllHarmless(faults) && !Equivalent(wf, r, faults);
  }

  /**
   The exact condition.  A run that would complete undisturbed comes to the same,
   whatever transient failures interrupt it, if and only if every call it has left is
   made on a state on which its step would be entered.
   */
  lemma {:induction false} ResumesExactlyWhen(wf: Workflow, r: RunRecord)
    requires AllIgnoreError(wf) && Remaining(wf, r).Completed?
    ensures (forall faults :: AllHarmless(faults) ==> Equivalent(wf, r, faults)) <==>
            AllEntered(wf, Remaining(wf, r).calls)
  {
    if AllEntered(wf, Remaining(wf, r).calls) {
      forall faults | AllHarmless(faults)
        ensures Equivalent(wf, r, faults)
      {
        ResumeEquivalence(wf, r, faults);
      }
    } else {
      var k :| 0 <= k < |Remaining(wf, r).calls| && !Entered(wf, Remaining(wf, r).calls[k]);
      FaultShows(wf, r, k);
    }
  }

  /** The calls of a first execution, of those after it, and of what is left then. */
  lemma {:induction false} CallsChain(left: seq<Call>, done: seq<Call>, next: seq<Call>, made: seq<Call>,
                                      last: seq<Call>)
    requires |done| <= |left| && done == left[..|done|]
    requires AlikeCalls(left[|done|..], next) && AlikeCalls(next, made + last)
    ensures AlikeCalls(left, done + made + last)
  {
    AlikeChain(left[|done|..], next, made + last);
    AlikeParts(left, left, made + last, |done|);
    Regroup(done, made, last);
  }

  lemma {:induction false} AlikeChain(a: seq<Call>, b: seq<Call>, c: seq<Call>)
    requires AlikeCalls(a, b) && AlikeCalls(b, c)
    ensures AlikeCalls(a, c)
  {
  }

  // ------------------------------------------------------------------ a condition that does not stay true

  function Count(s: State): int {
    if "count" in s && s["count"].Num? then s["count"].n else 0
  }

  /** Counts to two, but may only be entered at zero. */
  function OnceOnly(): Step {
    Step("count", (s: State) => s["count" := Num(Count(s) + 1)],
         Some((s: State) => Count(s) == 0), Some((s: State) => Count(s) < 2), 100)
  }

  /**
   Without a stable condition a crash in mid-loop can change the outcome: the resumed run skips the
   rest of the loop.
   */
  lemma {:induction false} UnstableConditionLosesWork()
    ensures
      var wf := [OnceOnly()];
      var f := Fault(1, "transient", (s: State) => s);
      var r := Execute(wf, RunRecord(map[], NotStarted, 0), Some(f));
      && Count(Execute(wf, RunRecord(map[], NotStarted, 0), None).state) == 2
      && r.status == Broken && r.cursor == 0
      && Execute(wf, r, None).status == Succeeded
      && Count(Execute(wf, r, None).state) == 1
  {
    var wf := [OnceOnly()];
    var f := Fault(1, "transient", (s: State) => s);
    var s0: State := map[];
    var s1, s2 := wf[0].run(s0), wf[0].run(wf[0].run(s0));
    assert Go(wf, 0, After(1), s2, None) == Go(wf, 1, Before, s2, None);
    assert Go(wf, 0, After(0), s1, None) == Prepend(Call(0, s1), Go(wf, 0, After(1), s2, None));
    assert Go(wf, 0, Before, s0, None) == Prepend(Call(0, s0), Go(wf, 0, After(0), s1, None));
    assert Go(wf, 0, After(0), s1, Later(Some(f))) == Failed(s1, 0, "transient", []);
    assert Go(wf, 0, Before, s0, Some(f)) == Prepend(Call(0, s0), Go(wf, 0, After(0), s1, Later(Some(f))));
    var r := Execute(wf, RunRecord(s0, NotStarted, 0), Some(f));
    assert Count(r.state) == 1;
    assert Go(wf, 0, Before, r.state, None) == Go(wf, 1, Before, r.state, None);
  }
}

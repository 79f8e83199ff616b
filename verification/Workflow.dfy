/**
 The workflow engine: steps with conditions and bounded loops, a cursor, and
 resumption after a failure.  An execution may be interrupted by a transient
 failure of one call of a step; `Go` says where that leaves the run.
 */
module Workflows {
  import opened Common
  import opened Texts

  datatype Value = Num(n: int) | Text(s: string)

  type State = map<string, Value>

  const ERROR_KEY := "_error"

  datatype Step = Step(name: string, run: State -> State, condition: Option<State -> bool>,
                       loopWhile: Option<State -> bool>, maxLoops: int)

  type Workflow = seq<Step>

  /** The next call but `after` of the execution raises; a step may have changed the state before it raises. */
  datatype Fault = Fault(after: nat, message: string, leaves: State -> State)

  /** A call of a step that returned: which step, on what state. */
  datatype Call = Call(step: int, state: State)

  datatype Result =
    | Completed(state: State, calls: seq<Call>)
    | Failed(state: State, cursor: int, message: string, calls: seq<Call>)

  predicate Passes(step: Step, s: State) {
    step.condition.Some? ==> step.condition.value(s)
  }

  function LoopError(step: Step): string {
    "step " + Quoted(step.name) + " exceeded max_loops"
  }

  predicate Loops(step: Step, s: State) {
    step.loopWhile.Some? && step.loopWhile.value(s)
  }

  /** Where an execution stands: about to consider step `i`, or after the call numbered `loops` of its loop. */
  datatype Phase = Before | After(loops: nat)

  function Prepend(c: Call, r: Result): Result {
    match r
    case Completed(s, calls) => Completed(s, [c] + calls)
    case Failed(s, cursor, message, calls) => Failed(s, cursor, message, [c] + calls)
  }

  /** A result with more calls made before it. */
  function Onto(calls: seq<Call>, r: Result): Result {
    r.(calls := calls + r.calls)
  }

  function Later(fault: Option<Fault>): Option<Fault> {
    match fault
    case Some(f) => if f.after > 0 then Some(f.(after := f.after - 1)) else fault
    case None => None
  }

  /** The rest of an execution from step `i`. */
  function Go(wf: Workflow, i: nat, phase: Phase, s: State, fault: Option<Fault>): Result
    requires i <= |wf| && (phase.After? ==> i < |wf|)
    decreases |wf| - i, if phase.Before? then 1 else 0, if phase.Before? then 0 else wf[i].maxLoops - phase.loops
  {
    if i == |wf| then Completed(s, [])
    else if phase.Before? then
      if !Passes(wf[i], s) then Go(wf, i + 1, Before, s, fault)
      else if fault.Some? && fault.value.after == 0 then Failed(fault.value.leaves(s), i, fault.value.message, [])
      else Prepend(Call(i, s), Go(wf, i, After(0), wf[i].run(s), Later(fault)))
    else
      if !Loops(wf[i], s) then Go(wf, i + 1, Before, s, fault)
      else if phase.loops >= wf[i].maxLoops then Failed(s, i, LoopError(wf[i]), [])
      else if fault.Some? && fault.value.after == 0 then Failed(fault.value.leaves(s), i, fault.value.message, [])
      else Prepend(Call(i, s), Go(wf, i, After(phase.loops + 1), wf[i].run(s), Later(fault)))
  }

  // ------------------------------------------------------------------ states up to the error key

  function Strip(s: State): State {
    s - {ERROR_KEY}
  }

  predicate Same(s: State, t: State) {
    Strip(s) == Strip(t)
  }

  /** Steps and predicates do not look at the error key. */
  ghost predicate IgnoresError(step: Step) {
    forall s, t :: Same(s, t) ==>
      Same(step.run(s), step.run(t)) && Passes(step, s) == Passes(step, t) && Loops(step, s) == Loops(step, t)
  }

  ghost predicate AllIgnoreError(wf: Workflow) {
    forall i :: 0 <= i < |wf| ==> IgnoresError(wf[i])
  }

  /** A raising call leaves the state as it was, up to the error key. */
  ghost predicate Harmless(f: Fault) {
    forall s :: Same(f.leaves(s), s)
  }

  ghost predicate AlikeCalls(c: seq<Call>, d: seq<Call>) {
    |c| == |d| && forall k :: 0 <= k < |c| ==> c[k].step == d[k].step && Same(c[k].state, d[k].state)
  }

  /** The two executions both complete, with the same states and the same calls up to the error key. */
  ghost predicate AlikeCompleted(r: Result, q: Result) {
    r.Completed? && q.Completed? && Same(r.state, q.state) && AlikeCalls(r.calls, q.calls)
  }

  lemma {:induction false} AlikePrepend(c: Call, d: Call, r: Result, q: Result)
    requires AlikeCompleted(r, q) && c.step == d.step && Same(c.state, d.state)
    ensures AlikeCompleted(Prepend(c, r), Prepend(d, q))
  {
  }

  /** States that agree up to the error key are executed alike; an earlier loop count is as good as a later one. */
  lemma {:induction false} GoAlike(wf: Workflow, i: nat, phase: Phase, s: State, other: Phase, t: State)
    requires i <= |wf| && (phase.After? ==> i < |wf|) && AllIgnoreError(wf) && Same(s, t)
    requires Go(wf, i, phase, s, None).Completed?
    requires phase.Before? == other.Before? && (phase.After? ==> other.loops <= phase.loops)
    ensures AlikeCompleted(Go(wf, i, phase, s, None), Go(wf, i, other, t, None))
    decreases |wf| - i, if phase.Before? then 1 else 0, if phase.Before? then 0 else wf[i].maxLoops - phase.loops
  {
    if i < |wf| {
      assert IgnoresError(wf[i]);
      if phase.Before? {
        if !Passes(wf[i], s) {
          GoAlike(wf, i + 1, Before, s, Before, t);
        } else {
          GoAlike(wf, i, After(0), wf[i].run(s), After(0), wf[i].run(t));
          AlikePrepend(Call(i, s), Call(i, t), Go(wf, i, After(0), wf[i].run(s), None),
                       Go(wf, i, After(0), wf[i].run(t), None));
        }
      } else if !Loops(wf[i], s) {
        GoAlike(wf, i + 1, Before, s, Before, t);
      } else {
        GoAlike(wf, i, After(phase.loops + 1), wf[i].run(s), After(other.loops + 1), wf[i].run(t));
        AlikePrepend(Call(i, s), Call(i, t), Go(wf, i, After(phase.loops + 1), wf[i].run(s), None),
                     Go(wf, i, After(other.loops + 1), wf[i].run(t), None));
      }
    }
  }

  /** An execution whose fault lies beyond its last call completes as if there were none. */
  lemma {:induction false} LateFaultIsNone(wf: Workflow, i: nat, phase: Phase, s: State, f: Fault)
    requires i <= |wf| && (phase.After? ==> i < |wf|)
    requires Go(wf, i, phase, s, None).Completed? && f.after >= |Go(wf, i, phase, s, None).calls|
    ensures Go(wf, i, phase, s, Some(f)) == Go(wf, i, phase, s, None)
    decreases |wf| - i, if phase.Before? then 1 else 0, if phase.Before? then 0 else wf[i].maxLoops - phase.loops
  {
    if i < |wf| {
      if phase.Before? {
        if !Passes(wf[i], s) {
          LateFaultIsNone(wf, i + 1, Before, s, f);
        } else {
          LateFaultIsNone(wf, i, After(0), wf[i].run(s), f.(after := f.after - 1));
        }
      } else if !Loops(wf[i], s) {
        LateFaultIsNone(wf, i + 1, Before, s, f);
      } else {
        LateFaultIsNone(wf, i, After(phase.loops + 1), wf[i].run(s), f.(after := f.after - 1));
      }
    }
  }

  /**
   Where a fault leaves the run: the calls before it are those of the undisturbed
   execution, the cursor is the step of the call that raised, and the state is the
   one that call was given.
   */
  lemma {:induction false} FaultStops(wf: Workflow, i: nat, phase: Phase, s: State, f: Fault)
    requires i <= |wf| && (phase.After? ==> i < |wf|)
    requires Go(wf, i, phase, s, None).Completed? && f.after < |Go(wf, i, phase, s, None).calls|
    ensures
      var clean, r := Go(wf, i, phase, s, None), Go(wf, i, phase, s, Some(f));
      var c := clean.calls[f.after];
      && i <= c.step < |wf|
      && r == Failed(f.leaves(c.state), c.step, f.message, clean.calls[..f.after])
    decreases |wf| - i, if phase.Before? then 1 else 0, if phase.Before? then 0 else wf[i].maxLoops - phase.loops
  {
    if i < |wf| {
      var skip := if phase.Before? then !Passes(wf[i], s) else !Loops(wf[i], s);
      if skip {
        FaultStops(wf, i + 1, Before, s, f);
      } else if f.after > 0 {
        var next := After(if phase.Before? then 0 else phase.loops + 1);
        FaultStops(wf, i, next, wf[i].run(s), f.(after := f.after - 1));
        var rest := Go(wf, i, next, wf[i].run(s), None).calls;
        assert ([Call(i, s)] + rest)[..f.after] == [Call(i, s)] + rest[..f.after - 1];
      }
    }
  }

  /**
   If the step of the k-th call would be entered on the state of that call, executing from there
   does the rest of the calls.
   */
  lemma {:induction false} RestFromCall(wf: Workflow, i: nat, phase: Phase, s: State, k: nat)
    requires i <= |wf| && (phase.After? ==> i < |wf|) && AllIgnoreError(wf)
    requires Go(wf, i, phase, s, None).Completed? && k < |Go(wf, i, phase, s, None).calls|
    requires var c := Go(wf, i, phase, s, None).calls[k]; 0 <= c.step < |wf| && Passes(wf[c.step], c.state)
    ensures
      var clean := Go(wf, i, phase, s, None);
      var c := clean.calls[k];
      AlikeCompleted(Completed(clean.state, clean.calls[k..]), Go(wf, c.step, Before, c.state, None))
    decreases |wf| - i, if phase.Before? then 1 else 0, if phase.Before? then 0 else wf[i].maxLoops - phase.loops
  {
    if i < |wf| {
      var skip := if phase.Before? then !Passes(wf[i], s) else !Loops(wf[i], s);
      if skip {
        RestFromCall(wf, i + 1, Before, s, k);
      } else {
        var next := After(if phase.Before? then 0 else phase.loops + 1);
        var rest := Go(wf, i, next, wf[i].run(s), None);
        if k > 0 {
          RestFromCall(wf, i, next, wf[i].run(s), k - 1);
          assert ([Call(i, s)] + rest.calls)[k..] == rest.calls[k - 1..];
        } else {
          GoAlike(wf, i, next, wf[i].run(s), After(0), wf[i].run(s));
          AlikePrepend(Call(i, s), Call(i, s), rest, Go(wf, i, After(0), wf[i].run(s), None));
        }
      }
    }
  }
}

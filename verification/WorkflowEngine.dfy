/** The workflow engine as an object: runs that are executed, kept, and executed again from their cursor. */
module WorkflowEngines {
  import opened Common
  import opened Workflows
  import opened WorkflowResume

  class WorkflowRun {
    var state: State
    var status: RunStatus
    var cursor: nat

    function Record(): RunRecord
      reads this
    {
      RunRecord(state, status, cursor)
    }

    constructor (initial: State)
      ensures Record() == RunRecord(initial, NotStarted, 0)
    {
      state, status, cursor := initial, NotStarted, 0;
    }
  }

  /** Why a call of the engine raised. */
  datatype Error = UnknownRun | StepFailed(message: string)

  class WorkflowEngine {
    var runs: map<string, WorkflowRun>

    constructor ()
      ensures runs == map[]
    {
      runs := map[];
    }

    /** Starts a run under a fresh id and executes it. */
    method Start(id: string, wf: Workflow, initial: State, fault: Option<Fault>)
      returns (run: WorkflowRun, error: Option<Error>)
      modifies this
      ensures fresh(run) && runs == old(runs)[id := run]
      ensures run.Record() == Execute(wf, RunRecord(initial, NotStarted, 0), fault)
      ensures error.None? <==> run.status == Succeeded
    {
      run := new WorkflowRun(initial);
      runs := runs[id := run];
      error := ExecuteRun(wf, run, fault);
    }

    /** Executes a kept run from its cursor; an unknown id is refused. */
    method Resume(wf: Workflow, id: string, fault: Option<Fault>) returns (error: Option<Error>)
      modifies if id in runs then {runs[id]} else {}
      ensures runs == old(runs)
      ensures id !in runs ==> error == Some(UnknownRun)
      ensures id in runs ==> runs[id].Record() == Execute(wf, old(runs[id].Record()), fault)
      ensures id in runs ==> (error.None? <==> runs[id].status == Succeeded)
    {
      if id !in runs {
        return Some(UnknownRun);
      }
      error := ExecuteRun(wf, runs[id], fault);
    }

    method ExecuteRun(wf: Workflow, run: WorkflowRun, fault: Option<Fault>) returns (error: Option<Error>)
      modifies run
      ensures run.Record() == Execute(wf, old(run.Record()), fault)
      ensures error.None? <==> run.status == Succeeded
      ensures error.Some? ==>
              error.value.StepFailed? && ERROR_KEY in run.state && run.state[ERROR_KEY] == Text(error.value.message)
    {
      ghost var whole := Go(wf, From(wf, run.cursor), Before, run.state, fault);
      run.status := Running;
      var pending := fault;
      ghost var calls: seq<Call> := [];
      for i := From(wf, run.cursor) to |wf|
        invariant run.status == Running
        invariant whole == Onto(calls, Go(wf, i, Before, run.state, pending))
      {
        run.cursor := i;
        if !Passes(wf[i], run.state) {
          continue;
        }
        var raised: Option<string>;
        raised, pending, calls := RunStep(wf, i, run, pending, whole, calls);
        if raised.Some? {
          run.status := Broken;
          run.state := run.state[ERROR_KEY := Text(raised.value)];
          return Some(StepFailed(raised.value));
        }
      }
      run.cursor := |wf|;
      run.status := Succeeded;
      error := None;
    }

    /** A step whose condition holds: one call, then more while its loop lasts. */
    method RunStep(wf: Workflow, i: nat, run: WorkflowRun, fault: Option<Fault>, ghost whole: Result,
                   ghost calls0: seq<Call>)
      returns (raised: Option<string>, pending: Option<Fault>, ghost calls: seq<Call>)
      requires i < |wf| && Passes(wf[i], run.state)
      requires whole == Onto(calls0, Go(wf, i, Before, run.state, fault))
      modifies run`state
      ensures raised.None? ==> whole == Onto(calls, Go(wf, i + 1, Before, run.state, pending))
      ensures raised.Some? ==> whole == Failed(run.state, i, raised.value, calls)
    {
      calls := calls0;
      raised, pending := CallStep(wf[i], run, fault);
      assert calls + [] == calls;
      if raised.Some? {
        return;
      }
      calls := calls + [Call(i, old(run.state))];
      OntoPrepend(calls0, Call(i, old(run.state)), Go(wf, i, After(0), run.state, pending));
      var loops := 0;
      while Loops(wf[i], run.state)
        invariant raised.None?
        invariant whole == Onto(calls, Go(wf, i, After(loops), run.state, pending))
        decreases wf[i].maxLoops - loops
      {
        assert calls + [] == calls;
        if loops >= wf[i].maxLoops {
          raised := Some(LoopError(wf[i]));
          return;
        }
        ghost var before := run.state;
        raised, pending := CallStep(wf[i], run, pending);
        if raised.Some? {
          return;
        }
        OntoPrepend(calls, Call(i, before), Go(wf, i, After(loops + 1), run.state, pending));
        calls := calls + [Call(i, before)];
        loops := loops + 1;
      }
    }

    /** One call of a step: it returns a new state, or raises what the environment makes it raise. */
    method CallStep(step: Step, run: WorkflowRun, fault: Option<Fault>)
      returns (raised: Option<string>, pending: Option<Fault>)
      modifies run`state
      ensures
        if fault.Some? && fault.value.after == 0 then
          raised == Some(fault.value.message) && run.state == fault.value.leaves(old(run.state))
        else
          raised == None && pending == Later(fault) && run.state == step.run(old(run.state))
    {
      raised, pending := None, Later(fault);
      if fault.Some? && fault.value.after == 0 {
        raised := Some(fault.value.message);
        run.state := fault.value.leaves(run.state);
      } else {
        run.state := step.run(run.state);
      }
    }
  }

  lemma {:induction false} OntoPrepend(calls: seq<Call>, c: Call, r: Result)
    ensures Onto(calls, Prepend(c, r)) == Onto(calls + [c], r)
  {
    assert calls + ([c] + r.calls) == calls + [c] + r.calls;
  }
}

/**
 What an undisturbed execution computes, in terms of the steps' own functions: which
 steps are called, how often, on what states, and when a loop is exhausted.
 */
module WorkflowMeaning {
  import opened Common
  import opened Workflows
  import opened WorkflowResume

  /** The step function applied `k` times. */
  function Times(step: Step, s: State, k: nat): State {
    if k == 0 then s else step.run(Times(step, s, k - 1))
  }

  /** The step has no condition, or it holds. */
  predicate Wanted(step: Step, s: State) {
    match step.condition
    case Some(holds) => holds(s)
    case None => true
  }

  /** The step is to be repeated. */
  predicate Again(step: Step, s: State) {
    match step.loopWhile
    case Some(holds) => holds(s)
    case None => false
  }

  /** How often a step may be repeated after its first call. */
  function Repeats(step: Step): nat {
    if step.maxLoops < 0 then 0 else step.maxLoops
  }

  /** On `s` the step is called `k` times: not at all unless wanted, else once and as often again as its loop asks. */
  ghost predicate Does(step: Step, s: State, k: nat) {
    if !Wanted(step, s) then k == 0
    else
      && 1 <= k <= Repeats(step) + 1 && !Again(step, Times(step, s, k))
      && forall j :: 1 <= j < k ==> Again(step, Times(step, s, j))
  }

  /** The loop of the step asks for one call more than is allowed. */
  ghost predicate Exhausts(step: Step, s: State) {
    Wanted(step, s) && forall j :: 1 <= j <= Repeats(step) + 1 ==> Again(step, Times(step, s, j))
  }

  /** Step `i + k` of the workflow is called `counts[k]` times, from `states[k]` to `states[k + 1]`. */
  ghost predicate History(wf: Workflow, i: nat, states: seq<State>, counts: seq<nat>) {
    && |states| == |counts| + 1 && i + |counts| <= |wf|
    && forall k :: 0 <= k < |counts| ==>
         Does(wf[i + k], states[k], counts[k]) && states[k + 1] == Times(wf[i + k], states[k], counts[k])
  }

  /** `k` calls of step `i` in a row, from its call number `from` on. */
  function Row(wf: Workflow, i: nat, s: State, from: nat, k: nat): seq<Call>
    requires i < |wf|
  {
    seq(k, j requires 0 <= j < k => Call(i, Times(wf[i], s, from + j)))
  }

  /** All the calls of a history. */
  function CallsAlong(wf: Workflow, i: nat, states: seq<State>, counts: seq<nat>): seq<Call>
    requires |states| == |counts| + 1 && i + |counts| <= |wf|
    decreases |counts|
  {
    if counts == [] then []
    else Row(wf, i, states[0], 0, counts[0]) + CallsAlong(wf, i + 1, states[1..], counts[1..])
  }

  lemma {:induction false} RowNext(wf: Workflow, i: nat, s: State, from: nat, k: nat)
    requires i < |wf|
    ensures Row(wf, i, s, from, k + 1) == [Call(i, Times(wf[i], s, from))] + Row(wf, i, s, from + 1, k)
  {
  }

  lemma {:induction false} OntoRow(wf: Workflow, i: nat, s: State, from: nat, k: nat, r: Result)
    requires i < |wf|
    ensures Prepend(Call(i, Times(wf[i], s, from)), Onto(Row(wf, i, s, from + 1, k), r)) ==
            Onto(Row(wf, i, s, from, k + 1), r)
  {
    RowNext(wf, i, s, from, k);
    Regroup([Call(i, Times(wf[i], s, from))], Row(wf, i, s, from + 1, k), r.calls);
  }

  /** What the loop of step `i` does after its call number `from`: `k` calls more, or all that are left and it fails. */
  ghost predicate LoopEnds(wf: Workflow, i: nat, s: State, from: nat, k: nat)
    requires i < |wf| && from >= 1
  {
    var whole := Go(wf, i, After(from - 1), Times(wf[i], s, from), None);
    && (forall j :: from <= j < from + k ==> Again(wf[i], Times(wf[i], s, j)))
    && from + k <= Repeats(wf[i]) + 1
    && (if Again(wf[i], Times(wf[i], s, from + k)) then
          && from + k == Repeats(wf[i]) + 1
          && whole ==
             Onto(Row(wf, i, s, from, k), Failed(Times(wf[i], s, from + k), i, LoopError(wf[i]), []))
        else whole == Onto(Row(wf, i, s, from, k), Go(wf, i + 1, Before, Times(wf[i], s, from + k), None)))
  }

  lemma {:induction false} LoopMeaning(wf: Workflow, i: nat, s: State, from: nat) returns (k: nat)
    requires i < |wf| && 1 <= from <= Repeats(wf[i]) + 1
    ensures LoopEnds(wf, i, s, from, k)
    decreases Repeats(wf[i]) + 1 - from
  {
    var t := Times(wf[i], s, from);
    if Again(wf[i], t) && from - 1 < wf[i].maxLoops {
      var more := LoopMeaning(wf, i, s, from + 1);
      k := more + 1;
      LoopOnce(wf, i, s, from, more);
    } else {
      k := 0;
      assert Row(wf, i, s, from, 0) == [];
      OntoNothing(Go(wf, i, After(from - 1), t, None));
    }
  }

  lemma {:induction false} OntoNothing(r: Result)
    ensures Onto([], r) == r
  {
    assert [] + r.calls == r.calls;
  }

  lemma {:induction false} LoopOnce(wf: Workflow, i: nat, s: State, from: nat, more: nat)
    requires i < |wf| && 1 <= from <= Repeats(wf[i])
    requires Again(wf[i], Times(wf[i], s, from)) && LoopEnds(wf, i, s, from + 1, more)
    ensures LoopEnds(wf, i, s, from, more + 1)
  {
    var end := Times(wf[i], s, from + 1 + more);
    var tail := if Again(wf[i], end) then Failed(end, i, LoopError(wf[i]), []) else Go(wf, i + 1, Before, end, None);
    assert Go(wf, i, After(from - 1), Times(wf[i], s, from), None) ==
           Prepend(Call(i, Times(wf[i], s, from)), Go(wf, i, After(from), Times(wf[i], s, from + 1), None));
    OntoRow(wf, i, s, from, more, tail);
  }

  /** What executing from step `i` comes to, along a history: to the end, or to a loop that is exhausted. */
  ghost predicate Comes(wf: Workflow, i: nat, states: seq<State>, counts: seq<nat>, r: Result)
    requires History(wf, i, states, counts)
  {
    var at, s := i + |counts|, states[|counts|];
    var calls := CallsAlong(wf, i, states, counts);
    if at == |wf| then r == Completed(s, calls)
    else
      && Exhausts(wf[at], s)
      && r == Failed(Times(wf[at], s, Repeats(wf[at]) + 1), at, LoopError(wf[at]),
                     calls + Row(wf, at, s, 0, Repeats(wf[at]) + 1))
  }

  lemma {:induction false} HistoryCons(wf: Workflow, i: nat, s: State, k: nat, states: seq<State>, counts: seq<nat>)
    requires i < |wf| && History(wf, i + 1, states, counts)
    requires Does(wf[i], s, k) && states[0] == Times(wf[i], s, k)
    ensures History(wf, i, [s] + states, [k] + counts)
    ensures CallsAlong(wf, i, [s] + states, [k] + counts) ==
            Row(wf, i, s, 0, k) + CallsAlong(wf, i + 1, states, counts)
  {
    var all, ks := [s] + states, [k] + counts;
    assert all[1..] == states && ks[1..] == counts;
    forall j | 0 <= j < |ks|
      ensures Does(wf[i + j], all[j], ks[j]) && all[j + 1] == Times(wf[i + j], all[j], ks[j])
    {
      if j > 0 {
        assert all[j] == states[j - 1] && ks[j] == counts[j - 1];
        assert Does(wf[i + 1 + (j - 1)], states[j - 1], counts[j - 1]);
      }
    }
  }

  lemma {:induction false} ComesCons(wf: Workflow, i: nat, s: State, k: nat, states: seq<State>, counts: seq<nat>,
                                     r: Result)
    requires i < |wf| && History(wf, i + 1, states, counts) && Comes(wf, i + 1, states, counts, r)
    requires Does(wf[i], s, k) && states[0] == Times(wf[i], s, k)
    ensures History(wf, i, [s] + states, [k] + counts)
    ensures Comes(wf, i, [s] + states, [k] + counts, Onto(Row(wf, i, s, 0, k), r))
  {
    HistoryCons(wf, i, s, k, states, counts);
    var at, last := i + 1 + |counts|, states[|counts|];
    assert ([s] + states)[|counts| + 1] == last;
    if at < |wf| {
      Regroup(Row(wf, i, s, 0, k), CallsAlong(wf, i + 1, states, counts),
              Row(wf, at, last, 0, Repeats(wf[at]) + 1));
    }
  }

  lemma {:induction false} GoMeaning(wf: Workflow, i: nat, s: State) returns (states: seq<State>, counts: seq<nat>)
    requires i <= |wf|
    ensures History(wf, i, states, counts) && states[0] == s
    ensures Comes(wf, i, states, counts, Go(wf, i, Before, s, None))
    decreases |wf| - i
  {
    if i == |wf| {
      states, counts := [s], [];
    } else if !Wanted(wf[i], s) {
      var more, ks := GoMeaning(wf, i + 1, s);
      ComesCons(wf, i, s, 0, more, ks, Go(wf, i + 1, Before, s, None));
      assert Row(wf, i, s, 0, 0) == [];
      OntoNothing(Go(wf, i + 1, Before, s, None));
      states, counts := [s] + more, [0] + ks;
    } else {
      states, counts := StepMeaning(wf, i, s);
    }
  }

  lemma {:induction false} FirstCall(wf: Workflow, i: nat, s: State, k: nat, tail: Result)
    requires i < |wf| && Wanted(wf[i], s)
    requires Go(wf, i, After(0), Times(wf[i], s, 1), None) == Onto(Row(wf, i, s, 1, k), tail)
    ensures Go(wf, i, Before, s, None) == Onto(Row(wf, i, s, 0, k + 1), tail)
  {
    assert Times(wf[i], s, 1) == wf[i].run(Times(wf[i], s, 0)) && Times(wf[i], s, 0) == s;
    OntoRow(wf, i, s, 0, k, tail);
  }

  lemma {:induction false} StepMeaning(wf: Workflow, i: nat, s: State) returns (states: seq<State>, counts: seq<nat>)
    requires i < |wf| && Wanted(wf[i], s)
    ensures History(wf, i, states, counts) && states[0] == s
    ensures Comes(wf, i, states, counts, Go(wf, i, Before, s, None))
    decreases |wf| - i, 0
  {
    var k := LoopMeaning(wf, i, s, 1);
    assert LoopEnds(wf, i, s, 1, k);
    var end := Times(wf[i], s, k + 1);
    if Again(wf[i], end) {
      states, counts := [s], [];
      FirstCall(wf, i, s, k, Failed(end, i, LoopError(wf[i]), []));
      NothingFirst(Row(wf, i, s, 0, k + 1));
    } else {
      var more, ks := GoMeaning(wf, i + 1, end);
      FirstCall(wf, i, s, k, Go(wf, i + 1, Before, end, None));
      ComesCons(wf, i, s, k + 1, more, ks, Go(wf, i + 1, Before, end, None));
      states, counts := [s] + more, [k + 1] + ks;
    }
  }

  lemma {:induction false} NothingFirst(calls: seq<Call>)
    ensures [] + calls == calls && calls + [] == calls
  {
  }

  // ------------------------------------------------------------------ executions

  /**
   What an execution that nothing disturbs does, from any cursor.  Its steps have a
   history: each is called not at all when it has a condition that does not hold, else
   once and then once more for every time its loop asks.  Either the history reaches the
   end, or it stops at a step whose loop asks once too often; the state, the status, the
   cursor and all the calls are those of the history.
   */
  lemma {:induction false} CleanRun(wf: Workflow, r: RunRecord) returns (states: seq<State>, counts: seq<nat>)
    ensures
      var from := if r.cursor <= |wf| then r.cursor else |wf|;
      && History(wf, from, states, counts) && states[0] == r.state
      && Ends(wf, r, from, states, counts)
  {
    states, counts := GoMeaning(wf, From(wf, r.cursor), r.state);
    if From(wf, r.cursor) + |counts| < |wf| {
      LoopErrorText(wf[From(wf, r.cursor) + |counts|]);
    }
  }

  lemma {:induction false} LoopErrorText(step: Step)
    ensures LoopError(step) == "step '" + step.name + "' exceeded max_loops"
  {
    assert "step " + ("'" + step.name + "'") == "step '" + step.name + "'";
    assert "step '" + step.name + "'" + " exceeded max_loops" == "step '" + step.name + "' exceeded max_loops";
  }

  /** How the execution of a run ends along its history. */
  ghost predicate Ends(wf: Workflow, r: RunRecord, from: nat, states: seq<State>, counts: seq<nat>)
    requires History(wf, from, states, counts)
  {
    var at, s, calls := from + |counts|, states[|counts|], CallsAlong(wf, from, states, counts);
    if at == |wf| then
      Execute(wf, r, None) == RunRecord(s, Succeeded, |wf|) && CallsOf(wf, r, None) == calls
    else
      var last := Times(wf[at], s, Repeats(wf[at]) + 1);
      && Exhausts(wf[at], s)
      && Execute(wf, r, None) ==
         RunRecord(last["_error" := Text("step '" + wf[at].name + "' exceeded max_loops")], Broken, at)
      && CallsOf(wf, r, None) == calls + Row(wf, at, s, 0, Repeats(wf[at]) + 1)
  }

  lemma {:induction false} DoesIsUnique(step: Step, s: State, j: nat, k: nat)
    requires Does(step, s, j) && Does(step, s, k)
    ensures j == k
  {
  }

  lemma {:induction false} NeverExhausts(wf: Workflow, i: nat, states: seq<State>, counts: seq<nat>)
    requires History(wf, i, states, counts)
    ensures forall k :: 0 <= k < |counts| ==> !Exhausts(wf[i + k], states[k])
  {
    forall k | 0 <= k < |counts|
      ensures !Exhausts(wf[i + k], states[k])
    {
      assert Does(wf[i + k], states[k], counts[k]);
    }
  }

  /** A history up to a place is the only one, so the execution of a run is all it can do. */
  lemma {:induction false} HistoryIsUnique(wf: Workflow, i: nat, a: seq<State>, j: seq<nat>, b: seq<State>, k: seq<nat>)
    requires History(wf, i, a, j) && History(wf, i, b, k) && a[0] == b[0] && |j| <= |k|
    ensures a == b[..|a|] && j == k[..|j|]
  {
    if j == [] {
      assert b[..1] == [b[0]];
    } else {
      var n := |j| - 1;
      HistoryIsUnique(wf, i, a[..n + 1], j[..n], b, k);
      assert Does(wf[i + n], a[n], j[n]) && Does(wf[i + n], b[n], k[n]) && a[n] == b[n];
      DoesIsUnique(wf[i + n], a[n], j[n], k[n]);
      assert a == a[..n + 1] + [a[n + 1]] && j == j[..n] + [j[n]];
    }
  }

  /** A run succeeds if and only if it has a history to the end of its workflow. */
  lemma {:induction false} SucceedsExactlyWhen(wf: Workflow, r: RunRecord, states: seq<State>, counts: seq<nat>)
    requires r.cursor <= |wf| && History(wf, r.cursor, states, counts) && states[0] == r.state
    requires r.cursor + |counts| == |wf|
    ensures Execute(wf, r, None) == RunRecord(states[|counts|], Succeeded, |wf|)
    ensures CallsOf(wf, r, None) == CallsAlong(wf, r.cursor, states, counts)
  {
    var all, ks := CleanRun(wf, r);
    HistoryIsUnique(wf, r.cursor, all, ks, states, counts);
    NeverExhausts(wf, r.cursor, states, counts);
    assert states[..|states|] == states && counts[..|counts|] == counts;
  }

  // ------------------------------------------------------------------ plain workflows

  /** The step functions of the first `k` steps, one after the other. */
  function Fold(wf: Workflow, s: State, k: nat): State
    requires k <= |wf|
  {
    if k == 0 then s else wf[k - 1].run(Fold(wf, s, k - 1))
  }

  /** The states before and after each of `n` steps from step `i` on. */
  function Folds(wf: Workflow, s: State, i: nat, n: nat): (states: seq<State>)
    requires i + n <= |wf|
    ensures |states| == n + 1
  {
    seq(n + 1, k requires 0 <= k <= n => Fold(wf, s, i + k))
  }

  function Ones(n: nat): (ones: seq<nat>)
    ensures |ones| == n
  {
    seq(n, k => 1)
  }

  /** One call of each of these steps. */
  function CallsEach(wf: Workflow, s: State, i: nat, n: nat): seq<Call>
    requires i + n <= |wf|
  {
    seq(n, k requires 0 <= k < n => Call(i + k, Fold(wf, s, i + k)))
  }

  lemma {:induction false} PlainTails(wf: Workflow, s: State, i: nat, n: nat)
    requires 0 < n && i + n <= |wf|
    ensures Folds(wf, s, i, n)[1..] == Folds(wf, s, i + 1, n - 1) && Ones(n)[1..] == Ones(n - 1)
    ensures CallsEach(wf, s, i, n) == [Call(i, Fold(wf, s, i))] + CallsEach(wf, s, i + 1, n - 1)
  {
  }

  lemma {:induction false} PlainCalls(wf: Workflow, s: State, i: nat, n: nat)
    requires i + n <= |wf|
    ensures CallsAlong(wf, i, Folds(wf, s, i, n), Ones(n)) == CallsEach(wf, s, i, n)
    decreases n
  {
    if n > 0 {
      PlainTails(wf, s, i, n);
      PlainCalls(wf, s, i + 1, n - 1);
      assert Row(wf, i, Fold(wf, s, i), 0, 1) == [Call(i, Fold(wf, s, i))];
    }
  }

  lemma {:induction false} PlainHistory(wf: Workflow, s: State)
    requires forall i :: 0 <= i < |wf| ==> wf[i].condition == None && wf[i].loopWhile == None
    ensures History(wf, 0, Folds(wf, s, 0, |wf|), Ones(|wf|))
  {
    forall k | 0 <= k < |wf|
      ensures Does(wf[k], Fold(wf, s, k), 1) && Fold(wf, s, k + 1) == Times(wf[k], Fold(wf, s, k), 1)
    {
      assert Times(wf[k], Fold(wf, s, k), 0) == Fold(wf, s, k);
    }
  }

  /** Without conditions and loops every step is called once, and the run ends in the fold of the step functions. */
  lemma {:induction false} PlainRunFolds(wf: Workflow, s: State)
    requires forall i :: 0 <= i < |wf| ==> wf[i].condition == None && wf[i].loopWhile == None
    ensures Execute(wf, RunRecord(s, NotStarted, 0), None) == RunRecord(Fold(wf, s, |wf|), Succeeded, |wf|)
    ensures CallsOf(wf, RunRecord(s, NotStarted, 0), None) == CallsEach(wf, s, 0, |wf|)
  {
    PlainHistory(wf, s);
    SucceedsExactlyWhen(wf, RunRecord(s, NotStarted, 0), Folds(wf, s, 0, |wf|), Ones(|wf|));
    PlainCalls(wf, s, 0, |wf|);
  }
}

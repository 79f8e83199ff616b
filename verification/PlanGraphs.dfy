/** From a plan to a task graph, and what running that graph means for the plan's groups. */
module PlanGraphs {
  import opened Common
  import opened TaskGraphs
  import opened TaskRuns
  import opened TaskInvariant
  import opened TaskMeaning
  import opened TaskLayers
  import opened Planning

  /** The number of attempts a task has by default. */
  const DEFAULT_MAX_ATTEMPTS := 3

  function IndexOf(ids: seq<Id>, t: Id): (i: nat)
    requires t in ids
    ensures i < |ids| && ids[i] == t
  {
    if ids[0] == t then 0 else 1 + IndexOf(ids[1..], t)
  }

  function DepIds(dependsOn: seq<int>, ids: seq<Id>): set<Id> {
    set j | j in dependsOn && 0 <= j < |ids| :: ids[j]
  }

  /** The task graph of a plan whose i-th step became the task `ids[i]`. */
  function PlanGraph(steps: seq<PlanStep>, ids: seq<Id>): Graph
    requires |ids| == |steps|
  {
    map t | t in ids :: Node(DepIds(steps[IndexOf(ids, t)].dependsOn, ids), DEFAULT_MAX_ATTEMPTS)
  }

  function PlanStart(ids: seq<Id>): States {
    map t | t in ids :: TaskState(Pending, 0, None, None)
  }

  function PlanLevels(flat: seq<Clause>, ids: seq<Id>): Levels
    requires |ids| == |flat|
  {
    map t | t in ids :: flat[IndexOf(ids, t)].level
  }

  lemma {:induction false} PlanNode(steps: seq<PlanStep>, flat: seq<Clause>, ids: seq<Id>, i: nat)
    requires |ids| == |steps| == |flat| && Distinct(ids) && i < |ids|
    ensures ids[i] in ids && IndexOf(ids, ids[i]) == i
    ensures PlanGraph(steps, ids)[ids[i]] == Node(DepIds(steps[i].dependsOn, ids), DEFAULT_MAX_ATTEMPTS)
    ensures PlanLevels(flat, ids)[ids[i]] == flat[i].level
    ensures PlanStart(ids)[ids[i]] == TaskState(Pending, 0, None, None)
  {
  }

  /** The layer of the graph that a group of the plan becomes. */
  lemma {:induction false} LayerOfPlan(flat: seq<Clause>, ids: seq<Id>, w: int)
    requires |ids| == |flat| && Distinct(ids)
    ensures Layer(PlanLevels(flat, ids), w) == DepIds(Indices(flat, w), ids)
  {
    var lv := PlanLevels(flat, ids);
    forall t
      ensures t in Layer(lv, w) <==> t in DepIds(Indices(flat, w), ids)
    {
      if t in Layer(lv, w) {
        IndicesMeaning(flat, w, IndexOf(ids, t));
      }
      if t in DepIds(Indices(flat, w), ids) {
        var j :| j in Indices(flat, w) && 0 <= j < |ids| && t == ids[j];
        IndicesMeaning(flat, w, j);
        assert IndexOf(ids, t) == j;
      }
    }
  }

  function GroupDeps(flat: seq<Clause>, ids: seq<Id>, i: nat): set<Id>
    requires i < |flat|
  {
    DepIds(Indices(flat, flat[i].level - 1), ids)
  }

  /** Every task of `g` waits for the whole group before its own. */
  ghost predicate WaitsForGroup(g: Graph, flat: seq<Clause>, ids: seq<Id>) {
    && |ids| == |flat|
    && (forall t :: t in g <==> t in ids)
    && (forall i :: 0 <= i < |ids| ==> g[ids[i]].deps == GroupDeps(flat, ids, i))
  }

  lemma {:induction false} PlanWaitsForGroups(steps: seq<PlanStep>, flat: seq<Clause>, route: string -> string,
                                              ids: seq<Id>)
    requires Distinct(ids) && |ids| == |steps| && IsPlan(steps, flat, route)
    ensures WaitsForGroup(PlanGraph(steps, ids), flat, ids)
  {
    forall i | 0 <= i < |ids|
      ensures PlanGraph(steps, ids)[ids[i]].deps == GroupDeps(flat, ids, i)
    {
      PlanNode(steps, flat, ids, i);
      assert steps[i] == StepFor(flat, flat[i], route);
    }
  }

  lemma {:induction false} GroupDepsAreLayer(deps: set<Id>, flat: seq<Clause>, ids: seq<Id>, i: nat)
    requires Distinct(ids) && |ids| == |flat| && i < |flat| && deps == GroupDeps(flat, ids, i)
    ensures IndexOf(ids, ids[i]) == i
    ensures deps == Layer(PlanLevels(flat, ids), PlanLevels(flat, ids)[ids[i]] - 1)
  {
    assert IndexOf(ids, ids[i]) == i;
    LayerOfPlan(flat, ids, flat[i].level - 1);
  }

  lemma {:induction false} LayerIsInhabited(flat: seq<Clause>, n: nat, ids: seq<Id>, w: nat)
    requires Distinct(ids) && |ids| == |flat| && Contiguous(flat, n) && w < n
    ensures Layer(PlanLevels(flat, ids), w) != {}
  {
    assert HasLevel(flat, w);
    var i :| 0 <= i < |flat| && flat[i].level == w;
    assert IndexOf(ids, ids[i]) == i;
    assert ids[i] in Layer(PlanLevels(flat, ids), w);
  }

  lemma {:induction false} TasksWaitForLayers(g: Graph, flat: seq<Clause>, n: nat, ids: seq<Id>)
    requires Distinct(ids) && WaitsForGroup(g, flat, ids)
    requires forall i :: 0 <= i < |flat| ==> 0 <= flat[i].level < n
    ensures
      var lv := PlanLevels(flat, ids);
      forall t :: t in lv ==> 0 <= lv[t] < n && g[t].deps == Layer(lv, lv[t] - 1)
  {
    var lv := PlanLevels(flat, ids);
    forall t | t in lv
      ensures 0 <= lv[t] < n && g[t].deps == Layer(lv, lv[t] - 1)
    {
      var i := IndexOf(ids, t);
      GroupDepsAreLayer(g[ids[i]].deps, flat, ids, i);
    }
  }

  /** A graph whose tasks wait for whole groups has the groups as its layers. */
  lemma {:induction false} GroupsAreLayers(g: Graph, flat: seq<Clause>, n: nat, ids: seq<Id>)
    requires Distinct(ids) && WaitsForGroup(g, flat, ids) && Contiguous(flat, n)
    ensures Layered(g, PlanLevels(flat, ids), n)
  {
    TasksWaitForLayers(g, flat, n, ids);
    forall w | 0 <= w < n {
      LayerIsInhabited(flat, n, ids, w);
    }
  }

  /** The graph of a plan has the plan's groups as its layers. */
  lemma {:induction false} PlanIsLayered(steps: seq<PlanStep>, flat: seq<Clause>, n: nat, route: string -> string,
                                         ids: seq<Id>)
    requires Distinct(ids) && |ids| == |steps| && IsPlan(steps, flat, route) && Contiguous(flat, n)
    ensures Layered(PlanGraph(steps, ids), PlanLevels(flat, ids), n)
  {
    PlanWaitsForGroups(steps, flat, route, ids);
    GroupsAreLayers(PlanGraph(steps, ids), flat, n, ids);
  }

  lemma {:induction false} DepIsEarlier(flat: seq<Clause>, n: nat, ids: seq<Id>, i: nat, t: Id)
    requires Contiguous(flat, n) && |ids| == |flat| && i < |ids|
    requires t in GroupDeps(flat, ids, i)
    ensures t in Elements(ids[..i])
  {
    var j :| j in Indices(flat, flat[i].level - 1) && 0 <= j < |ids| && t == ids[j];
    IndicesMeaning(flat, flat[i].level - 1, j);
    assert ids[..i][j] == t;
  }

  lemma {:induction false} GroupsAreTopological(g: Graph, flat: seq<Clause>, n: nat, ids: seq<Id>)
    requires Distinct(ids) && WaitsForGroup(g, flat, ids) && Contiguous(flat, n)
    ensures IsTopological(DepsOf(g), ids)
  {
    forall i, t | 0 <= i < |ids| && t in g[ids[i]].deps
      ensures t in Elements(ids[..i])
    {
      DepIsEarlier(flat, n, ids, i, t);
    }
  }

  /** Creation order is already a topological order of the graph of a plan, so its validation succeeds. */
  lemma {:induction false} PlanIsAcyclic(steps: seq<PlanStep>, flat: seq<Clause>, n: nat, route: string -> string,
                                         ids: seq<Id>)
    requires Distinct(ids) && |ids| == |steps| && IsPlan(steps, flat, route) && Contiguous(flat, n)
    ensures IsTopological(DepsOf(PlanGraph(steps, ids)), ids)
    ensures Closed(DepsOf(PlanGraph(steps, ids))) && !Cyclic(DepsOf(PlanGraph(steps, ids)))
  {
    PlanWaitsForGroups(steps, flat, route, ids);
    GroupsAreTopological(PlanGraph(steps, ids), flat, n, ids);
    TopologicalIsAcyclic(DepsOf(PlanGraph(steps, ids)), ids);
  }

  /** Whether some attempt the executor may make for task `t` returns. */
  ghost predicate StepSucceeds(x: Executor, t: Id) {
    exists k :: 1 <= k <= DEFAULT_MAX_ATTEMPTS && x(t, k).Returns?
  }

  /** `f` is the first group of the plan with a step that fails for good, or the number of groups. */
  ghost predicate FirstFailingGroup(x: Executor, ids: seq<Id>, flat: seq<Clause>, n: nat, f: nat)
    requires |ids| == |flat|
  {
    && f <= n
    && (forall i :: 0 <= i < |flat| && flat[i].level < f ==> StepSucceeds(x, ids[i]))
    && (f < n ==> exists i :: 0 <= i < |flat| && flat[i].level == f && !StepSucceeds(x, ids[i]))
  }

  /** Every executor has a first failing group, counted from any group before which all steps succeed. */
  lemma {:induction false} FirstFailingGroupExists(x: Executor, ids: seq<Id>, flat: seq<Clause>, n: nat, k: nat)
    returns (f: nat)
    requires |ids| == |flat| && k <= n
    requires forall i :: 0 <= i < |flat| && flat[i].level < k ==> StepSucceeds(x, ids[i])
    ensures FirstFailingGroup(x, ids, flat, n, f)
    decreases n - k
  {
    if k == n || exists i :: 0 <= i < |flat| && flat[i].level == k && !StepSucceeds(x, ids[i]) {
      f := k;
    } else {
      f := FirstFailingGroupExists(x, ids, flat, n, k + 1);
    }
  }

  lemma {:induction false} FailingGroupIsFailingLayer(steps: seq<PlanStep>, flat: seq<Clause>, n: nat, ids: seq<Id>,
                                                      x: Executor, f: nat)
    requires Distinct(ids) && |ids| == |steps| == |flat| && FirstFailingGroup(x, ids, flat, n, f)
    ensures FirstFailure(PlanGraph(steps, ids), x, PlanLevels(flat, ids), n, f)
  {
    var g, lv := PlanGraph(steps, ids), PlanLevels(flat, ids);
    forall t | t in g
      ensures Succeeds(g, x, t) <==> StepSucceeds(x, t)
    {
    }
    forall w, t | 0 <= w < f && t in g && t in Layer(lv, w)
      ensures Succeeds(g, x, t)
    {
      assert flat[IndexOf(ids, t)].level == w;
    }
    if f < n {
      var i :| 0 <= i < |flat| && flat[i].level == f && !StepSucceeds(x, ids[i]);
      PlanNode(steps, flat, ids, i);
      assert ids[i] in g && ids[i] in Layer(lv, f);
    }
  }

  /**
   Running a plan.  Wave w of any finished run is the w-th group, up to and
   including the first group with a step that fails for good; the steps before
   that group are completed, each step in it is decided by its own attempts, and
   the steps after it are pending and were never dispatched.
   */
  lemma {:induction false} PlanRunsInGroups(steps: seq<PlanStep>, flat: seq<Clause>, n: nat, route: string -> string,
                                            ids: seq<Id>, x: Executor, s: Sys, f: nat)
    requires Distinct(ids) && |ids| == |steps| && IsPlan(steps, flat, route) && Contiguous(flat, n)
    requires FirstFailingGroup(x, ids, flat, n, f)
    requires Reachable(PlanGraph(steps, ids), x, PlanStart(ids), s) && Finished(PlanGraph(steps, ids), s)
    ensures |s.waves| == if f < n then f + 1 else n
    ensures forall w :: 0 <= w < |s.waves| ==> s.waves[w] == DepIds(Indices(flat, w), ids)
    ensures forall i :: 0 <= i < |ids| ==> PlanStepFate(flat, ids, x, s, f, i)
  {
    var g, lv, init := PlanGraph(steps, ids), PlanLevels(flat, ids), PlanStart(ids);
    PlanIsLayered(steps, flat, n, route, ids);
    FailingGroupIsFailingLayer(steps, flat, n, ids, x, f);
    LayersRunInOrder(g, x, init, lv, n, s, f);
    forall w | 0 <= w < |s.waves|
      ensures s.waves[w] == DepIds(Indices(flat, w), ids)
    {
      LayerOfPlan(flat, ids, w);
    }
    forall i | 0 <= i < |ids|
      ensures PlanStepFate(flat, ids, x, s, f, i)
    {
      PlanNode(steps, flat, ids, i);
    }
  }

  /** How step `i` ends up when `f` is the first failing group. */
  ghost predicate PlanStepFate(flat: seq<Clause>, ids: seq<Id>, x: Executor, s: Sys, f: nat, i: int)
    requires |ids| == |flat| && 0 <= i < |ids|
  {
    && ids[i] in s.tasks
    && (flat[i].level < f ==> s.tasks[ids[i]].status == Completed)
    && (flat[i].level == f ==> s.tasks[ids[i]].status == if StepSucceeds(x, ids[i]) then Completed else Failed)
    && (flat[i].level > f ==> s.tasks[ids[i]] == TaskState(Pending, 0, None, None) && Story(s.log, ids[i]) == [])
  }
}

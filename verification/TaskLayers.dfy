/**
 Graphs made of layers, each waiting for the whole layer before it, as the planner
 builds them: the waves of a run are the layers themselves, and the first layer
 with a task that fails for good is the last one to be started.
 */
module TaskLayers {
  import opened TaskGraphs
  import opened TaskRuns
  import opened TaskInvariant
  import opened TaskMeaning

  /** The layer of each task. */
  type Levels = map<Id, int>

  function Layer(lv: Levels, w: int): set<Id> {
    set t | t in lv && lv[t] == w
  }

  /** `n` non-empty layers; a task waits for exactly the layer before its own. */
  ghost predicate Layered(g: Graph, lv: Levels, n: nat) {
    && lv.Keys == g.Keys
    && (forall t :: t in lv ==> 0 <= lv[t] < n && g[t].deps == Layer(lv, lv[t] - 1))
    && (forall w :: 0 <= w < n ==> Layer(lv, w) != {})
  }

  ghost predicate Succeeds(g: Graph, x: Executor, t: Id)
    requires t in g
  {
    exists k :: 1 <= k <= Allowance(g[t].maxAttempts) && x(t, k).Returns?
  }

  ghost predicate LayerSucceeds(g: Graph, x: Executor, lv: Levels, w: int) {
    forall t :: t in g && t in Layer(lv, w) ==> Succeeds(g, x, t)
  }

  /** `f` is the first layer with a task all of whose attempts fail, or the number of layers. */
  ghost predicate FirstFailure(g: Graph, x: Executor, lv: Levels, n: nat, f: nat) {
    && f <= n
    && (forall w :: 0 <= w < f ==> LayerSucceeds(g, x, lv, w))
    && (f < n ==> !LayerSucceeds(g, x, lv, f))
  }

  /** The waves so far are the first layers, and all but the last of them succeed. */
  ghost predicate WavesAreLayers(g: Graph, x: Executor, lv: Levels, n: nat, waves: seq<set<Id>>) {
    && |waves| <= n
    && (forall w :: 0 <= w < |waves| ==> waves[w] == Layer(lv, w))
    && (forall w :: 0 <= w < |waves| - 1 ==> LayerSucceeds(g, x, lv, w))
  }

  lemma {:induction false} StartedLevels(lv: Levels, waves: seq<set<Id>>, t: Id)
    requires forall w :: 0 <= w < |waves| ==> waves[w] == Layer(lv, w)
    requires forall u :: u in lv ==> 0 <= lv[u]
    ensures t in Started(waves) <==> t in lv && lv[t] < |waves|
  {
    if waves != [] {
      StartedLevels(lv, waves[..|waves| - 1], t);
    }
  }

  /** A started task without a live coroutine is what its own attempts make of it. */
  lemma {:induction false} ReturnedTask(g: Graph, x: Executor, init: States, s: Sys, t: Id)
    requires Inv(g, x, init, s) && t in g && t in Started(s.waves) && t !in s.live
    ensures s.tasks[t] == Attempts(x, g[t].maxAttempts, t, init[t])
  {
    assert TaskInv(g, x, init, s, t);
  }

  lemma {:induction false} UntouchedTask(g: Graph, x: Executor, init: States, s: Sys, t: Id)
    requires Inv(g, x, init, s) && t in g && t !in Started(s.waves)
    ensures s.tasks[t] == init[t] && Story(s.log, t) == []
  {
    assert TaskInv(g, x, init, s, t);
  }

  /** Between waves, the layers already started have run to their end and the others are untouched. */
  lemma {:induction false} LayerState(g: Graph, x: Executor, init: States, lv: Levels, n: nat, s: Sys, t: Id)
    requires Layered(g, lv, n) && AllPending(init) && Inv(g, x, init, s) && s.live == map[]
    requires WavesAreLayers(g, x, lv, n, s.waves) && t in g
    ensures lv[t] < |s.waves| ==>
      && (s.tasks[t].status == Completed || s.tasks[t].status == Failed)
      && (s.tasks[t].status == Completed <==> Succeeds(g, x, t))
    ensures lv[t] >= |s.waves| ==> s.tasks[t] == init[t] && Story(s.log, t) == []
  {
    StartedLevels(lv, s.waves, t);
    if lv[t] < |s.waves| {
      ReturnedTask(g, x, init, s, t);
      AttemptsMeaning(x, g[t].maxAttempts, t, init[t]);
    } else {
      UntouchedTask(g, x, init, s, t);
    }
  }

  /** Between waves, the dependencies of a task are complete exactly when the layer below was run and succeeded. */
  lemma {:induction false} DepsState(g: Graph, x: Executor, init: States, lv: Levels, n: nat, s: Sys, t: Id)
    requires Layered(g, lv, n) && AllPending(init) && Inv(g, x, init, s) && s.live == map[]
    requires WavesAreLayers(g, x, lv, n, s.waves) && t in g
    ensures g[t].deps <= CompletedIds(s.tasks) <==> lv[t] <= |s.waves| && LayerSucceeds(g, x, lv, lv[t] - 1)
  {
    var below := Layer(lv, lv[t] - 1);
    forall d | d in below
      ensures d in CompletedIds(s.tasks) <==> lv[t] <= |s.waves| && Succeeds(g, x, d)
    {
      LayerState(g, x, init, lv, n, s, d);
    }
    if lv[t] > |s.waves| {
      assert below != {};
    }
  }

  /** Between waves, exactly the next layer is ready, provided the layer before it succeeded. */
  lemma {:induction false} ReadyTask(g: Graph, x: Executor, init: States, lv: Levels, n: nat, s: Sys, t: Id)
    requires Layered(g, lv, n) && AllPending(init) && Inv(g, x, init, s) && s.live == map[]
    requires WavesAreLayers(g, x, lv, n, s.waves) && t in g
    ensures t in Ready(g, s.tasks) <==> lv[t] == |s.waves| && LayerSucceeds(g, x, lv, lv[t] - 1)
  {
    LayerState(g, x, init, lv, n, s, t);
    DepsState(g, x, init, lv, n, s, t);
  }

  lemma {:induction false} ReadyLayer(g: Graph, x: Executor, init: States, lv: Levels, n: nat, s: Sys)
    requires Layered(g, lv, n) && AllPending(init) && Inv(g, x, init, s) && s.live == map[]
    requires WavesAreLayers(g, x, lv, n, s.waves)
    ensures Ready(g, s.tasks) == if LayerSucceeds(g, x, lv, |s.waves| - 1) then Layer(lv, |s.waves|) else {}
  {
    forall t
      ensures t in Ready(g, s.tasks) <==> t in Layer(lv, |s.waves|) && LayerSucceeds(g, x, lv, |s.waves| - 1)
    {
      if t in g {
        ReadyTask(g, x, init, lv, n, s, t);
      }
    }
  }

  lemma {:induction false} AppendLayer(g: Graph, x: Executor, lv: Levels, n: nat, waves: seq<set<Id>>)
    requires WavesAreLayers(g, x, lv, n, waves) && |waves| < n && LayerSucceeds(g, x, lv, |waves| - 1)
    ensures WavesAreLayers(g, x, lv, n, waves + [Layer(lv, |waves|)])
  {
  }

  /** Starting a wave appends the next layer. */
  lemma {:induction false} StartKeepsLayers(g: Graph, x: Executor, init: States, lv: Levels, n: nat, s: Sys)
    requires Layered(g, lv, n) && AllPending(init) && Inv(g, x, init, s) && s.live == map[]
    requires WavesAreLayers(g, x, lv, n, s.waves) && Ready(g, s.tasks) != {}
    ensures WavesAreLayers(g, x, lv, n, StartWave(g, s).waves)
  {
    ReadyLayer(g, x, init, lv, n, s);
    var t :| t in Ready(g, s.tasks);
    assert t in Layer(lv, |s.waves|) && lv[t] == |s.waves|;
    AppendLayer(g, x, lv, n, s.waves);
  }

  lemma {:induction false} NextKeepsLayers(g: Graph, x: Executor, init: States, lv: Levels, n: nat, s: Sys, s': Sys)
    requires Layered(g, lv, n) && AllPending(init) && Inv(g, x, init, s) && Next(g, x, s, s')
    requires WavesAreLayers(g, x, lv, n, s.waves)
    ensures WavesAreLayers(g, x, lv, n, s'.waves)
  {
    if s.live == map[] && !Finished(g, s) && s' == StartWave(g, s) {
      StartKeepsLayers(g, x, init, lv, n, s);
    } else {
      var t :| t in s.live && t in g && t in s.tasks && s' == ResumeTask(g, x, s, t);
      assert s'.waves == s.waves;
    }
  }

  lemma {:induction false} RunFollowsLayers(g: Graph, x: Executor, init: States, lv: Levels, n: nat, run: seq<Sys>)
    requires g.Keys == init.Keys && Layered(g, lv, n) && AllPending(init) && IsRun(g, x, init, run)
    ensures forall i :: 0 <= i < |run| ==> WavesAreLayers(g, x, lv, n, run[i].waves)
  {
    RunKeepsInv(g, x, init, run);
    var k := 1;
    while k < |run|
      invariant 1 <= k <= |run|
      invariant forall i :: 0 <= i < k ==> WavesAreLayers(g, x, lv, n, run[i].waves)
    {
      assert Next(g, x, run[k - 1], run[k - 1 + 1]);
      NextKeepsLayers(g, x, init, lv, n, run[k - 1], run[k]);
      k := k + 1;
    }
  }

  /** While a layer is left, a finished run is one whose last wave did not succeed. */
  lemma {:induction false} FinishedIsBlocked(g: Graph, x: Executor, init: States, lv: Levels, n: nat, s: Sys)
    requires Layered(g, lv, n) && AllPending(init) && Inv(g, x, init, s) && Finished(g, s)
    requires WavesAreLayers(g, x, lv, n, s.waves) && |s.waves| < n
    ensures !LayerSucceeds(g, x, lv, |s.waves| - 1)
  {
    var t :| t in Layer(lv, |s.waves|);
    LayerState(g, x, init, lv, n, s, t);
    assert s.tasks[t].status == Pending;
    ReadyTask(g, x, init, lv, n, s, t);
  }

  /** A finished run stopped right after the first failing layer, or after the last one. */
  lemma {:induction false} FinishedAtFailure(g: Graph, x: Executor, init: States, lv: Levels, n: nat, s: Sys, f: nat)
    requires Layered(g, lv, n) && AllPending(init) && Inv(g, x, init, s) && Finished(g, s)
    requires WavesAreLayers(g, x, lv, n, s.waves) && FirstFailure(g, x, lv, n, f)
    ensures |s.waves| == if f < n then f + 1 else n
  {
    var k := |s.waves|;
    assert LayerSucceeds(g, x, lv, -1);
    if k < n {
      FinishedIsBlocked(g, x, init, lv, n, s);
    }
  }

  lemma {:induction false} FinishedTask(g: Graph, x: Executor, init: States, lv: Levels, n: nat, s: Sys, f: nat, t: Id)
    requires Layered(g, lv, n) && AllPending(init) && Inv(g, x, init, s) && Finished(g, s)
    requires WavesAreLayers(g, x, lv, n, s.waves) && FirstFailure(g, x, lv, n, f) && t in g
    ensures lv[t] < f ==> s.tasks[t].status == Completed
    ensures lv[t] == f ==> s.tasks[t].status == if Succeeds(g, x, t) then Completed else Failed
    ensures lv[t] > f ==> s.tasks[t] == init[t] && Story(s.log, t) == []
  {
    FinishedAtFailure(g, x, init, lv, n, s, f);
    LayerState(g, x, init, lv, n, s, t);
    if lv[t] < f {
      assert t in Layer(lv, lv[t]) && LayerSucceeds(g, x, lv, lv[t]);
    }
  }

  /**
   The whole story of a layered graph.  The waves of a finished run are the layers
   up to and including the first failing one; before it every task completed, in it
   each task is decided by its own attempts, and after it none was ever started.
   */
  lemma {:induction false} LayersRunInOrder(g: Graph, x: Executor, init: States, lv: Levels, n: nat, s: Sys, f: nat)
    requires g.Keys == init.Keys && Layered(g, lv, n) && AllPending(init)
    requires Reachable(g, x, init, s) && Finished(g, s) && FirstFailure(g, x, lv, n, f)
    ensures s.tasks.Keys == g.Keys
    ensures |s.waves| == (if f < n then f + 1 else n) && forall w :: 0 <= w < |s.waves| ==> s.waves[w] == Layer(lv, w)
    ensures forall t :: t in g && lv[t] < f ==> s.tasks[t].status == Completed
    ensures forall t :: t in g && lv[t] == f ==> s.tasks[t].status == if Succeeds(g, x, t) then Completed else Failed
    ensures forall t :: t in g && lv[t] > f ==> s.tasks[t] == init[t] && Story(s.log, t) == []
  {
    var run :| IsRun(g, x, init, run) && run[|run| - 1] == s;
    RunKeepsInv(g, x, init, run);
    RunFollowsLayers(g, x, init, lv, n, run);
    FinishedAtFailure(g, x, init, lv, n, s, f);
    forall t | t in g
      ensures lv[t] < f ==> s.tasks[t].status == Completed
      ensures lv[t] == f ==> s.tasks[t].status == if Succeeds(g, x, t) then Completed else Failed
      ensures lv[t] > f ==> s.tasks[t] == init[t] && Story(s.log, t) == []
    {
      FinishedTask(g, x, init, lv, n, s, f, t);
    }
  }
}

/**
 What a plan is, in terms of the objective's text: which pieces become groups, which
 become clauses, and which steps a step waits for.
 */
module PlanMeanings {
  import opened Common
  import opened ClauseCuts
  import opened Planning
  import opened Texts

  /** The piece is not blank. */
  function Spoken(pieces: seq<string>): nat -> bool {
    (k: nat) => k < |pieces| && Strip(pieces[k]) != ""
  }

  /** The pieces that are not blank, stripped, in their order. */
  ghost predicate AreStripped(kept: seq<string>, pieces: seq<string>) {
    exists ix :: ArePicked(kept, pieces, ix)
  }

  ghost predicate ArePicked(kept: seq<string>, pieces: seq<string>, ix: seq<nat>) {
    && Picks(ix, |pieces|, Spoken(pieces)) && |kept| == |ix|
    && forall k :: 0 <= k < |ix| ==> ix[k] < |pieces| && kept[k] == Strip(pieces[ix[k]])
  }

  lemma {:induction false} KeptUpTo(pieces: seq<string>, n: nat)
    requires n <= |pieces|
    ensures
      var ix := Positions(n, Spoken(pieces));
      && |Kept(pieces[..n])| == |ix|
      && forall k :: 0 <= k < |ix| ==> ix[k] < |pieces| && Kept(pieces[..n])[k] == Strip(pieces[ix[k]])
  {
    if n > 0 {
      KeptUpTo(pieces, n - 1);
      assert pieces[..n][..n - 1] == pieces[..n - 1];
    }
  }

  lemma {:induction false} KeptMeaning(pieces: seq<string>)
    ensures AreStripped(Kept(pieces), pieces)
  {
    PositionsPick(|pieces|, Spoken(pieces));
    KeptUpTo(pieces, |pieces|);
    assert pieces[..|pieces|] == pieces;
    assert ArePicked(Kept(pieces), pieces, Positions(|pieces|, Spoken(pieces)));
  }

  /** The clauses of a group: its parts that are not blank, or the group itself when all are. */
  ghost predicate AreClauses(sp: Splitter, clauses: seq<string>, group: string) {
    var parts := Cut(sp, AndOrMark, group);
    if forall k :: 0 <= k < |parts| ==> Strip(parts[k]) == "" then clauses == [group]
    else AreStripped(clauses, parts)
  }

  lemma {:induction false} ClausesMeaning(sp: Splitter, group: string)
    ensures AreClauses(sp, Clauses(sp, group), group)
  {
    var parts := Cut(sp, AndOrMark, group);
    KeptMeaning(parts);
    var ix :| ArePicked(Kept(parts), parts, ix);
    assert |ix| > 0 ==> Spoken(parts)(ix[0]) && Strip(parts[ix[0]]) != "";
    if exists k :: 0 <= k < |parts| && Strip(parts[k]) != "" {
      var k :| 0 <= k < |parts| && Strip(parts[k]) != "";
      assert Spoken(parts)(k) && k in ix;
    }
  }

  /** Group `w` is made of the w-th piece that is not blank. */
  ghost predicate AreGroups(sp: Splitter, groups: seq<seq<string>>, pieces: seq<string>, ix: seq<nat>) {
    && Picks(ix, |pieces|, Spoken(pieces)) && |groups| == |ix|
    && forall w :: 0 <= w < |ix| ==> ix[w] < |pieces| && AreClauses(sp, groups[w], Strip(pieces[ix[w]]))
  }

  lemma {:induction false} GroupsUpTo(sp: Splitter, pieces: seq<string>, n: nat)
    requires n <= |pieces|
    ensures
      var ix := Positions(n, Spoken(pieces));
      && |Groups(sp, pieces[..n])| == |ix|
      && forall w :: 0 <= w < |ix| ==>
           ix[w] < |pieces| && Groups(sp, pieces[..n])[w] == Clauses(sp, Strip(pieces[ix[w]]))
  {
    if n > 0 {
      GroupsUpTo(sp, pieces, n - 1);
      GroupsAppend(sp, pieces, n - 1);
      var before, now := Groups(sp, pieces[..n - 1]), Groups(sp, pieces[..n]);
      assert |before| <= |now| && forall w :: 0 <= w < |before| ==> now[w] == before[w];
    }
  }

  lemma {:induction false} GroupsMeaning(sp: Splitter, pieces: seq<string>) returns (ix: seq<nat>)
    ensures AreGroups(sp, Groups(sp, pieces), pieces, ix)
  {
    ix := Positions(|pieces|, Spoken(pieces));
    PositionsPick(|pieces|, Spoken(pieces));
    GroupsUpTo(sp, pieces, |pieces|);
    assert pieces[..|pieces|] == pieces;
    forall w | 0 <= w < |ix|
      ensures AreClauses(sp, Groups(sp, pieces)[w], Strip(pieces[ix[w]]))
    {
      ClausesMeaning(sp, Strip(pieces[ix[w]]));
    }
  }

  // ------------------------------------------------------------------ where the steps stand

  /** The number of steps in the first `w` groups. */
  function StepsBefore(groups: seq<seq<string>>, w: nat): nat
    requires w <= |groups|
  {
    if w == 0 then 0 else StepsBefore(groups, w - 1) + |groups[w - 1]|
  }

  /** The numbers from `a` up to `b`. */
  function Range(a: int, b: int): seq<int>
    requires a <= b
  {
    seq(b - a, k requires 0 <= k < b - a => a + k)
  }

  lemma {:induction false} StepsBeforeFront(groups: seq<seq<string>>, n: nat, w: nat)
    requires w <= n <= |groups|
    ensures StepsBefore(groups[..n], w) == StepsBefore(groups, w)
  {
    if w > 0 {
      StepsBeforeFront(groups, n, w - 1);
    }
  }

  lemma {:induction false} StepsGrow(groups: seq<seq<string>>, v: nat, w: nat)
    requires v <= w <= |groups|
    ensures StepsBefore(groups, v) <= StepsBefore(groups, w)
  {
    if v < w {
      StepsGrow(groups, v, w - 1);
    }
  }

  lemma {:induction false} FlatSize(groups: seq<seq<string>>)
    ensures |Flat(groups)| == StepsBefore(groups, |groups|)
  {
    if groups != [] {
      var n := |groups| - 1;
      FlatSize(groups[..n]);
      StepsBeforeFront(groups, n, n);
    }
  }

  /** Clause `j` of group `w` is the clause of that step. */
  lemma {:induction false} FlatAt(groups: seq<seq<string>>, w: nat, j: nat)
    requires w < |groups| && j < |groups[w]|
    ensures StepsBefore(groups, w) + j < |Flat(groups)|
    ensures Flat(groups)[StepsBefore(groups, w) + j] == Clause(w, groups[w][j])
  {
    var n := |groups| - 1;
    FlatSize(groups[..n]);
    StepsBeforeFront(groups, n, w);
    StepsBeforeFront(groups, n, n);
    if w < n {
      FlatAt(groups[..n], w, j);
    }
  }

  lemma {:induction false} NoneOfLevel(groups: seq<seq<string>>, w: int)
    requires w < 0 || w >= |groups|
    ensures Indices(Flat(groups), w) == []
  {
    if groups != [] {
      var n := |groups| - 1;
      NoneOfLevel(groups[..n], w);
      TagIndices(Flat(groups[..n]), n, groups[n], |groups[n]|, w);
      assert groups[n][..|groups[n]|] == groups[n];
    }
  }

  /** The positions of one level after some clauses of level `n` are appended. */
  lemma {:induction false} TagIndices(flat: seq<Clause>, n: int, texts: seq<string>, k: nat, w: int)
    requires k <= |texts|
    ensures Indices(flat + Tag(n, texts[..k]), w) ==
            Indices(flat, w) + if w == n then Range(|flat|, |flat| + k) else []
  {
    if k == 0 {
      assert flat + Tag(n, texts[..0]) == flat;
    } else {
      TagIndices(flat, n, texts, k - 1, w);
      TagNext(flat, n, texts, k - 1);
      assert |Tag(n, texts[..k - 1])| == k - 1;
      OneMoreIndex(Indices(flat, w), |flat|, flat + Tag(n, texts[..k - 1]), Clause(n, texts[k - 1]), w);
    }
  }

  lemma {:induction false} OneMoreIndex(before: seq<int>, start: nat, flat: seq<Clause>, c: Clause, w: int)
    requires start <= |flat| && Indices(flat, w) == before + if w == c.level then Range(start, |flat|) else []
    ensures Indices(flat + [c], w) == before + if w == c.level then Range(start, |flat| + 1) else []
  {
    IndicesAppend(flat, c, w);
    RangeNext(start, |flat|);
    Regroup(before, Range(start, |flat|), [|flat|]);
  }

  lemma {:induction false} RangeNext(a: int, b: int)
    requires a <= b
    ensures Range(a, b + 1) == Range(a, b) + [b]
  {
  }

  /** The steps of a group are consecutive. */
  lemma {:induction false} IndicesAre(groups: seq<seq<string>>, w: nat)
    requires w < |groups|
    ensures StepsBefore(groups, w) <= StepsBefore(groups, w + 1)
    ensures Indices(Flat(groups), w) == Range(StepsBefore(groups, w), StepsBefore(groups, w + 1))
  {
    var n := |groups| - 1;
    FlatSize(groups[..n]);
    StepsBeforeFront(groups, n, n);
    TagIndices(Flat(groups[..n]), n, groups[n], |groups[n]|, w);
    assert groups[n][..|groups[n]|] == groups[n];
    if w < n {
      IndicesAre(groups[..n], w);
      StepsBeforeFront(groups, n, w);
      StepsBeforeFront(groups, n, w + 1);
    } else {
      NoneOfLevel(groups[..n], n);
    }
  }

  /** The plan that is made of some groups: a step waits for all the steps of the group before its own, and no other. */
  ghost predicate PlansGroups(steps: seq<PlanStep>, groups: seq<seq<string>>, rt: Router) {
    && |steps| == StepsBefore(groups, |groups|)
    && forall w: nat, j: nat :: w < |groups| && j < |groups[w]| ==> StepIs(steps, groups, rt, w, j)
  }

  ghost predicate StepIs(steps: seq<PlanStep>, groups: seq<seq<string>>, rt: Router, w: nat, j: nat)
    requires w < |groups| && j < |groups[w]|
  {
    var i := StepsBefore(groups, w) + j;
    && i < |steps| && steps[i].objective == groups[w][j] && steps[i].general == Routing(rt)(groups[w][j])
    && (w == 0 ==> steps[i].dependsOn == [])
    && (w > 0 ==>
        && StepsBefore(groups, w - 1) <= StepsBefore(groups, w)
        && steps[i].dependsOn == Range(StepsBefore(groups, w - 1), StepsBefore(groups, w)))
  }

  lemma {:induction false} StepMeaning(steps: seq<PlanStep>, groups: seq<seq<string>>, rt: Router, w: nat, j: nat)
    requires IsPlan(steps, Flat(groups), Routing(rt)) && w < |groups| && j < |groups[w]|
    ensures StepIs(steps, groups, rt, w, j)
  {
    FlatAt(groups, w, j);
    DepsOfGroup(groups, w);
    StepOf(steps, Flat(groups), Routing(rt), StepsBefore(groups, w) + j, Clause(w, groups[w][j]));
  }

  lemma {:induction false} StepOf(steps: seq<PlanStep>, flat: seq<Clause>, route: string -> string, i: nat, c: Clause)
    requires IsPlan(steps, flat, route) && i < |flat| && flat[i] == c
    ensures i < |steps| && steps[i] == PlanStep(route(c.text), c.text, Indices(flat, c.level - 1))
  {
    assert steps[i] == StepFor(flat, flat[i], route);
  }

  lemma {:induction false} DepsOfGroup(groups: seq<seq<string>>, w: nat)
    requires w < |groups|
    ensures w == 0 ==> Indices(Flat(groups), w - 1) == []
    ensures w > 0 ==> StepsBefore(groups, w - 1) <= StepsBefore(groups, w)
    ensures w > 0 ==> Indices(Flat(groups), w - 1) == Range(StepsBefore(groups, w - 1), StepsBefore(groups, w))
  {
    if w > 0 {
      IndicesAre(groups, w - 1);
    } else {
      NoneOfLevel(groups, -1);
    }
  }

  /**
   The plan of an objective.  When every piece between its "then"s is blank it is one
   step with the whole objective for the default general.  Otherwise its groups are the
   pieces that are not blank, in order; the clauses of a group are its parts between
   "and"s and marks that are not blank, in order, or the group itself when there are
   none; and every step has its clause, the general its clause is routed to, and waits
   for exactly the steps of the group before.
   */
  lemma {:induction false} PlanMeaning(sp: Splitter, objective: string, rt: Router, steps: seq<PlanStep>)
    returns (groups: seq<seq<string>>, ix: seq<nat>)
    requires IsPlan(steps, PlanClauses(sp, objective), PlanRoute(sp, objective, Routing(rt), rt.fallback))
    ensures
      var pieces := Cut(sp, Then, objective);
      && AreGroups(sp, groups, pieces, ix)
      && (groups == [] <==> forall k :: 0 <= k < |pieces| ==> Strip(pieces[k]) == "")
      && (groups == [] ==> steps == [PlanStep(rt.fallback, objective, [])])
      && (groups != [] ==> PlansGroups(steps, groups, rt))
  {
    var pieces := Cut(sp, Then, objective);
    groups := Groups(sp, pieces);
    ix := GroupsMeaning(sp, pieces);
    NoGroupsExactlyWhen(sp, groups, pieces, ix);
    if groups == [] {
      DefaultStep(objective, steps, PlanRoute(sp, objective, Routing(rt), rt.fallback), rt.fallback);
    } else {
      StepsMeaning(steps, groups, rt);
    }
  }

  lemma {:induction false} DefaultStep(objective: string, steps: seq<PlanStep>, route: string -> string,
                                       general: string)
    requires IsPlan(steps, [Clause(0, objective)], route) && route(objective) == general
    ensures steps == [PlanStep(general, objective, [])]
  {
    NoIndices([Clause(0, objective)], -1);
    StepOf(steps, [Clause(0, objective)], route, 0, Clause(0, objective));
  }

  lemma {:induction false} NoGroupsExactlyWhen(sp: Splitter, groups: seq<seq<string>>, pieces: seq<string>,
                                               ix: seq<nat>)
    requires AreGroups(sp, groups, pieces, ix)
    ensures groups == [] <==> forall k :: 0 <= k < |pieces| ==> Strip(pieces[k]) == ""
  {
    assert |ix| > 0 ==> Spoken(pieces)(ix[0]) && Strip(pieces[ix[0]]) != "";
    forall k: nat | k < |pieces| && Strip(pieces[k]) != ""
      ensures k in ix
    {
      assert Spoken(pieces)(k);
    }
  }

  lemma {:induction false} StepsMeaning(steps: seq<PlanStep>, groups: seq<seq<string>>, rt: Router)
    requires IsPlan(steps, Flat(groups), Routing(rt))
    ensures PlansGroups(steps, groups, rt)
  {
    FlatSize(groups);
    forall w: nat, j: nat | w < |groups| && j < |groups[w]|
      ensures StepIs(steps, groups, rt, w, j)
    {
      StepMeaning(steps, groups, rt, w, j);
    }
  }
}

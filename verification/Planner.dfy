/**
 The keyword planner: "then" separates groups that run one after the other, the
 clauses of a group run side by side.
 */
module Planning {
  import opened ClauseCuts
  import opened Texts

  datatype PlanStep = PlanStep(general: string, objective: string, dependsOn: seq<int>)

  /** Keywords and their generals in the order they are looked at, and `lower`. */
  datatype Router = Router(routes: seq<(string, string)>, fallback: string, lower: string -> string)

  /** The general of the first keyword that occurs in the lower-case clause. */
  function FirstRoute(routes: seq<(string, string)>, low: string, fallback: string): string {
    if routes == [] then fallback
    else if Contains(low, routes[0].0) then routes[0].1
    else FirstRoute(routes[1..], low, fallback)
  }

  function Routing(rt: Router): string -> string {
    (clause: string) => FirstRoute(rt.routes, rt.lower(clause), rt.fallback)
  }

  /** `_route`: the general is that of the first keyword in the clause, or the default when no keyword is. */
  method Route(rt: Router, clause: string) returns (general: string)
    ensures general == Routing(rt)(clause)
    ensures || (exists k: nat :: FirstKeyword(rt, clause, k) && general == rt.routes[k].1)
            || (general == rt.fallback && forall k :: 0 <= k < |rt.routes| ==>
               !Contains(rt.lower(clause), rt.routes[k].0))
  {
    var low := rt.lower(clause);
    for k := 0 to |rt.routes|
      invariant forall j :: 0 <= j < k ==> !Contains(low, rt.routes[j].0)
      invariant FirstRoute(rt.routes[k..], low, rt.fallback) == FirstRoute(rt.routes, low, rt.fallback)
    {
      if Contains(low, rt.routes[k].0) {
        assert FirstKeyword(rt, clause, k);
        return rt.routes[k].1;
      }
    }
    general := rt.fallback;
  }

  predicate FirstKeyword(rt: Router, clause: string, k: nat) {
    && k < |rt.routes| && Contains(rt.lower(clause), rt.routes[k].0)
    && forall j :: 0 <= j < k ==> !Contains(rt.lower(clause), rt.routes[j].0)
  }

  /** The stripped non-empty pieces of `raw`. */
  function Kept(raw: seq<string>): seq<string> {
    if raw == [] then []
    else
      var c := Strip(raw[|raw| - 1]);
      Kept(raw[..|raw| - 1]) + if c == "" then [] else [c]
  }

  /** The clauses of a non-empty group: the group itself if cutting leaves nothing. */
  function Clauses(sp: Splitter, group: string): (r: seq<string>)
    ensures r != []
  {
    var kept := Kept(Cut(sp, AndOrMark, group));
    if kept == [] then [group] else kept
  }

  /** The clauses of each group that is not blank. */
  function Groups(sp: Splitter, texts: seq<string>): seq<seq<string>> {
    if texts == [] then []
    else
      var g := Strip(texts[|texts| - 1]);
      Groups(sp, texts[..|texts| - 1]) + if g == "" then [] else [Clauses(sp, g)]
  }

  /** A clause and the number of its group. */
  datatype Clause = Clause(level: int, text: string)

  function Tag(level: int, texts: seq<string>): seq<Clause> {
    seq(|texts|, i requires 0 <= i < |texts| => Clause(level, texts[i]))
  }

  function Flat(groups: seq<seq<string>>): seq<Clause> {
    if groups == [] then []
    else Flat(groups[..|groups| - 1]) + Tag(|groups| - 1, groups[|groups| - 1])
  }

  /** The positions of the clauses of group `level`, in order. */
  function Indices(flat: seq<Clause>, level: int): seq<int> {
    if flat == [] then []
    else
      var k := |flat| - 1;
      Indices(flat[..k], level) + if flat[k].level == level then [k] else []
  }

  lemma {:induction false} IndicesMeaning(flat: seq<Clause>, level: int, j: int)
    ensures j in Indices(flat, level) <==> 0 <= j < |flat| && flat[j].level == level
  {
    if flat != [] {
      IndicesMeaning(flat[..|flat| - 1], level, j);
    }
  }

  /** Every step waits for exactly the steps of the group before its own. */
  ghost predicate IsPlan(steps: seq<PlanStep>, flat: seq<Clause>, route: string -> string) {
    && |steps| == |flat|
    && forall i :: 0 <= i < |flat| ==> steps[i] == StepFor(flat, flat[i], route)
  }

  function StepFor(flat: seq<Clause>, c: Clause, route: string -> string): PlanStep {
    PlanStep(route(c.text), c.text, Indices(flat, c.level - 1))
  }

  /** Levels start at 0, never fall, and leave no gap below `n`. */
  ghost predicate Contiguous(flat: seq<Clause>, n: nat) {
    && (forall i :: 0 <= i < |flat| ==> 0 <= flat[i].level < n)
    && (forall i, j :: 0 <= i <= j < |flat| ==> flat[i].level <= flat[j].level)
    && (forall w :: 0 <= w < n ==> HasLevel(flat, w))
  }

  ghost predicate HasLevel(flat: seq<Clause>, w: int) {
    exists i :: 0 <= i < |flat| && flat[i].level == w
  }

  lemma {:induction false} FlatIsContiguous(groups: seq<seq<string>>)
    requires forall w :: 0 <= w < |groups| ==> groups[w] != []
    ensures Contiguous(Flat(groups), |groups|)
  {
    if groups != [] {
      var k := |groups| - 1;
      FlatIsContiguous(groups[..k]);
      var below, flat := Flat(groups[..k]), Flat(groups);
      assert flat == below + Tag(k, groups[k]);
      forall w | 0 <= w < |groups|
        ensures HasLevel(flat, w)
      {
        if w < k {
          assert HasLevel(below, w);
          var i :| 0 <= i < |below| && below[i].level == w;
          assert flat[i].level == w;
        } else {
          assert flat[|below|].level == w;
        }
      }
    }
  }

  lemma {:induction false} GroupsAreNonEmpty(sp: Splitter, texts: seq<string>)
    ensures forall w :: 0 <= w < |Groups(sp, texts)| ==> Groups(sp, texts)[w] != []
  {
    if texts != [] {
      GroupsAreNonEmpty(sp, texts[..|texts| - 1]);
    }
  }

  lemma {:induction false} IndicesAppend(flat: seq<Clause>, c: Clause, w: int)
    ensures Indices(flat + [c], w) == if w == c.level then Indices(flat, w) + [|flat|] else Indices(flat, w)
  {
    assert (flat + [c])[..|flat|] == flat;
  }

  /** Appending a clause of the last group or a later one leaves the earlier steps as they are. */
  lemma {:induction false} PlanAppend(steps: seq<PlanStep>, flat: seq<Clause>, route: string -> string, c: Clause)
    requires IsPlan(steps, flat, route) && forall i :: 0 <= i < |flat| ==> flat[i].level <= c.level
    ensures IsPlan(steps + [StepFor(flat, c, route)], flat + [c], route)
  {
    forall d: Clause | d.level <= c.level
      ensures StepFor(flat + [c], d, route) == StepFor(flat, d, route)
    {
      IndicesAppend(flat, c, d.level - 1);
    }
  }

  /** What the planner decides for an objective: the clauses with their groups, or one step for everything. */
  function PlanClauses(sp: Splitter, objective: string): seq<Clause> {
    var groups := Groups(sp, Cut(sp, Then, objective));
    if groups == [] then [Clause(0, objective)] else Flat(groups)
  }

  function PlanDepth(sp: Splitter, objective: string): nat {
    var groups := Groups(sp, Cut(sp, Then, objective));
    if groups == [] then 1 else |groups|
  }

  /** The router of the plan: with nothing parsed, the one step goes to the default general. */
  function PlanRoute(sp: Splitter, objective: string, route: string -> string, fallback: string): string -> string {
    if Groups(sp, Cut(sp, Then, objective)) == [] then (clause: string) => fallback else route
  }

  /** Every objective has a plan of at least one step, whose groups follow one another without gaps. */
  lemma {:induction false} PlanIsContiguous(sp: Splitter, objective: string)
    ensures Contiguous(PlanClauses(sp, objective), PlanDepth(sp, objective))
    ensures PlanClauses(sp, objective) != []
  {
    GroupsAreNonEmpty(sp, Cut(sp, Then, objective));
    FlatIsContiguous(Groups(sp, Cut(sp, Then, objective)));
    var flat := PlanClauses(sp, objective);
    assert Groups(sp, Cut(sp, Then, objective)) == [] ==> flat[0].level == 0;
  }

  method Plan(sp: Splitter, objective: string, rt: Router) returns (steps: seq<PlanStep>)
    ensures IsPlan(steps, PlanClauses(sp, objective), PlanRoute(sp, objective, Routing(rt), rt.fallback))
  {
    ghost var flat;
    steps, flat := PlanGroups(sp, Cut(sp, Then, objective), rt);
    NoStepsExactlyWhen(sp, Cut(sp, Then, objective), steps, Routing(rt));
    if steps == [] {
      NoIndices([Clause(0, objective)], -1);
      steps := [PlanStep(rt.fallback, objective, [])];
    }
  }

  lemma {:induction false} NoStepsExactlyWhen(sp: Splitter, texts: seq<string>, steps: seq<PlanStep>,
                                              route: string -> string)
    requires IsPlan(steps, Flat(Groups(sp, texts)), route)
    ensures steps == [] <==> Groups(sp, texts) == []
  {
    var groups := Groups(sp, texts);
    GroupsAreNonEmpty(sp, texts);
    FlatIsContiguous(groups);
    assert groups != [] ==> HasLevel(Flat(groups), 0);
  }

  /** The steps of all groups. */
  method PlanGroups(sp: Splitter, texts: seq<string>, rt: Router)
    returns (steps: seq<PlanStep>, ghost flat: seq<Clause>)
    ensures flat == Flat(Groups(sp, texts)) && IsPlan(steps, flat, Routing(rt))
  {
    steps, flat := [], [];
    ghost var route := Routing(rt);
    var prevGroup: seq<int> := [];
    ghost var groups: seq<seq<string>> := [];
    for k := 0 to |texts|
      invariant groups == Groups(sp, texts[..k])
      invariant Planned(steps, flat, groups, prevGroup, route)
    {
      GroupsAppend(sp, texts, k);
      var groupText := Strip(texts[k]);
      if groupText == "" {
        continue;
      }
      var clauses := CutGroup(sp, groupText);
      steps, prevGroup, flat := PlanGroup(clauses, steps, prevGroup, rt, flat, groups);
      groups := groups + [clauses];
    }
    assert texts[..|texts|] == texts;
  }

  lemma {:induction false} GroupsAppend(sp: Splitter, texts: seq<string>, k: nat)
    requires k < |texts|
    ensures
      var g := Strip(texts[k]);
      Groups(sp, texts[..k + 1]) ==
      if g == "" then Groups(sp, texts[..k]) else Groups(sp, texts[..k]) + [Clauses(sp, g)]
  {
    assert texts[..k + 1][..k] == texts[..k];
  }

  /** The planner between two groups. */
  ghost predicate Planned(steps: seq<PlanStep>, flat: seq<Clause>, groups: seq<seq<string>>, prevGroup: seq<int>,
                          route: string -> string) {
    && flat == Flat(groups)
    && (forall i :: 0 <= i < |flat| ==> 0 <= flat[i].level < |groups|)
    && IsPlan(steps, flat, route)
    && prevGroup == Indices(flat, |groups| - 1)
  }

  /** The planner in the middle of group `level`. */
  ghost predicate Midway(steps: seq<PlanStep>, flat: seq<Clause>, level: int, prevGroup: seq<int>,
                         currentGroup: seq<int>, route: string -> string)
  {
    && (forall i :: 0 <= i < |flat| ==> 0 <= flat[i].level <= level)
    && IsPlan(steps, flat, route)
    && prevGroup == Indices(flat, level - 1)
    && currentGroup == Indices(flat, level)
  }

  lemma {:induction false} MidwayAppend(steps: seq<PlanStep>, flat: seq<Clause>, level: int, prevGroup: seq<int>,
                                        currentGroup: seq<int>, route: string -> string, text: string)
    requires Midway(steps, flat, level, prevGroup, currentGroup, route) && level >= 0
    ensures Midway(steps + [PlanStep(route(text), text, prevGroup)], flat + [Clause(level, text)], level,
                   prevGroup, currentGroup + [|steps|], route)
  {
    PlanAppend(steps, flat, route, Clause(level, text));
    IndicesAppend(flat, Clause(level, text), level - 1);
    IndicesAppend(flat, Clause(level, text), level);
  }

  /** Adds the steps of one group, each waiting for all of `prevGroup`. */
  method PlanGroup(clauses: seq<string>, before: seq<PlanStep>, prevGroup: seq<int>, rt: Router,
                   ghost flat0: seq<Clause>, ghost groups: seq<seq<string>>)
    returns (steps: seq<PlanStep>, currentGroup: seq<int>, ghost flat: seq<Clause>)
    requires Planned(before, flat0, groups, prevGroup, Routing(rt))
    ensures Planned(steps, flat, groups + [clauses], currentGroup, Routing(rt))
  {
    ghost var route := Routing(rt);
    ghost var level := |groups|;
    steps, currentGroup, flat := before, [], flat0;
    NoIndices(flat, level);
    for j := 0 to |clauses|
      invariant flat == flat0 + Tag(level, clauses[..j])
      invariant Midway(steps, flat, level, prevGroup, currentGroup, route)
    {
      MidwayAppend(steps, flat, level, prevGroup, currentGroup, route, clauses[j]);
      TagNext(flat0, level, clauses, j);
      var idx := |steps|;
      var general := Route(rt, clauses[j]);
      steps := steps + [PlanStep(general, clauses[j], prevGroup)];
      currentGroup := currentGroup + [idx];
      flat := flat + [Clause(level, clauses[j])];
    }
    GroupPlanned(steps, flat, groups, clauses, flat0, prevGroup, currentGroup, route);
  }

  lemma {:induction false} TagNext(flat: seq<Clause>, level: int, clauses: seq<string>, j: nat)
    requires j < |clauses|
    ensures flat + Tag(level, clauses[..j + 1]) == flat + Tag(level, clauses[..j]) + [Clause(level, clauses[j])]
  {
    assert Tag(level, clauses[..j + 1]) == Tag(level, clauses[..j]) + [Clause(level, clauses[j])];
  }

  lemma {:induction false} GroupPlanned(steps: seq<PlanStep>, flat: seq<Clause>, groups: seq<seq<string>>,
                                        clauses: seq<string>, flat0: seq<Clause>, prevGroup: seq<int>,
                                        currentGroup: seq<int>, route: string -> string)
    requires flat0 == Flat(groups) && flat == flat0 + Tag(|groups|, clauses[..|clauses|])
    requires Midway(steps, flat, |groups|, prevGroup, currentGroup, route)
    ensures Planned(steps, flat, groups + [clauses], currentGroup, route)
  {
    assert clauses[..|clauses|] == clauses;
    assert (groups + [clauses])[..|groups|] == groups;
  }

  lemma {:induction false} NoIndices(flat: seq<Clause>, level: int)
    requires forall i :: 0 <= i < |flat| ==> flat[i].level != level
    ensures Indices(flat, level) == []
  {
    if flat != [] {
      NoIndices(flat[..|flat| - 1], level);
    }
  }

  method CutGroup(sp: Splitter, group: string) returns (clauses: seq<string>)
    ensures clauses == Clauses(sp, group)
  {
    var raw := Cut(sp, AndOrMark, group);
    clauses := [];
    for k := 0 to |raw|
      invariant clauses == Kept(raw[..k])
    {
      assert raw[..k + 1][..k] == raw[..k];
      var c := Strip(raw[k]);
      if c != "" {
        clauses := clauses + [c];
      }
    }
    assert raw[..|raw|] == raw;
    if clauses == [] {
      clauses := [group];
    }
  }

  // ------------------------------------------------------------------ planning a step again

  /** Nothing in a clause can be cut, or it is a group of which cutting leaves nothing. */
  ghost predicate Atomic(sp: Splitter, c: string) {
    c != "" && Strip(c) == c && Quiet(sp, Then, c) && Clauses(sp, c) == [c]
  }

  lemma {:induction false} KeptMember(raw: seq<string>, c: string) returns (q: string)
    requires c in Kept(raw)
    ensures q in raw && c == Strip(q) && c != ""
  {
    var k := |raw| - 1;
    if c in Kept(raw[..k]) {
      q := KeptMember(raw[..k], c);
    } else {
      q := raw[k];
    }
  }

  /** The clauses of a group without "then" are atomic. */
  lemma {:induction false} ClausesAreAtomic(sp: Splitter, g: string, c: string)
    requires Sensible(sp) && g != "" && Strip(g) == g && Quiet(sp, Then, g) && c in Clauses(sp, g)
    ensures Atomic(sp, c)
  {
    var raw := Cut(sp, AndOrMark, g);
    if c in Kept(raw) {
      var q := KeptMember(raw, c);
      PieceIsQuiet(sp, AndOrMark, Then, g, q);
      StripIsQuiet(sp, Then, q);
      StripIsQuiet(sp, AndOrMark, q);
      QuietIsWhole(sp, AndOrMark, c);
      StripTrims(q);
      StripOfTrim(c);
      assert [c][..0] == [] && Kept([c]) == Kept([c][..0]) + [c];
    }
  }

  lemma {:induction false} GroupMember(sp: Splitter, texts: seq<string>, w: nat, c: string) returns (q: string)
    requires w < |Groups(sp, texts)| && c in Groups(sp, texts)[w]
    ensures q in texts && Strip(q) != "" && c in Clauses(sp, Strip(q))
  {
    var k := |texts| - 1;
    if w < |Groups(sp, texts[..k])| {
      q := GroupMember(sp, texts[..k], w, c);
    } else {
      q := texts[k];
    }
  }

  lemma {:induction false} FlatMember(groups: seq<seq<string>>, c: Clause) returns (w: nat)
    requires c in Flat(groups)
    ensures w < |groups| && c.text in groups[w]
  {
    var k := |groups| - 1;
    if c in Flat(groups[..k]) {
      w := FlatMember(groups[..k], c);
    } else {
      w := k;
      assert c in Tag(k, groups[k]);
    }
  }

  lemma {:induction false} AtomicPlan(sp: Splitter, c: string)
    requires Atomic(sp, c)
    ensures PlanClauses(sp, c) == [Clause(0, c)]
  {
    QuietIsWhole(sp, Then, c);
    assert [c][..0] == [] && Groups(sp, [c]) == Groups(sp, [c][..0]) + [[c]];
    assert [[c]][..0] == [] && Flat([[c]]) == Flat([[c]][..0]) + Tag(0, [c]);
    assert Tag(0, [c]) == [Clause(0, c)];
  }

  /** The clause of a step has nothing left to plan: planned again, it is one step of its own. */
  lemma {:induction false} StepsAreAtomic(sp: Splitter, objective: string, c: Clause)
    requires Sensible(sp) && c in PlanClauses(sp, objective)
    ensures PlanClauses(sp, c.text) == [Clause(0, c.text)]
  {
    var texts := Cut(sp, Then, objective);
    if Groups(sp, texts) != [] {
      var w := FlatMember(Groups(sp, texts), c);
      var q := GroupMember(sp, texts, w, c.text);
      PieceIsQuiet(sp, Then, Then, objective, q);
      StripIsQuiet(sp, Then, q);
      StripTrims(q);
      StripOfTrim(Strip(q));
      ClausesAreAtomic(sp, Strip(q), c.text);
      AtomicPlan(sp, c.text);
    }
  }
}

/**
 Dependency graphs of tasks: paths, cycles, and the depth-first search that
 validates a graph before it is run.
 */
module TaskGraphs {
  import opened Common

  type Id = string

  /** Each task with the tasks it waits for. */
  type Deps = map<Id, set<Id>>

  ghost predicate Closed(g: Deps) {
    forall t :: t in g ==> g[t] <= g.Keys
  }

  /** `p` walks from a task to one of its dependencies at every step. */
  ghost predicate IsPath(g: Deps, p: seq<Id>) {
    && p != []
    && forall i :: 0 <= i < |p| - 1 ==> p[i] in g && p[i + 1] in g[p[i]]
  }

  ghost predicate IsCycle(g: Deps, p: seq<Id>) {
    |p| >= 2 && IsPath(g, p) && p[0] == p[|p| - 1]
  }

  ghost predicate Cyclic(g: Deps) {
    exists p :: IsCycle(g, p)
  }

  /** Every task of `order` comes after all of its dependencies. */
  ghost predicate DepsFirst(g: Deps, order: seq<Id>) {
    forall i :: 0 <= i < |order| ==> order[i] in g && g[order[i]] <= Elements(order[..i])
  }

  ghost predicate IsTopological(g: Deps, order: seq<Id>) {
    Distinct(order) && Elements(order) == g.Keys && DepsFirst(g, order)
  }

  lemma {:induction false} PathSuffix(g: Deps, p: seq<Id>, k: nat)
    requires IsPath(g, p) && k < |p|
    ensures IsPath(g, p[k..])
  {
    var q := p[k..];
    forall i | 0 <= i < |q| - 1
      ensures q[i] in g && q[i + 1] in g[q[i]]
    {
      assert q[i] == p[k + i] && q[i + 1] == p[k + i + 1];
    }
  }

  lemma {:induction false} PathExtend(g: Deps, p: seq<Id>, t: Id)
    requires IsPath(g, p) && p[|p| - 1] in g && t in g[p[|p| - 1]]
    ensures IsPath(g, p + [t])
  {
    var w := p + [t];
    forall i | 0 <= i < |w| - 1
      ensures w[i] in g && w[i + 1] in g[w[i]]
    {
      if i < |p| - 1 {
        assert w[i] == p[i] && w[i + 1] == p[i + 1];
      }
    }
  }

  /** Along a path, positions in a topological order strictly decrease. */
  lemma {:induction false} PathDescends(g: Deps, order: seq<Id>, p: seq<Id>, i: nat)
    requires IsTopological(g, order) && IsPath(g, p) && |p| >= 2
    requires i < |order| && order[i] == p[0]
    ensures p[|p| - 1] in order[..i]
  {
    assert p[1] in order[..i];
    if |p| > 2 {
      var j :| 0 <= j < i && order[j] == p[1];
      PathSuffix(g, p, 1);
      PathDescends(g, order, p[1..], j);
      assert order[..j] <= order[..i];
    }
  }

  /** A graph that has a topological order is closed and has no cycle. */
  lemma {:induction false} TopologicalIsAcyclic(g: Deps, order: seq<Id>)
    requires IsTopological(g, order)
    ensures Closed(g) && !Cyclic(g)
  {
    forall t | t in g
      ensures g[t] <= g.Keys
    {
      assert t in Elements(order);
      var i :| 0 <= i < |order| && order[i] == t;
      assert Elements(order[..i]) <= Elements(order);
    }
    if Cyclic(g) {
      var p :| IsCycle(g, p);
      assert p[0] in Elements(order);
      var i :| 0 <= i < |order| && order[i] == p[0];
      PathDescends(g, order, p, i);
      assert false;
    }
  }

  /** A walk that comes back to a task it is still standing on closes a cycle. */
  lemma {:induction false} BackEdgeIsCycle(g: Deps, trail: seq<Id>, t: Id)
    requires IsPath(g, trail + [t]) && t in trail
    ensures Cyclic(g)
  {
    var k :| 0 <= k < |trail| && trail[k] == t;
    var w := trail + [t];
    PathSuffix(g, w, k);
    assert IsCycle(g, w[k..]);
  }

  datatype SearchError = CycleDetected | MissingTask

  datatype Validation = Ordered(order: seq<Id>) | Rejected(error: SearchError)

  /** The variables shared by the nested calls of the depth-first search. */
  class Search {
    const g: Deps
    var order: seq<Id>
    var seen: set<Id>
    var stack: set<Id>

    ghost predicate Valid()
      reads this
    {
      && seen == Elements(order)
      && seen <= g.Keys
      && Distinct(order)
      && DepsFirst(g, order)
      && stack <= g.Keys
      && stack !! seen
    }

    constructor (g: Deps)
      ensures Valid() && this.g == g && order == [] && stack == {}
    {
      this.g := g;
      order, seen, stack := [], {}, {};
    }

    /** `trail` is the walk from the root to the caller; its tasks are those on the stack. */
    method Visit(tid: Id, ghost trail: seq<Id>) returns (error: Option<SearchError>)
      requires Valid() && stack == Elements(trail) && IsPath(g, trail + [tid])
      requires tid in g || trail != []
      modifies this
      ensures error.None? ==> Valid() && stack == old(stack) && tid in seen && old(order) <= order
      ensures error == Some(CycleDetected) ==> Cyclic(g)
      ensures error == Some(MissingTask) ==> !Closed(g)
      decreases g.Keys - stack
    {
      if tid in seen {
        return None;
      }
      if tid in stack {
        BackEdgeIsCycle(g, trail, tid);
        return Some(CycleDetected);
      }
      if tid !in g {
        ghost var w := trail + [tid];
        assert w[|trail| - 1] in g && w[|trail|] in g[w[|trail| - 1]];
        return Some(MissingTask);
      }
      stack := stack + {tid};
      ghost var here := trail + [tid];
      assert Elements(here) == stack;
      var rest := g[tid];
      while rest != {}
        invariant rest <= g[tid] && g[tid] - rest <= seen
        invariant Valid() && stack == old(stack) + {tid} && old(order) <= order
      {
        var dep :| dep in rest;
        rest := rest - {dep};
        PathExtend(g, here, dep);
        ghost var before := order;
        error := Visit(dep, here);
        if error.Some? {
          return;
        }
        assert Elements(before) <= Elements(order);
      }
      stack := stack - {tid};
      seen := seen + {tid};
      assert Elements(order + [tid]) == Elements(order) + {tid};
      assert (order + [tid])[..|order|] == order;
      assert forall i :: 0 <= i < |order| ==> (order + [tid])[..i] == order[..i];
      order := order + [tid];
      error := None;
    }
  }

  /**
   Validates a graph whose tasks were added in the order `keys`: it succeeds
   exactly on closed acyclic graphs, and then lists every task once, after its
   dependencies.
   */
  method TopologicalOrder(keys: seq<Id>, g: Deps) returns (r: Validation)
    requires Elements(keys) == g.Keys
    ensures r.Ordered? ==> IsTopological(g, r.order)
    ensures r == Rejected(CycleDetected) ==> Cyclic(g)
    ensures r == Rejected(MissingTask) ==> !Closed(g)
    ensures r.Ordered? <==> Closed(g) && !Cyclic(g)
  {
    var search := new Search(g);
    for i := 0 to |keys|
      invariant search.Valid() && search.g == g && search.stack == {}
      invariant forall j :: 0 <= j < i ==> keys[j] in search.seen
    {
      assert keys[i] in Elements(keys);
      assert [] + [keys[i]] == [keys[i]];
      search.stack := {};
      ghost var before := search.order;
      var error := search.Visit(keys[i], []);
      if error.Some? {
        match error.value {
          case CycleDetected => return Rejected(CycleDetected);
          case MissingTask => return Rejected(MissingTask);
        }
      }
      assert Elements(before) <= Elements(search.order);
    }
    assert forall k :: k in g.Keys ==> k in Elements(keys);
    assert search.seen == g.Keys;
    TopologicalIsAcyclic(g, search.order);
    return Ordered(search.order);
  }
}

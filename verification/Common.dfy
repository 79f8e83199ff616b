/** Small vocabulary shared by the models. */
module Common {
  datatype Option<+T> = None | Some(value: T)

  predicate Distinct<T(==)>(s: seq<T>) {
    forall i, j :: 0 <= i < j < |s| ==> s[i] != s[j]
  }

  function Elements<T(==)>(s: seq<T>): set<T> {
    set x | x in s
  }

  /** A list without repetitions has as many members as positions. */
  lemma {:induction false} DistinctCardinality<T>(s: seq<T>)
    requires Distinct(s)
    ensures |Elements(s)| == |s|
  {
    if s != [] {
      var k := |s| - 1;
      DistinctCardinality(s[..k]);
      assert Elements(s) == Elements(s[..k]) + {s[k]};
    }
  }

  lemma {:induction false} Regroup<T>(a: seq<T>, b: seq<T>, c: seq<T>)
    ensures a + (b + c) == (a + b) + c
  {
  }

  /** The sum of `f` over a list of keys. */
  function Sum<T>(keys: seq<T>, f: T -> int): int {
    if keys == [] then 0 else f(keys[0]) + Sum(keys[1..], f)
  }

  lemma {:induction false} SumMonotone<T>(keys: seq<T>, f: T -> int, h: T -> int)
    requires forall k :: k in keys ==> f(k) <= h(k)
    ensures Sum(keys, f) <= Sum(keys, h)
    ensures (exists k :: k in keys && f(k) < h(k)) ==> Sum(keys, f) < Sum(keys, h)
  {
    if keys != [] {
      SumMonotone(keys[1..], f, h);
      if f(keys[0]) == h(keys[0]) && exists k :: k in keys && f(k) < h(k) {
        var k :| k in keys && f(k) < h(k);
        assert k in keys[1..];
      }
    }
  }

  lemma {:induction false} SumNonNegative<T>(keys: seq<T>, f: T -> int)
    requires forall k :: k in keys ==> 0 <= f(k)
    ensures 0 <= Sum(keys, f)
  {
    if keys != [] {
      SumNonNegative(keys[1..], f);
    }
  }

  /** Raising `f` by `d` at one key raises the sum by `d`. */
  lemma {:induction false} SumBump<T>(keys: seq<T>, f: T -> int, h: T -> int, k: T, d: int)
    requires Distinct(keys)
    requires forall u :: u in keys ==> h(u) == if u == k then f(u) + d else f(u)
    ensures Sum(keys, h) == Sum(keys, f) + if k in keys then d else 0
  {
    if keys != [] {
      SumBump(keys[1..], f, h, k, d);
    }
  }

  /** Summing an indicator counts. */
  lemma {:induction false} SumCounts<T>(keys: seq<T>, f: T -> int, s: set<T>)
    requires Distinct(keys) && s <= Elements(keys)
    requires forall u :: u in keys ==> f(u) == if u in s then 1 else 0
    ensures Sum(keys, f) == |s|
  {
    if keys != [] {
      var rest := s - {keys[0]};
      forall u | u in rest
        ensures u in Elements(keys[1..])
      {
        assert u in keys && u != keys[0];
      }
      SumCounts(keys[1..], f, rest);
      if keys[0] in s {
        assert s == rest + {keys[0]};
      } else {
        assert s == rest;
      }
    }
  }

  /** `ix` lists, in order, exactly the positions below `n` that are wanted. */
  ghost predicate Picks(ix: seq<nat>, n: nat, want: nat -> bool) {
    && (forall i, j :: 0 <= i < j < |ix| ==> ix[i] < ix[j])
    && (forall i :: 0 <= i < |ix| ==> ix[i] < n && want(ix[i]))
    && (forall k: nat :: k < n && want(k) ==> k in ix)
  }

  /** The wanted positions below `n`, in order. */
  function Positions(n: nat, want: nat -> bool): seq<nat> {
    if n == 0 then [] else Positions(n - 1, want) + if want(n - 1) then [n - 1] else []
  }

  lemma {:induction false} PositionsPick(n: nat, want: nat -> bool)
    ensures Picks(Positions(n, want), n, want)
  {
    if n > 0 {
      PositionsPick(n - 1, want);
      assert forall k :: k in Positions(n - 1, want) ==> k in Positions(n, want);
      assert want(n - 1) ==> Positions(n, want)[|Positions(n - 1, want)|] == n - 1;
    }
  }
}

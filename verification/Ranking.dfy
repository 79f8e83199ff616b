/**
 Ranking: Python's stable sort with `reverse=True`, and its slices.
 */
module Rankings {
  /** From the largest key down; equal keys stay in the order they had. */
  function Ranked<T>(s: seq<T>, key: T -> real): (r: seq<T>)
    ensures |r| == |s|
  {
    if s == [] then [] else Place(Ranked(s[..|s| - 1], key), s[|s| - 1], key)
  }

  /** Puts an element behind every one with an equal or larger key. */
  function Place<T>(s: seq<T>, x: T, key: T -> real): (r: seq<T>)
    ensures |r| == |s| + 1
  {
    if s == [] || key(s[|s| - 1]) >= key(x) then s + [x]
    else Place(s[..|s| - 1], x, key) + [s[|s| - 1]]
  }

  /** `s[:k]`: the first `k`, or for a negative `k` all but the last `-k`. */
  function Prefix<T>(s: seq<T>, k: int): (r: seq<T>)
    ensures r <= s
    ensures |r| == if k >= |s| then |s| else if k >= 0 then k else if |s| + k >= 0 then |s| + k else 0
  {
    if k >= |s| then s else if k >= 0 then s[..k] else if |s| + k >= 0 then s[..|s| + k] else []
  }

  ghost predicate Descending<T>(s: seq<T>, key: T -> real) {
    forall i, j :: 0 <= i <= j < |s| ==> key(s[i]) >= key(s[j])
  }

  /** The elements with one key, in order. */
  function WithKey<T>(s: seq<T>, key: T -> real, x: real): seq<T> {
    if s == [] then []
    else WithKey(s[..|s| - 1], key, x) + if key(s[|s| - 1]) == x then [s[|s| - 1]] else []
  }

  /** A stable descending sort of `s`: in order, and key by key the same elements in the same order. */
  ghost predicate IsStableSort<T>(s: seq<T>, r: seq<T>, key: T -> real) {
    Descending(r, key) && forall x :: WithKey(r, key, x) == WithKey(s, key, x)
  }

  lemma {:induction false} WithKeyAppend<T>(s: seq<T>, e: T, key: T -> real, x: real)
    ensures WithKey(s + [e], key, x) == WithKey(s, key, x) + if key(e) == x then [e] else []
  {
    assert (s + [e])[..|s|] == s;
  }

  lemma {:induction false} PlaceKeepsOrder<T>(s: seq<T>, e: T, key: T -> real)
    requires Descending(s, key)
    ensures Descending(Place(s, e, key), key)
    ensures forall y :: y in Place(s, e, key) ==> y in s || y == e
  {
    if s == [] || key(s[|s| - 1]) >= key(e) {
    } else {
      var front, last := s[..|s| - 1], s[|s| - 1];
      PlaceKeepsOrder(front, e, key);
      var r := Place(front, e, key);
      forall y | y in r
        ensures key(y) >= key(last)
      {
        if y in front {
          var i :| 0 <= i < |front| && front[i] == y;
          assert key(s[i]) >= key(s[|s| - 1]);
        }
      }
      forall i | 0 <= i < |r|
        ensures key(r[i]) >= key(last)
      {
        assert r[i] in r;
      }
    }
  }

  lemma {:induction false} PlaceKeepsKeys<T>(s: seq<T>, e: T, key: T -> real, x: real)
    ensures WithKey(Place(s, e, key), key, x) == WithKey(s, key, x) + if key(e) == x then [e] else []
  {
    if s == [] || key(s[|s| - 1]) >= key(e) {
      WithKeyAppend(s, e, key, x);
    } else {
      var front, last := s[..|s| - 1], s[|s| - 1];
      PlaceKeepsKeys(front, e, key, x);
      WithKeyAppend(Place(front, e, key), last, key, x);
    }
  }

  /** `Ranked` is a stable descending sort... */
  lemma {:induction false} RankedIsStableSort<T>(s: seq<T>, key: T -> real)
    ensures IsStableSort(s, Ranked(s, key), key)
  {
    if s != [] {
      var front, last := s[..|s| - 1], s[|s| - 1];
      RankedIsStableSort(front, key);
      PlaceKeepsOrder(Ranked(front, key), last, key);
      forall x
        ensures WithKey(Ranked(s, key), key, x) == WithKey(s, key, x)
      {
        PlaceKeepsKeys(Ranked(front, key), last, key, x);
      }
    }
  }

  lemma {:induction false} WithKeyMember<T>(s: seq<T>, key: T -> real, y: T)
    ensures y in WithKey(s, key, key(y)) <==> y in s
  {
    if s != [] {
      WithKeyMember(s[..|s| - 1], key, y);
      assert s == s[..|s| - 1] + [s[|s| - 1]];
    }
  }

  lemma {:induction false} WithKeyLength<T>(s: seq<T>, key: T -> real, x: real)
    ensures |WithKey(s, key, x)| <= |s|
  {
    if s != [] {
      WithKeyLength(s[..|s| - 1], key, x);
    }
  }

  /** In a descending list the elements with the first key are a front of it. */
  lemma {:induction false} FirstKeyIsFront<T>(s: seq<T>, key: T -> real, n: nat)
    requires Descending(s, key) && 1 <= n <= |s|
    ensures |WithKey(s, key, key(s[0]))| >= n <==> key(s[n - 1]) == key(s[0])
  {
    var front := s[..|s| - 1];
    WithKeyLength(front, key, key(s[0]));
    if |s| == 1 {
      assert WithKey(front, key, key(s[0])) == [];
    } else if n < |s| {
      FirstKeyIsFront(front, key, n);
      assert key(s[|s| - 1]) <= key(s[n - 1]) <= key(s[0]);
    } else {
      FirstKeyIsFront(front, key, |s| - 1);
      assert key(s[n - 1]) <= key(s[n - 2]) <= key(s[0]);
    }
  }

  lemma {:induction false} DescendingFront<T>(s: seq<T>, key: T -> real)
    requires s != [] && Descending(s, key)
    ensures Descending(s[..|s| - 1], key) && forall y :: y in s ==> key(y) >= key(s[|s| - 1])
  {
    forall y | y in s
      ensures key(y) >= key(s[|s| - 1])
    {
      var i :| 0 <= i < |s| && s[i] == y;
    }
  }

  /** Two descending lists with the same elements key by key have the same last element. */
  lemma {:induction false} SameLast<T>(a: seq<T>, b: seq<T>, key: T -> real)
    requires a != [] && Descending(a, key) && Descending(b, key)
    requires forall x :: WithKey(a, key, x) == WithKey(b, key, x)
    ensures b != [] && a[|a| - 1] == b[|b| - 1]
  {
    var x := key(a[|a| - 1]);
    WithKeyMember(a, key, a[|a| - 1]);
    WithKeyMember(b, key, a[|a| - 1]);
    assert b != [];
    var y := key(b[|b| - 1]);
    WithKeyMember(a, key, b[|b| - 1]);
    WithKeyMember(b, key, b[|b| - 1]);
    DescendingFront(a, key);
    DescendingFront(b, key);
    assert x == y;
    assert WithKey(a, key, x)[|WithKey(a, key, x)| - 1] == a[|a| - 1];
    assert WithKey(b, key, x)[|WithKey(b, key, x)| - 1] == b[|b| - 1];
  }

  /** ... and there is only one. */
  lemma {:induction false} StableSortIsUnique<T>(a: seq<T>, b: seq<T>, key: T -> real)
    requires Descending(a, key) && Descending(b, key)
    requires forall x :: WithKey(a, key, x) == WithKey(b, key, x)
    ensures a == b
    decreases |a| + |b|
  {
    if a == [] && b == [] {
    } else if a == [] {
      SameLast(b, a, key);
    } else {
      SameLast(a, b, key);
      var c, d := a[..|a| - 1], b[..|b| - 1];
      var last := a[|a| - 1];
      assert a == c + [last] && b == d + [last];
      forall x
        ensures WithKey(c, key, x) == WithKey(d, key, x)
      {
        WithKeyAppend(c, last, key, x);
        WithKeyAppend(d, last, key, x);
        assert WithKey(a, key, x)[..|WithKey(c, key, x)|] == WithKey(c, key, x);
        assert WithKey(b, key, x)[..|WithKey(d, key, x)|] == WithKey(d, key, x);
      }
      StableSortIsUnique(c, d, key);
    }
  }

  lemma {:induction false} RankedMember<T>(s: seq<T>, key: T -> real, y: T)
    ensures y in Ranked(s, key) <==> y in s
  {
    RankedIsStableSort(s, key);
    WithKeyMember(s, key, y);
    WithKeyMember(Ranked(s, key), key, y);
  }

  // ------------------------------------------------------------------ ranking other values by the same keys

  function Map<A, B>(s: seq<A>, f: A -> B): (r: seq<B>)
    ensures |r| == |s| && forall i :: 0 <= i < |s| ==> r[i] == f(s[i])
  {
    if s == [] then [] else Map(s[..|s| - 1], f) + [f(s[|s| - 1])]
  }

  lemma {:induction false} MapAppend<A, B>(s: seq<A>, e: A, f: A -> B)
    ensures Map(s + [e], f) == Map(s, f) + [f(e)]
  {
    assert (s + [e])[..|s|] == s;
  }

  lemma {:induction false} PlaceMaps<A, B>(s: seq<A>, e: A, f: A -> B, key: A -> real, other: B -> real)
    requires forall a :: a in s + [e] ==> other(f(a)) == key(a)
    ensures Map(Place(s, e, key), f) == Place(Map(s, f), f(e), other)
  {
    assert e in s + [e];
    if s == [] {
    } else {
      var front, last := s[..|s| - 1], s[|s| - 1];
      assert last in s + [e] && Map(s, f)[..|s| - 1] == Map(front, f);
      if key(last) >= key(e) {
        MapAppend(s, e, f);
      } else {
        PlaceMaps(front, e, f, key, other);
        MapAppend(Place(front, e, key), last, f);
      }
    }
  }

  lemma {:induction false} InAppend<T>(s: seq<T>, e: T, a: T)
    requires a in s + [e]
    ensures a in s || a == e
  {
  }

  /** Ranking commutes with replacing the elements by others with the same keys. */
  lemma {:induction false} RankedMaps<A, B>(s: seq<A>, f: A -> B, key: A -> real, other: B -> real)
    requires forall a :: a in s ==> other(f(a)) == key(a)
    ensures Map(Ranked(s, key), f) == Ranked(Map(s, f), other)
  {
    if s != [] {
      var front, last := s[..|s| - 1], s[|s| - 1];
      assert s == front + [last] && last in s;
      RankedMaps(front, f, key, other);
      forall a | a in Ranked(front, key) + [last]
        ensures other(f(a)) == key(a)
      {
        InAppend(Ranked(front, key), last, a);
        RankedMember(front, key, a);
      }
      PlaceMaps(Ranked(front, key), last, f, key, other);
      assert Map(s, f)[..|s| - 1] == Map(front, f);
    }
  }
}

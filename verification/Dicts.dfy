/** Python's dictionaries: keys keep the order in which they were first put. */
module Dicts {
  import opened Common

  datatype Dict<V> = Dict(keys: seq<string>, at: map<string, V>)

  function Empty<V>(): Dict<V> {
    Dict([], map[])
  }

  ghost predicate WellKeyed<V>(d: Dict<V>) {
    Distinct(d.keys) && forall k :: k in d.keys <==> k in d.at
  }

  /** `d[k] = v`: a key already there keeps its place. */
  function Put<V>(d: Dict<V>, k: string, v: V): Dict<V> {
    Dict(if k in d.at then d.keys else d.keys + [k], d.at[k := v])
  }

  function Without(keys: seq<string>, k: string): seq<string> {
    if keys == [] then []
    else Without(keys[..|keys| - 1], k) + if keys[|keys| - 1] == k then [] else [keys[|keys| - 1]]
  }

  /** `d.pop(k, None)`. */
  function Pop<V>(d: Dict<V>, k: string): Dict<V> {
    Dict(Without(d.keys, k), d.at - {k})
  }

  lemma {:induction false} WithoutMeaning(keys: seq<string>, k: string)
    ensures forall x :: x in Without(keys, k) <==> x in keys && x != k
    ensures Distinct(keys) ==> Distinct(Without(keys, k))
  {
    if keys != [] {
      var n := |keys| - 1;
      WithoutMeaning(keys[..n], k);
      assert keys == keys[..n] + [keys[n]];
      if Distinct(keys) {
        assert keys[n] !in keys[..n];
      }
    }
  }

  lemma {:induction false} WithoutNone(keys: seq<string>, k: string)
    requires k !in keys
    ensures Without(keys, k) == keys
  {
    if keys != [] {
      WithoutNone(keys[..|keys| - 1], k);
    }
  }

  lemma {:induction false} PutKeepsKeyed<V>(d: Dict<V>, k: string, v: V)
    requires WellKeyed(d)
    ensures WellKeyed(Put(d, k, v))
  {
  }

  lemma {:induction false} PopKeepsKeyed<V>(d: Dict<V>, k: string)
    requires WellKeyed(d)
    ensures WellKeyed(Pop(d, k))
  {
    WithoutMeaning(d.keys, k);
  }
}

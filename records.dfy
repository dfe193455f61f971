/**
 * A JavaScript `Record<string, V>` as the sequence of its entries in
 * `Object.entries` order (insertion order, for the non-integer keys that
 * occur here), keys distinct.
 */
module Records {
  import opened Wrappers

  type Entries<V> = seq<(string, V)>

  function Keys<V>(r: Entries<V>): (ks: seq<string>)
    ensures |ks| == |r|
    ensures forall i :: 0 <= i < |r| ==> ks[i] == r[i].0
  {
    seq(|r|, i requires 0 <= i < |r| => r[i].0)
  }

  /** Every key occurs once. */
  predicate DistinctKeys<V>(r: Entries<V>) {
    forall i, j :: 0 <= i < j < |r| ==> r[i].0 != r[j].0
  }

  /** `r[k]`, `None` for a missing key. */
  function Lookup<V>(r: Entries<V>, k: string): (v: Option<V>)
    ensures v.None? <==> k !in Keys(r)
    ensures v.Some? ==> (k, v.value) in r
    decreases |r|
  {
    if r == [] then None
    else if r[0].0 == k then Some(r[0].1)
    else
      assert Keys(r) == [r[0].0] + Keys(r[1..]);
      Lookup(r[1..], k)
  }

  /**
   * `{ ...r, [k]: v }` (and `r[k] = v`): an existing key keeps its place and
   * takes the new value; a new key is appended.
   */
  function Put<V>(r: Entries<V>, k: string, v: V): (r': Entries<V>)
    ensures Keys(r') == if k in Keys(r) then Keys(r) else Keys(r) + [k]
    decreases |r|
  {
    if r == [] then [(k, v)]
    else
      KeysCons(r[0], r[1..]);
      assert r == [r[0]] + r[1..];
      if r[0].0 == k then
        KeysCons((k, v), r[1..]);
        [(k, v)] + r[1..]
      else
        var rest := Put(r[1..], k, v);
        KeysCons(r[0], rest);
        [r[0]] + rest
  }

  /** The keys of an entry list with one more entry in front. */
  lemma KeysCons<V>(e: (string, V), r: Entries<V>)
    ensures Keys([e] + r) == [e.0] + Keys(r)
  {
  }

  /** After `Put(r, k, v)`, `k` maps to `v` and every other key to what it mapped to before. */
  lemma {:induction false} PutLookup<V>(r: Entries<V>, k: string, v: V, k': string)
    ensures Lookup(Put(r, k, v), k') == if k' == k then Some(v) else Lookup(r, k')
    decreases |r|
  {
    if r != [] && r[0].0 != k {
      PutLookup(r[1..], k, v, k');
    }
  }

  /** `Put` keeps the keys distinct. */
  lemma PutDistinct<V>(r: Entries<V>, k: string, v: V)
    requires DistinctKeys(r)
    ensures DistinctKeys(Put(r, k, v))
  {
    var r' := Put(r, k, v);
    var ks, ks' := Keys(r), Keys(r');
    assert forall i, j :: 0 <= i < j < |ks| ==> ks[i] != ks[j];
    assert forall i, j :: 0 <= i < j < |ks'| ==> ks'[i] != ks'[j];
  }
}

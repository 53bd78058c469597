/** Python dictionaries as the modelled code uses them: items kept in
    insertion order, assignment to an existing key keeping its position. */
module OrderedDict {
  import opened Wrappers

  /** The items of a dict with string keys, in insertion order. */
  type Dict<V> = seq<(string, V)>

  /** The position of key `k`, or `|d|` when it is absent. */
  function KeyIndex<V>(d: Dict<V>, k: string): (i: nat)
    ensures i <= |d|
    ensures i < |d| ==> d[i].0 == k
    ensures forall j :: 0 <= j < i ==> d[j].0 != k
  {
    if d == [] then 0 else if d[0].0 == k then 0 else 1 + KeyIndex(d[1..], k)
  }

  /** The two properties of `KeyIndex` determine it. */
  lemma KeyIndexIs<V>(d: Dict<V>, k: string, i: nat)
    requires i <= |d|
    requires i < |d| ==> d[i].0 == k
    requires forall j :: 0 <= j < i ==> d[j].0 != k
    ensures KeyIndex(d, k) == i
  {
  }

  /** `d.get(k)`. */
  function Lookup<V>(d: Dict<V>, k: string): (r: Option<V>)
    ensures r.Some? <==> exists i :: 0 <= i < |d| && d[i].0 == k
  {
    var i := KeyIndex(d, k);
    if i < |d| then Some(d[i].1) else None
  }

  function Keys<V>(d: Dict<V>): (ks: seq<string>)
    ensures |ks| == |d| && forall i :: 0 <= i < |d| ==> ks[i] == d[i].0
  {
    seq(|d|, i requires 0 <= i < |d| => d[i].0)
  }

  /** No key occurs twice: what a Python dict guarantees. */
  predicate DistinctKeys<V>(d: Dict<V>) {
    forall i, j :: 0 <= i < j < |d| ==> d[i].0 != d[j].0
  }

  /** `d[k] = v`: an existing key keeps its place and takes the new value;
      a new key is added last. */
  function Set<V>(d: Dict<V>, k: string, v: V): (r: Dict<V>)
    ensures Lookup(d, k).Some? ==> r == d[KeyIndex(d, k) := (k, v)]
    ensures Lookup(d, k).None? ==> r == d + [(k, v)]
    ensures forall i :: 0 <= i < |d| ==> r[i].0 == d[i].0
    ensures forall i :: 0 <= i < |d| && d[i].0 != k ==> r[i] == d[i]
    ensures Lookup(r, k) == Some(v)
    ensures forall k' :: k' != k ==> Lookup(r, k') == Lookup(d, k')
    ensures DistinctKeys(d) ==> DistinctKeys(r)
  {
    var i := KeyIndex(d, k);
    var r := if i < |d| then d[i := (k, v)] else d + [(k, v)];
    KeyIndexIs(r, k, i);
    forall k' | k' != k ensures Lookup(r, k') == Lookup(d, k') {
      KeyIndexIs(r, k', KeyIndex(d, k') + (if KeyIndex(d, k') == |d| && i == |d| then 1 else 0));
    }
    r
  }

  /** Assigning to a key the value it already has changes nothing. */
  lemma SetSameValue<V>(d: Dict<V>, k: string, v: V)
    requires Lookup(d, k) == Some(v)
    ensures Set(d, k, v) == d
  {
    var i := KeyIndex(d, k);
    assert d[i := (k, v)] == d;
  }
}

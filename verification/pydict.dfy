/**
 An insertion-ordered Python `dict`, as the list of its items: keys are
 distinct, and iteration (`keys()`, `values()`) follows the order in which
 each key was first stored.  Both backends build their metadata caches
 with a dict comprehension over a list the server returns, so a later
 entry with a repeated key replaces the value but keeps the first
 position.
 */
module PyDict {
  import opened Types
  import Lex

  type Dict<K, V> = seq<(K, V)>

  function Keys<K, V>(d: Dict<K, V>): (r: seq<K>)
    ensures |r| == |d|
    ensures forall i :: 0 <= i < |d| ==> r[i] == d[i].0
  {
    if |d| == 0 then [] else [d[0].0] + Keys(d[1..])
  }

  function Values<K, V>(d: Dict<K, V>): (r: seq<V>)
    ensures |r| == |d|
    ensures forall i :: 0 <= i < |d| ==> r[i] == d[i].1
  {
    if |d| == 0 then [] else [d[0].1] + Values(d[1..])
  }

  /** A well-formed dict: no key twice. */
  predicate Wf<K(==), V>(d: Dict<K, V>) {
    Lex.Distinct(Keys(d))
  }

  /** `d.get(k)`: the value stored under `k`, if any. */
  function Get<K(==), V>(d: Dict<K, V>, k: K): (r: Option<V>)
    ensures r.None? <==> k !in Keys(d)
    ensures r.Some? ==> exists i :: 0 <= i < |d| && d[i].0 == k && d[i].1 == r.value
  {
    if |d| == 0 then None
    else if d[0].0 == k then Some(d[0].1)
    else
      var rest := Get(d[1..], k);
      assert Keys(d) == [d[0].0] + Keys(d[1..]);
      rest
  }

  lemma KeysCons<K, V>(x: (K, V), d: Dict<K, V>)
    ensures Keys([x] + d) == [x.0] + Keys(d)
  {
    assert ([x] + d)[1..] == d;
  }

  lemma GetCons<K, V>(x: (K, V), d: Dict<K, V>, k: K)
    ensures Get([x] + d, k) == if x.0 == k then Some(x.1) else Get(d, k)
  {
    assert ([x] + d)[1..] == d;
  }

  /** Keys that are those of a well-formed dict, possibly with one new key appended, are distinct. */
  lemma WfFromKeys<K, V>(r: Dict<K, V>, d: Dict<K, V>, k: K)
    requires Wf(d)
    requires Keys(r) == if k in Keys(d) then Keys(d) else Keys(d) + [k]
    ensures Wf(r)
  {
  }

  /**
   `d[k] = v`: a new key goes at the end, an existing one keeps its place
   and takes the new value; every other entry stays as it was.
   */
  function Put<K(==,!new), V>(d: Dict<K, V>, k: K, v: V): (r: Dict<K, V>)
    ensures Keys(r) == if k in Keys(d) then Keys(d) else Keys(d) + [k]
    ensures Get(r, k) == Some(v)
    ensures forall j :: j != k ==> Get(r, j) == Get(d, j)
  {
    if |d| == 0 then [(k, v)]
    else
      KeysCons(d[0], d[1..]);
      assert d == [d[0]] + d[1..];
      if d[0].0 == k then
        KeysCons((k, v), d[1..]);
        forall j ensures Get([(k, v)] + d[1..], j) == if j == k then Some(v) else Get(d, j) {
          GetCons((k, v), d[1..], j);
          GetCons(d[0], d[1..], j);
        }
        [(k, v)] + d[1..]
      else
        var tail := Put(d[1..], k, v);
        KeysCons(d[0], tail);
        forall j ensures Get([d[0]] + tail, j) == if j == k then Some(v) else Get(d, j) {
          GetCons(d[0], tail, j);
          GetCons(d[0], d[1..], j);
        }
        [d[0]] + tail
  }

  /** Storing a value keeps a dict well formed. */
  lemma PutWf<K(!new), V>(d: Dict<K, V>, k: K, v: V)
    requires Wf(d)
    ensures Wf(Put(d, k, v))
  {
    WfFromKeys(Put(d, k, v), d, k);
  }

  /** The value of the last pair with key `k`, if any. */
  function LastValue<K(==), V>(pairs: seq<(K, V)>, k: K): Option<V> {
    if |pairs| == 0 then None
    else if pairs[|pairs| - 1].0 == k then Some(pairs[|pairs| - 1].1)
    else LastValue(pairs[..|pairs| - 1], k)
  }

  /** `{k: v for (k, v) in pairs}`. */
  function FromPairs<K(==,!new), V>(pairs: seq<(K, V)>): (d: Dict<K, V>)
    ensures Wf(d)
    ensures forall k :: k in Keys(d) <==> k in Keys(pairs)
  {
    if |pairs| == 0 then []
    else
      var init := pairs[..|pairs| - 1];
      assert Keys(pairs) == Keys(init) + [pairs[|pairs| - 1].0];
      PutWf(FromPairs(init), pairs[|pairs| - 1].0, pairs[|pairs| - 1].1);
      Put(FromPairs(init), pairs[|pairs| - 1].0, pairs[|pairs| - 1].1)
  }

  /** The comprehension keeps, for every key, the value of its last pair. */
  lemma {:induction false} FromPairsKeepsLast<K(!new), V>(pairs: seq<(K, V)>, k: K)
    ensures Get(FromPairs(pairs), k) == LastValue(pairs, k)
  {
    if |pairs| > 0 {
      FromPairsKeepsLast(pairs[..|pairs| - 1], k);
    }
  }

  /** In a well-formed dict, looking up the key of the pair at `i` finds that pair's value. */
  lemma GetAt<K, V>(d: Dict<K, V>, i: nat)
    requires Wf(d) && i < |d|
    ensures Get(d, d[i].0) == Some(d[i].1)
  {
    var j :| 0 <= j < |d| && d[j].0 == d[i].0 && d[j].1 == Get(d, d[i].0).value;
    assert Keys(d)[i] == Keys(d)[j];
  }

  /** `dict(d)` as a Dafny map: the same keys, each with the value `d.get` finds. */
  function AsMap<K(!new), V>(d: Dict<K, V>): (m: map<K, V>)
    ensures forall k :: k in m <==> k in Keys(d)
    ensures forall k :: k in m ==> Get(d, k) == Some(m[k])
    ensures Wf(d) ==> forall i :: 0 <= i < |d| ==> d[i].0 in m && m[d[i].0] == d[i].1
  {
    var m := map k | k in Keys(d) :: Get(d, k).value;
    assert Wf(d) ==> forall i :: 0 <= i < |d| ==> d[i].0 in m && m[d[i].0] == d[i].1 by {
      if Wf(d) {
        forall i | 0 <= i < |d| ensures d[i].0 in m && m[d[i].0] == d[i].1 {
          assert Keys(d)[i] == d[i].0;
          GetAt(d, i);
        }
      }
    }
    m
  }
}

/**
 * A Python `dict` with string keys: a sequence of (key, value) pairs kept in insertion order.
 * Assigning to a present key keeps its position; a new key goes last.
 */
module PyDict {
  import opened Wrappers

  type Dict<V> = seq<(string, V)>

  /** `d.get(k)`. */
  function Get<V>(d: Dict<V>, k: string): (r: Option<V>)
    ensures r.None? <==> forall i :: 0 <= i < |d| ==> d[i].0 != k
    ensures r.Some? ==> exists i :: 0 <= i < |d| && d[i] == (k, r.value)
  {
    if d == [] then None
    else if d[0].0 == k then Some(d[0].1)
    else
      var r := Get(d[1..], k);
      assert forall i :: 0 < i < |d| ==> d[i] == d[1..][i - 1];
      r
  }

  /** `k in d`. */
  predicate HasKey<V>(d: Dict<V>, k: string) {
    Get(d, k).Some?
  }

  /** Looking a key up in a dict whose first entry is `x`. */
  lemma GetCons<V>(x: (string, V), rest: Dict<V>)
    ensures forall k :: Get([x] + rest, k) == if x.0 == k then Some(x.1) else Get(rest, k)
  {
    assert ([x] + rest)[1..] == rest;
  }

  /** `d[k] = v`. */
  function Put<V>(d: Dict<V>, k: string, v: V): (r: Dict<V>)
    ensures Get(r, k) == Some(v)
    ensures forall k' :: k' != k ==> Get(r, k') == Get(d, k')
  {
    if d == [] then [(k, v)]
    else
      assert d == [d[0]] + d[1..];
      GetCons(d[0], d[1..]);
      if d[0].0 == k then
        GetCons((k, v), d[1..]);
        [(k, v)] + d[1..]
      else
        var rest := Put(d[1..], k, v);
        GetCons(d[0], rest);
        [d[0]] + rest
  }

  /** After `d[k] = v` the keys are those of `d` and `k`. */
  lemma PutKeys<V>(d: Dict<V>, k: string, v: V, f: string)
    ensures HasKey(Put(d, k, v), f) <==> HasKey(d, f) || f == k
  {
  }

  /** Assigning to an absent key appends the new entry at the end. */
  lemma {:induction false} PutAppends<V>(d: Dict<V>, k: string, v: V)
    requires !HasKey(d, k)
    ensures Put(d, k, v) == d + [(k, v)]
  {
    if d != [] {
      assert d[0].0 != k && !HasKey(d[1..], k);
      PutAppends(d[1..], k, v);
      assert Put(d, k, v) == [d[0]] + (d[1..] + [(k, v)]);
      assert d == [d[0]] + d[1..];
    }
  }

  /** Assigning to a present key keeps every key in its position. */
  lemma {:induction false} PutKeepsPositions<V>(d: Dict<V>, k: string, v: V)
    requires HasKey(d, k)
    ensures |Put(d, k, v)| == |d| && forall i :: 0 <= i < |d| ==> Put(d, k, v)[i].0 == d[i].0
  {
    if d[0].0 != k {
      assert HasKey(d[1..], k);
      PutKeepsPositions(d[1..], k, v);
    }
  }
}

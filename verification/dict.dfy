/**
 * Python's `dict` as an insertion-ordered association list. Iterating over
 * `d.items()` visits the entries in the order their keys were first inserted,
 * and that is the order of the sequence.
 */
module Dict {
  import opened Wrappers
  import opened Sequences

  type Dict<K, V> = seq<(K, V)>

  /** The keys, in insertion order (`list(d.keys())`). */
  function Keys<K, V>(d: Dict<K, V>): (ks: seq<K>)
    ensures |ks| == |d|
    ensures forall i :: 0 <= i < |d| ==> ks[i] == d[i].0
  {
    if d == [] then [] else [d[0].0] + Keys(d[1..])
  }

  /** A well-formed dict holds each key once. */
  predicate Valid<K(==), V>(d: Dict<K, V>) {
    Distinct(Keys(d))
  }

  /** `d.get(k)`: the value stored under `k`, if any. */
  function Get<K(==), V>(d: Dict<K, V>, k: K): (r: Option<V>)
    ensures r.Some? <==> k in Keys(d)
  {
    if d == [] then None
    else if d[0].0 == k then Some(d[0].1)
    else Get(d[1..], k)
  }

  /** In a well-formed dict, looking up a key returns the value stored with it. */
  lemma {:induction false} GetStored<K, V>(d: Dict<K, V>, i: nat)
    requires Valid(d) && i < |d|
    ensures Get(d, d[i].0) == Some(d[i].1)
  {
    if i > 0 {
      assert Keys(d)[0] != Keys(d)[i];
      assert Keys(d[1..]) == Keys(d)[1..];
      assert d[1..][i - 1] == d[i];
      GetStored(d[1..], i - 1);
    }
  }

  /** Adding an entry at the end leaves the lookups of the existing keys unchanged. */
  lemma {:induction false} GetAppend<K, V>(d: Dict<K, V>, k: K, v: V, k': K)
    ensures Get(d + [(k, v)], k') ==
      if k' in Keys(d) then Get(d, k') else if k' == k then Some(v) else None
  {
    if d != [] {
      assert (d + [(k, v)])[0] == d[0];
      assert (d + [(k, v)])[1..] == d[1..] + [(k, v)];
      GetAppend(d[1..], k, v, k');
    }
  }

  /**
   * `d.setdefault(k, default)`: inserts `k` at the end with `default` unless it
   * is already a key; the existing entries keep their place and value.
   */
  function SetDefault<K(==,!new), V>(d: Dict<K, V>, k: K, default: V): (r: Dict<K, V>)
    ensures Keys(r) == AppendNew(Keys(d), [k])
    ensures Get(r, k) == if k in Keys(d) then Get(d, k) else Some(default)
    ensures forall k' :: k' != k ==> Get(r, k') == Get(d, k')
  {
    if k in Keys(d) then d
    else
      var r := d + [(k, default)];
      assert Keys(r) == Keys(d) + [k];
      assert AppendNew(Keys(d), [k]) == AppendNew(Keys(d) + [k], []);
      assert forall k' :: Get(r, k') == if k' in Keys(d) then Get(d, k') else if k' == k then Some(default) else None by {
        forall k' { GetAppend(d, k, default, k'); }
      }
      r
  }

  /**
   * `d[k] = v` for a key already present: the value changes in place and the
   * key keeps its position.
   */
  function Put<K(==,!new), V>(d: Dict<K, V>, k: K, v: V): (r: Dict<K, V>)
    requires k in Keys(d)
    ensures Keys(r) == Keys(d)
    ensures Get(r, k) == Some(v)
    ensures forall k' :: k' != k ==> Get(r, k') == Get(d, k')
  {
    if d[0].0 == k then [(k, v)] + d[1..]
    else [d[0]] + Put(d[1..], k, v)
  }

  /** Two well-formed dicts with the same key order and the same lookups are equal. */
  lemma Extensionality<K, V>(a: Dict<K, V>, b: Dict<K, V>)
    requires Valid(a) && Valid(b)
    requires Keys(a) == Keys(b)
    requires forall k :: Get(a, k) == Get(b, k)
    ensures a == b
  {
    forall i | 0 <= i < |a|
      ensures a[i] == b[i]
    {
      GetStored(a, i);
      GetStored(b, i);
    }
  }
}

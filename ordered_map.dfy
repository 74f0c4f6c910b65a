/**
 * PHP arrays with string keys are ordered maps. This module models one as a
 * sequence of key/value pairs: lookup finds the first pair with the key,
 * assignment to an existing key overwrites that pair where it stands, and
 * assignment to a new key appends a pair at the end.
 */
module OrderedMap {
  import opened Wrappers

  function Keys<K, V>(m: seq<(K, V)>): (ks: seq<K>)
    ensures |ks| == |m|
  {
    if m == [] then [] else [m[0].0] + Keys(m[1..])
  }

  /** The i-th key is the key of the i-th pair. */
  lemma {:induction false} KeyAt<K, V>(m: seq<(K, V)>, i: nat)
    requires i < |m|
    ensures Keys(m)[i] == m[i].0
  {
    if i > 0 {
      KeyAt(m[1..], i - 1);
    }
  }

  /** No key occurs twice, as in every PHP array. */
  ghost predicate UniqueKeys<K, V>(m: seq<(K, V)>) {
    forall i, j :: 0 <= i < j < |m| ==> m[i].0 != m[j].0
  }

  /** `$m[$k]` when the key is set. */
  function Lookup<K(==), V>(m: seq<(K, V)>, k: K): (r: Option<V>) {
    if m == [] then None
    else if m[0].0 == k then Some(m[0].1)
    else Lookup(m[1..], k)
  }

  /** A key is set exactly when it is one of the keys. */
  lemma {:induction false} LookupKeys<K, V>(m: seq<(K, V)>, k: K)
    ensures Lookup(m, k).Some? <==> k in Keys(m)
  {
    if m != [] {
      LookupKeys(m[1..], k);
    }
  }

  /** `$m[$k] = $v`. */
  function Put<K(==,!new), V>(m: seq<(K, V)>, k: K, v: V): (r: seq<(K, V)>)
    ensures Lookup(r, k) == Some(v)
    ensures forall k' :: k' != k ==> Lookup(r, k') == Lookup(m, k')
    ensures Keys(r) == if k in Keys(m) then Keys(m) else Keys(m) + [k]
  {
    if m == [] then [(k, v)]
    else if m[0].0 == k then
      var r := [(k, v)] + m[1..];
      assert r[1..] == m[1..];
      assert Keys(r) == [k] + Keys(m[1..]);
      r
    else
      var t := Put(m[1..], k, v);
      var r := [m[0]] + t;
      assert r[1..] == t;
      assert Keys(r) == [m[0].0] + Keys(t);
      assert Keys(m) == [m[0].0] + Keys(m[1..]);
      r
  }

  lemma {:induction false} LookupUnique<K, V>(m: seq<(K, V)>, i: nat)
    requires UniqueKeys(m) && i < |m|
    ensures Lookup(m, m[i].0) == Some(m[i].1)
  {
    if i > 0 {
      LookupUnique(m[1..], i - 1);
    }
  }

  lemma PutUnique<K(!new), V>(m: seq<(K, V)>, k: K, v: V)
    requires UniqueKeys(m)
    ensures UniqueKeys(Put(m, k, v))
  {
    var r := Put(m, k, v);
    forall i, j | 0 <= i < j < |r| ensures r[i].0 != r[j].0 {
      KeyAt(r, i);
      KeyAt(r, j);
      if k in Keys(m) || j < |m| {
        KeyAt(m, i);
        KeyAt(m, j);
      } else {
        KeyAt(m, i);
      }
    }
  }

  /** Every pair after `$m[$k] = $v` is the new pair or one of m's. */
  lemma {:induction false} PutEntries<K(!new), V>(m: seq<(K, V)>, k: K, v: V, i: nat)
    requires i < |Put(m, k, v)|
    ensures Put(m, k, v)[i] == (k, v) || Put(m, k, v)[i] in m
  {
    if m != [] && m[0].0 != k && i > 0 {
      PutEntries(m[1..], k, v, i - 1);
    }
  }

  lemma PutTwice<K(!new), V>(m: seq<(K, V)>, k: K, v1: V, v2: V)
    ensures Put(Put(m, k, v1), k, v2) == Put(m, k, v2)
  {
    if m != [] && m[0].0 != k {
      PutTwice(m[1..], k, v1, v2);
      assert Put(m, k, v1)[1..] == Put(m[1..], k, v1);
    }
  }

  /** The position of the pair that Lookup finds. */
  lemma {:induction false} LookupIndex<K, V>(m: seq<(K, V)>, k: K) returns (i: nat)
    requires Lookup(m, k).Some?
    ensures i < |m| && m[i] == (k, Lookup(m, k).value)
  {
    if m[0].0 == k {
      i := 0;
    } else {
      var j := LookupIndex(m[1..], k);
      i := j + 1;
    }
  }
}

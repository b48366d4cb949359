/**
 * PHP arrays used as ordered maps: a sequence of key/value pairs in insertion
 * order. Assigning to a present key replaces its value in place; assigning to
 * a new key appends it; `unset` removes the pair.
 */
module OrderedMap {
  import opened Basics

  /** `$m[$k]` when set. */
  function Get<K(==,!new), V>(m: seq<(K, V)>, k: K): Option<V> {
    if |m| == 0 then None
    else if m[0].0 == k then Some(m[0].1)
    else Get(m[1..], k)
  }

  function Keys<K, V>(m: seq<(K, V)>): set<K> {
    if |m| == 0 then {} else {m[0].0} + Keys(m[1..])
  }

  /** No key occurs twice, as in every PHP array. */
  predicate UniqueKeys<K(==,!new), V>(m: seq<(K, V)>) {
    |m| == 0 || (m[0].0 !in Keys(m[1..]) && UniqueKeys(m[1..]))
  }

  lemma GetKeys<K(!new), V>(m: seq<(K, V)>, k: K)
    ensures Get(m, k).Some? <==> k in Keys(m)
  {
  }

  /** `$m[$k] = $v`. */
  function Put<K(==,!new), V>(m: seq<(K, V)>, k: K, v: V): (r: seq<(K, V)>)
    ensures Get(r, k) == Some(v)
    ensures forall j :: j != k ==> Get(r, j) == Get(m, j)
    ensures Keys(r) == Keys(m) + {k}
    ensures k !in Keys(m) ==> r == m + [(k, v)]
    ensures k in Keys(m) ==> |r| == |m|
    ensures UniqueKeys(m) ==> UniqueKeys(r)
    ensures forall p | p in r :: p == (k, v) || p in m
  {
    if |m| == 0 then [(k, v)]
    else if m[0].0 == k then [(k, v)] + m[1..]
    else [m[0]] + Put(m[1..], k, v)
  }

  /** `unset($m[$k])`. */
  function Remove<K(==,!new), V>(m: seq<(K, V)>, k: K): (r: seq<(K, V)>)
    ensures Get(r, k) == None
    ensures forall j :: j != k ==> Get(r, j) == Get(m, j)
    ensures Keys(r) == Keys(m) - {k}
    ensures UniqueKeys(m) ==> UniqueKeys(r)
  {
    if |m| == 0 then []
    else if m[0].0 == k then Remove(m[1..], k)
    else [m[0]] + Remove(m[1..], k)
  }

  lemma {:induction false} KeysAppend<K, V>(a: seq<(K, V)>, b: seq<(K, V)>)
    ensures Keys(a + b) == Keys(a) + Keys(b)
  {
    if |a| > 0 {
      KeysAppend(a[1..], b);
      assert (a + b)[1..] == a[1..] + b;
    } else {
      assert a + b == b;
    }
  }

  /** Two maps concatenate into a PHP array exactly when their keys are disjoint. */
  lemma {:induction false} UniqueAppend<K(!new), V>(a: seq<(K, V)>, b: seq<(K, V)>)
    ensures UniqueKeys(a + b) <==> UniqueKeys(a) && UniqueKeys(b) && Keys(a) !! Keys(b)
  {
    if |a| > 0 {
      UniqueAppend(a[1..], b);
      KeysAppend(a[1..], b);
      assert (a + b)[1..] == a[1..] + b;
    } else {
      assert a + b == b;
    }
  }

  /** Every key comes from some pair. */
  lemma {:induction false} KeyAt<K, V>(m: seq<(K, V)>, k: K) returns (i: nat)
    requires k in Keys(m)
    ensures i < |m| && m[i].0 == k
  {
    if m[0].0 == k {
      i := 0;
    } else {
      var j := KeyAt(m[1..], k);
      i := j + 1;
    }
  }

  /** Every pair's key is a key. */
  lemma {:induction false} PairKey<K, V>(m: seq<(K, V)>, i: nat)
    requires i < |m|
    ensures m[i].0 in Keys(m)
  {
    if i > 0 {
      PairKey(m[1..], i - 1);
    }
  }

  /** Keys before position n that differ from k do not matter to a lookup of k. */
  lemma {:induction false} GetSkip<K(!new), V>(m: seq<(K, V)>, k: K, n: nat)
    requires n <= |m|
    requires forall i :: 0 <= i < n ==> m[i].0 != k
    ensures Get(m, k) == Get(m[n..], k)
  {
    if n > 0 {
      assert forall i :: 0 <= i < n - 1 ==> m[1..][i].0 != k by {
        forall i | 0 <= i < n - 1
          ensures m[1..][i].0 != k
        {
          assert m[1..][i] == m[i + 1];
        }
      }
      GetSkip(m[1..], k, n - 1);
      assert m[1..][n - 1..] == m[n..];
    }
  }
}

/** Python dicts built by iteration: `d[k] = v` in order (the last value of a
  key wins, keys keep their first-insertion order) and `defaultdict(list)`
  grouping.
 */
module Dicts {

  /** A dict built from `pairs` in order: a later pair overwrites an earlier
      one with the same key. */
  function MapOf<K(==, !new), V>(pairs: seq<(K, V)>): (m: map<K, V>)
    ensures forall k :: k in m <==> exists i :: 0 <= i < |pairs| && pairs[i].0 == k
  {
    if pairs == [] then map[]
    else
      var n := |pairs| - 1;
      var m := MapOf(pairs[..n]);
      assert forall i :: 0 <= i < n ==> pairs[..n][i] == pairs[i];
      m[pairs[n].0 := pairs[n].1]
  }

  /** The keys of `MapOf(pairs)` in first-insertion order. */
  function KeysOf<K(==, !new), V>(pairs: seq<(K, V)>): (ks: seq<K>)
    ensures forall k :: k in ks <==> k in MapOf(pairs)
    ensures forall i, j :: 0 <= i < j < |ks| ==> ks[i] != ks[j]
  {
    if pairs == [] then []
    else
      var n := |pairs| - 1;
      var ks := KeysOf(pairs[..n]);
      assert forall i :: 0 <= i < n ==> pairs[..n][i] == pairs[i];
      if pairs[n].0 in ks then ks else ks + [pairs[n].0]
  }

  /** The last pair of each key wins. */
  lemma {:induction false} MapOfLastWins<K(!new), V>(pairs: seq<(K, V)>, i: nat)
    requires i < |pairs|
    requires forall j :: i < j < |pairs| ==> pairs[j].0 != pairs[i].0
    ensures pairs[i].0 in MapOf(pairs) && MapOf(pairs)[pairs[i].0] == pairs[i].1
  {
    var n := |pairs| - 1;
    if i < n {
      var prefix := pairs[..n];
      assert prefix[i] == pairs[i];
      assert forall j :: i < j < n ==> prefix[j] == pairs[j];
      MapOfLastWins(prefix, i);
      assert MapOf(pairs) == MapOf(prefix)[pairs[n].0 := pairs[n].1];
    }
  }

  /** The list `defaultdict(list)` holds for key `k` after appending each
      pair's value under its key, in order. */
  function GroupOf<K(==), V>(pairs: seq<(K, V)>, k: K): seq<V> {
    if pairs == [] then []
    else
      var n := |pairs| - 1;
      GroupOf(pairs[..n], k) + (if pairs[n].0 == k then [pairs[n].1] else [])
  }

  /** A key that occurs in no pair has an empty group; every other key's group
      is non-empty. */
  lemma {:induction false} GroupOfEmpty<K(!new), V>(pairs: seq<(K, V)>, k: K)
    ensures GroupOf(pairs, k) == [] <==> k !in MapOf(pairs)
  {
    if pairs != [] {
      var n := |pairs| - 1;
      GroupOfEmpty(pairs[..n], k);
      assert forall i :: 0 <= i < n ==> pairs[..n][i] == pairs[i];
    }
  }
}

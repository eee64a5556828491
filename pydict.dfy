/**
 * A Python dict built from a list of (key, value) pairs — dict(pairs), a
 * parsed JSON object, Starlette's query parameters — answers a lookup with the
 * value of the LAST pair that has the key.
 */
module PyDict {
  import opened Wrappers

  predicate HasKey<K(==), V>(ps: seq<(K, V)>, k: K) {
    exists i :: 0 <= i < |ps| && ps[i].0 == k
  }

  /** Index `i` holds the last pair of `ps` with key `k`. */
  predicate LastAt<K(==), V>(ps: seq<(K, V)>, k: K, i: int) {
    0 <= i < |ps| && ps[i].0 == k && forall j :: i < j < |ps| ==> ps[j].0 != k
  }

  function LastValue<K(==), V>(ps: seq<(K, V)>, k: K): (r: Option<V>)
    ensures r.Some? <==> HasKey(ps, k)
    ensures r.Some? ==> exists i :: LastAt(ps, k, i) && ps[i].1 == r.value
  {
    if |ps| == 0 then None
    else if ps[|ps| - 1].0 == k then
      assert LastAt(ps, k, |ps| - 1);
      Some(ps[|ps| - 1].1)
    else
      var r := LastValue(ps[..|ps| - 1], k);
      assert HasKey(ps, k) ==> HasKey(ps[..|ps| - 1], k);
      assert r.Some? ==> exists i :: LastAt(ps, k, i) && ps[i].1 == r.value by {
        if r.Some? {
          var i :| LastAt(ps[..|ps| - 1], k, i) && ps[..|ps| - 1][i].1 == r.value;
          assert LastAt(ps, k, i);
        }
      }
      r
  }

  /** Appending a pair makes it the one a later lookup of its key sees; other keys are unaffected. */
  lemma LastValueAppend<K, V>(ps: seq<(K, V)>, k: K, v: V, other: K)
    requires other != k
    ensures LastValue(ps + [(k, v)], k) == Some(v)
    ensures LastValue(ps + [(k, v)], other) == LastValue(ps, other)
  {
    assert (ps + [(k, v)])[..|ps|] == ps;
  }
}

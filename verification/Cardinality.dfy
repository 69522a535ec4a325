/** Counting facts about finite sets and maps that the models share. */
module Cardinality {

  /** Removing a key takes exactly one entry away. */
  lemma RemoveOne<K, V>(m: map<K, V>, k: K)
    requires k in m
    ensures |m - {k}| == |m| - 1
  {
    assert (m - {k}).Keys == m.Keys - {k};
    assert |m.Keys| == |m| && |(m - {k}).Keys| == |m - {k}|;
  }

  ghost predicate Injective<K, V>(m: map<K, V>) {
    forall k, l | k in m && l in m && m[k] == m[l] :: k == l
  }

  /** An injective map has as many values as keys. */
  lemma {:induction false} InjectiveSize<K, V>(m: map<K, V>)
    requires Injective(m)
    ensures |m.Values| == |m|
    decreases |m|
  {
    if m == map[] {
      assert m.Values == {};
    } else {
      var k :| k in m;
      var rest := m - {k};
      RemoveOne(m, k);
      InjectiveSize(rest);
      assert rest.Values == m.Values - {m[k]} by {
        forall v | v in m.Values - {m[k]} ensures v in rest.Values {
          var l :| l in m && m[l] == v;
          assert l in rest && rest[l] == v;
        }
      }
    }
  }

  /** A subset is no larger than the set that contains it. */
  lemma {:induction false} SubsetSize<T>(a: set<T>, b: set<T>)
    requires a <= b
    ensures |a| <= |b|
  {
    assert b == a + (b - a);
    assert |b| == |a| + |b - a|;
  }
}

/** Maps from keys to sets of values, as a hash map of hash sets is used. */
module MultiMaps {

  function At<K(==, !new), V(==)>(m: map<K, set<V>>, k: K): set<V> {
    if k in m then m[k] else {}
  }

  function Both<K(==, !new), V(==)>(m: map<K, set<V>>, m': map<K, set<V>>): (r: map<K, set<V>>)
    ensures forall k :: k in r <==> k in m || k in m'
    ensures forall k :: k in r ==> r[k] == At(m, k) + At(m', k)
    ensures forall k :: At(r, k) == At(m, k) + At(m', k)
  {
    map k | k in m.Keys + m'.Keys :: At(m, k) + At(m', k)
  }

  function Only<K(==, !new), V(==)>(m: map<K, set<V>>, keep: K -> bool): (r: map<K, set<V>>)
    ensures forall k :: k in r <==> k in m && keep(k)
    ensures forall k :: k in r ==> r[k] == m[k]
    ensures forall k :: At(r, k) == if keep(k) then At(m, k) else {}
  {
    map k | k in m && keep(k) :: m[k]
  }

  lemma BothOnly<K(!new), V>(m: map<K, set<V>>, a: map<K, set<V>>, b: map<K, set<V>>, keep: K -> bool)
    ensures Both(Both(m, Only(a, keep)), Only(b, keep)) == Both(m, Only(Both(a, b), keep))
  {
    hide Both, Only;
    var l := Both(Both(m, Only(a, keep)), Only(b, keep));
    var r := Both(m, Only(Both(a, b), keep));
    forall k {
      BothOnlyAt(m, a, b, keep, k);
    }
    Same(l, r);
  }

  lemma BothOnlyAt<K(!new), V>(m: map<K, set<V>>, a: map<K, set<V>>, b: map<K, set<V>>, keep: K -> bool, k: K)
    ensures var l := Both(Both(m, Only(a, keep)), Only(b, keep));
            var r := Both(m, Only(Both(a, b), keep));
            (k in l <==> k in r) && At(l, k) == At(r, k)
  {
    hide Both, Only;
    if keep(k) {
      assert (At(m, k) + At(a, k)) + At(b, k) == At(m, k) + (At(a, k) + At(b, k));
    } else {
      assert At(m, k) + {} + {} == At(m, k) + {};
    }
  }

  lemma Same<K(!new), V>(m: map<K, set<V>>, m': map<K, set<V>>)
    requires forall k :: (k in m <==> k in m') && At(m, k) == At(m', k)
    ensures m == m'
  {
    assert m.Keys == m'.Keys;
    forall k | k in m ensures m[k] == m'[k] {
      assert At(m, k) == At(m', k);
    }
  }
}

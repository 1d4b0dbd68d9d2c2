/** Sums over the values of a finite map. */
module Sums {

  ghost function Sum<K(!new)>(m: map<K, nat>): nat
    decreases |m|
  {
    if m == map[] then 0
    else
      var k :| k in m;
      assert (m - {k}).Keys == m.Keys - {k};
      m[k] + Sum(m - {k})
  }

  /** Any key can be taken out first. */
  lemma {:induction false} SumWithout<K(!new)>(m: map<K, nat>, k: K)
    requires k in m
    ensures Sum(m) == m[k] + Sum(m - {k})
    decreases |m|
  {
    var j :| j in m && Sum(m) == m[j] + Sum(m - {j});
    if j != k {
      var r := m - {j};
      assert r.Keys == m.Keys - {j};
      SumWithout(r, k);
      assert (m - {k}).Keys == m.Keys - {k};
      SumWithout(m - {k}, j);
      assert r - {k} == m - {k} - {j};
    }
  }

  lemma SumUpdate<K(!new)>(m: map<K, nat>, k: K, v: nat)
    requires k in m
    ensures Sum(m[k := v]) == Sum(m) - m[k] + v
  {
    SumWithout(m, k);
    SumWithout(m[k := v], k);
    assert m[k := v] - {k} == m - {k};
  }

  lemma SumInsert<K(!new)>(m: map<K, nat>, k: K, v: nat)
    requires k !in m
    ensures Sum(m[k := v]) == Sum(m) + v
  {
    SumWithout(m[k := v], k);
    assert m[k := v] - {k} == m;
  }

  lemma SumAtLeast<K(!new)>(m: map<K, nat>, k: K)
    requires k in m
    ensures Sum(m) >= m[k]
  {
    SumWithout(m, k);
  }

  lemma {:induction false} SumMonotone<K(!new)>(m: map<K, nat>, o: map<K, nat>)
    requires m.Keys == o.Keys && forall k :: k in m ==> m[k] <= o[k]
    ensures Sum(m) <= Sum(o)
    decreases |m|
  {
    if m == map[] {
      assert o == map[];
    } else {
      var k :| k in m;
      SumWithout(m, k);
      SumWithout(o, k);
      assert (m - {k}).Keys == m.Keys - {k} == (o - {k}).Keys;
      SumMonotone(m - {k}, o - {k});
    }
  }

  /** The keys in `some` and the others add up to the whole. */
  lemma {:induction false} SumSplit<K(!new)>(m: map<K, nat>, some: set<K>)
    ensures Sum(m) == Sum(m - some) + Sum(map k | k in m && k in some :: m[k])
    decreases |m|
  {
    var inside := map k | k in m && k in some :: m[k];
    if m == map[] {
      assert m - some == map[] && inside == map[];
    } else {
      var k :| k in m;
      var r := m - {k};
      assert r.Keys == m.Keys - {k};
      SumWithout(m, k);
      SumSplit(r, some);
      var restInside := map j | j in r && j in some :: r[j];
      if k in some {
        SumWithout(inside, k);
        assert inside - {k} == restInside && m - some == r - some;
      } else {
        SumWithout(m - some, k);
        assert inside == restInside && m - some - {k} == r - some;
      }
    }
  }

  lemma {:induction false} SumZero<K(!new)>(m: map<K, nat>)
    ensures Sum(m) == 0 <==> forall k :: k in m ==> m[k] == 0
    decreases |m|
  {
    if m != map[] {
      var k :| k in m;
      SumWithout(m, k);
      assert (m - {k}).Keys == m.Keys - {k};
      SumZero(m - {k});
      assert forall j :: j in m ==> j == k || (j in m - {k} && (m - {k})[j] == m[j]);
    }
  }
}

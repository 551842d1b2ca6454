/** Sums over the values of a map, and maps transformed value by value. */
module Collections {

  /** The sum of `f` over all values of `m`; the order in which keys are taken does not matter (`SumRemove`). */
  ghost function Sum<K, V>(m: map<K, V>, f: V -> int): int
    decreases |m|
  {
    if m == map[] then 0
    else
      var k :| k in m;
      f(m[k]) + Sum(m - {k}, f)
  }

  lemma {:induction false} SumRemove<K, V>(m: map<K, V>, k: K, f: V -> int)
    requires k in m
    ensures Sum(m, f) == f(m[k]) + Sum(m - {k}, f)
    decreases |m|
  {
    var j :| j in m && Sum(m, f) == f(m[j]) + Sum(m - {j}, f);
    if j != k {
      SumRemove(m - {j}, k, f);
      SumRemove(m - {k}, j, f);
      assert m - {j} - {k} == m - {k} - {j};
    }
  }

  lemma SumUpdate<K, V>(m: map<K, V>, k: K, v: V, f: V -> int)
    ensures Sum(m[k := v], f) == Sum(m, f) - (if k in m then f(m[k]) else 0) + f(v)
  {
    SumRemove(m[k := v], k, f);
    assert m[k := v] - {k} == m - {k};
    if k in m {
      SumRemove(m, k, f);
    } else {
      assert m - {k} == m;
    }
  }

  /** Equal contributions key by key give equal sums. */
  lemma {:induction false} SumSame<K, V, W>(m: map<K, V>, n: map<K, W>, f: V -> int, g: W -> int)
    requires m.Keys == n.Keys
    requires forall k :: k in m ==> f(m[k]) == g(n[k])
    ensures Sum(m, f) == Sum(n, g)
    decreases |m|
  {
    if m == map[] {
      assert n.Keys == {};
      assert n == map[];
    } else {
      var k :| k in m;
      SumRemove(m, k, f);
      SumRemove(n, k, g);
      SumSame(m - {k}, n - {k}, f, g);
    }
  }

  /** Maps that agree up to keys of no contribution have equal sums. */
  lemma {:induction false} SumOverlap<K, V>(m: map<K, V>, n: map<K, V>, f: V -> int)
    requires forall k :: (if k in m then f(m[k]) else 0) == (if k in n then f(n[k]) else 0)
    ensures Sum(m, f) == Sum(n, f)
    decreases |m|
  {
    if m == map[] {
      SumZero(n, f);
    } else {
      var k :| k in m;
      SumRemove(m, k, f);
      if k in n {
        SumRemove(n, k, f);
      } else {
        assert n - {k} == n;
      }
      SumOverlap(m - {k}, n - {k}, f);
    }
  }

  /** `Sum` is additive in the function. */
  lemma {:induction false} SumSplit<K, V>(m: map<K, V>, f: V -> int, g: V -> int, h: V -> int)
    requires forall k :: k in m ==> f(m[k]) == g(m[k]) + h(m[k])
    ensures Sum(m, f) == Sum(m, g) + Sum(m, h)
    decreases |m|
  {
    if m != map[] {
      var k :| k in m;
      SumRemove(m, k, f);
      SumRemove(m, k, g);
      SumRemove(m, k, h);
      SumSplit(m - {k}, f, g, h);
    }
  }

  lemma {:induction false} SumZero<K, V>(m: map<K, V>, f: V -> int)
    requires forall k :: k in m ==> f(m[k]) == 0
    ensures Sum(m, f) == 0
    decreases |m|
  {
    if m != map[] {
      var k :| k in m;
      SumRemove(m, k, f);
      SumZero(m - {k}, f);
    }
  }

  lemma {:induction false} SumNonNegative<K, V>(m: map<K, V>, f: V -> int)
    requires forall k :: k in m ==> 0 <= f(m[k])
    ensures 0 <= Sum(m, f)
    decreases |m|
  {
    if m != map[] {
      var k :| k in m;
      SumRemove(m, k, f);
      SumNonNegative(m - {k}, f);
    }
  }

  /** The map with every value replaced by its image. */
  function MapValues<K, V, W>(m: map<K, V>, f: V -> W): (r: map<K, W>)
    ensures r.Keys == m.Keys
  {
    map k | k in m :: f(m[k])
  }
}

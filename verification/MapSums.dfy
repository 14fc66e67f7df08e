// Sums over the entries of a finite map.
module MapSums {
  ghost function Sum<K, V>(m: map<K, V>, f: (K, V) -> int): int
    decreases |m|
  {
    if m == map[] then 0 else
    var k :| k in m;
    f(k, m[k]) + Sum(m - {k}, f)
  }

  lemma {:induction false} SumPick<K, V>(m: map<K, V>, f: (K, V) -> int, k: K)
    requires k in m
    ensures Sum(m, f) == f(k, m[k]) + Sum(m - {k}, f)
    decreases |m|
  {
    var j :| j in m && Sum(m, f) == f(j, m[j]) + Sum(m - {j}, f);
    if j != k {
      SumPick(m - {j}, f, k);
      SumPick(m - {k}, f, j);
      assert m - {j} - {k} == m - {k} - {j};
    }
  }

  // Replacing or adding one entry.
  lemma SumSet<K, V>(m: map<K, V>, f: (K, V) -> int, k: K, v: V)
    ensures Sum(m[k := v], f) == Sum(m, f) + f(k, v) - if k in m then f(k, m[k]) else 0
  {
    var n := m[k := v];
    SumPick(n, f, k);
    assert n - {k} == m - {k};
    if k in m {
      SumPick(m, f, k);
    } else {
      assert m - {k} == m;
    }
  }

  lemma {:induction false} SumNonNegative<K, V>(m: map<K, V>, f: (K, V) -> int)
    requires forall k :: k in m ==> f(k, m[k]) >= 0
    ensures Sum(m, f) >= 0
    decreases |m|
  {
    if m != map[] {
      var k :| k in m && Sum(m, f) == f(k, m[k]) + Sum(m - {k}, f);
      SumNonNegative(m - {k}, f);
    }
  }

  // One entry of a sum of non-negative terms.
  lemma SumBounds<K, V>(m: map<K, V>, f: (K, V) -> int, k: K)
    requires k in m && forall j :: j in m ==> f(j, m[j]) >= 0
    ensures f(k, m[k]) <= Sum(m, f)
  {
    SumPick(m, f, k);
    SumNonNegative(m - {k}, f);
  }

  lemma {:induction false} SumSame<K, V>(m: map<K, V>, f: (K, V) -> int, g: (K, V) -> int)
    requires forall k :: k in m ==> f(k, m[k]) == g(k, m[k])
    ensures Sum(m, f) == Sum(m, g)
    decreases |m|
  {
    if m != map[] {
      var k :| k in m && Sum(m, f) == f(k, m[k]) + Sum(m - {k}, f);
      SumPick(m, g, k);
      SumSame(m - {k}, f, g);
    }
  }

  lemma {:induction false} SumZero<K, V>(m: map<K, V>, f: (K, V) -> int)
    requires forall k :: k in m ==> f(k, m[k]) == 0
    ensures Sum(m, f) == 0
    decreases |m|
  {
    if m != map[] {
      var k :| k in m && Sum(m, f) == f(k, m[k]) + Sum(m - {k}, f);
      SumZero(m - {k}, f);
    }
  }

  lemma {:induction false} SumLinear<K, V>(m: map<K, V>, f: (K, V) -> int, c: int, g: (K, V) -> int, h: (K, V) -> int)
    requires forall k :: k in m ==> f(k, m[k]) == c * g(k, m[k]) + h(k, m[k])
    ensures Sum(m, f) == c * Sum(m, g) + Sum(m, h)
    decreases |m|
  {
    if m != map[] {
      var k :| k in m && Sum(m, f) == f(k, m[k]) + Sum(m - {k}, f);
      SumPick(m, g, k);
      SumPick(m, h, k);
      SumLinear(m - {k}, f, c, g, h);
      Distribute(c, g(k, m[k]), Sum(m - {k}, g));
    }
  }

  lemma Distribute(c: int, a: int, b: int)
    ensures c * (a + b) == c * a + c * b
  {
  }
}

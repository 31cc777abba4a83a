/** Sums over the values of a map, in whatever order a loop visits them. */
module MapSums {
  import opened RealFacts

  ghost function SumValues(m: map<string, real>): real
    decreases |m|
  {
    if m == map[] then 0.0
    else
      assert m.Keys != {};
      var k :| k in m;
      m[k] + SumValues(m - {k})
  }

  /** Any key may be taken out first. */
  lemma {:induction false} SumPick(m: map<string, real>, k: string)
    requires k in m
    ensures SumValues(m) == m[k] + SumValues(m - {k})
    decreases |m|
  {
    var j :| j in m && SumValues(m) == m[j] + SumValues(m - {j});
    if j != k {
      SumPick(m - {j}, k);
      SumPick(m - {k}, j);
      assert m - {j} - {k} == m - {k} - {j};
    }
  }

  lemma SumInsert(m: map<string, real>, k: string, v: real)
    requires k !in m
    ensures SumValues(m[k := v]) == SumValues(m) + v
  {
    SumPick(m[k := v], k);
    assert m[k := v] - {k} == m;
  }

  lemma SumUpdate(m: map<string, real>, k: string, v: real)
    requires k in m
    ensures SumValues(m[k := v]) == SumValues(m) - m[k] + v
  {
    SumPick(m, k);
    SumPick(m[k := v], k);
    assert m[k := v] - {k} == m - {k};
  }

  lemma EqualIffEqualWithout(a: map<string, real>, b: map<string, real>, k: string)
    requires k in a && k in b
    ensures a == b <==> a[k] == b[k] && a - {k} == b - {k}
  {
    assert a == (a - {k})[k := a[k]] && b == (b - {k})[k := b[k]];
  }

  /** The order of the sums without k carries over. */
  lemma SumOrderStep(a: map<string, real>, b: map<string, real>, k: string)
    requires k in a && k in b && a[k] <= b[k]
    requires SumValues(a - {k}) <= SumValues(b - {k})
    requires SumValues(a - {k}) == SumValues(b - {k}) <==> a - {k} == b - {k}
    ensures SumValues(a) <= SumValues(b)
    ensures SumValues(a) == SumValues(b) <==> a == b
  {
    SumPick(a, k);
    SumPick(b, k);
    hide SumValues;
    EqualIffEqualWithout(a, b, k);
  }

  lemma SumOfNone()
    ensures SumValues(map[]) == 0.0
  {
  }

  /** A pointwise smaller map has a smaller sum, and the same sum only if it is the same map. */
  lemma {:induction false} SumOrder(a: map<string, real>, b: map<string, real>)
    requires a.Keys == b.Keys && forall k :: k in a ==> a[k] <= b[k]
    ensures SumValues(a) <= SumValues(b)
    ensures SumValues(a) == SumValues(b) <==> a == b
    decreases |a|
  {
    hide SumValues;
    if a.Keys == {} {
      assert a == b;
    } else {
      var k :| k in a.Keys;
      SumOrder(a - {k}, b - {k});
      SumOrderStep(a, b, k);
    }
  }

  lemma {:induction false} SumOfSums(a: map<string, real>, b: map<string, real>, c: map<string, real>)
    requires a.Keys == b.Keys == c.Keys && forall k :: k in a ==> c[k] == a[k] + b[k]
    ensures SumValues(c) == SumValues(a) + SumValues(b)
    decreases |a|
  {
    if a != map[] {
      assert a.Keys != {};
      var k :| k in a;
      SumPick(a, k);
      SumPick(b, k);
      SumPick(c, k);
      SumOfSums(a - {k}, b - {k}, c - {k});
    }
  }

  lemma RatioOfZero(d: real)
    requires d != 0.0
    ensures Ratio(0.0, d) == 0.0
  {
  }

  lemma {:induction false} SumQuotient(a: map<string, real>, d: real, b: map<string, real>)
    requires d != 0.0 && a.Keys == b.Keys && forall k :: k in a ==> b[k] == Ratio(a[k], d)
    ensures SumValues(b) == Ratio(SumValues(a), d)
    decreases |a|
  {
    hide Ratio;
    RatioOfZero(d);
    if a != map[] {
      assert a.Keys != {};
      var k :| k in a;
      SumPick(a, k);
      SumPick(b, k);
      SumQuotient(a - {k}, d, b - {k});
      SumOfRatios(a[k], SumValues(a - {k}), d);
    }
  }

  lemma {:induction false} SumOfZeros(m: map<string, real>)
    requires forall k :: k in m ==> m[k] == 0.0
    ensures SumValues(m) == 0.0
    decreases |m|
  {
    if m != map[] {
      assert m.Keys != {};
      var k :| k in m;
      SumPick(m, k);
      SumOfZeros(m - {k});
    }
  }

  /** Record lookup with ?? 0. */
  function ValueAt(m: map<string, real>, k: string): real {
    if k in m then m[k] else 0.0
  }

  /** The map over more keys, absent ones counting 0. */
  ghost function Padded(m: map<string, real>, keys: set<string>): map<string, real> {
    map k | k in keys :: ValueAt(m, k)
  }

  lemma {:induction false} SumPadded(m: map<string, real>, keys: set<string>)
    requires m.Keys <= keys
    ensures SumValues(Padded(m, keys)) == SumValues(m)
    decreases |keys|
  {
    if k :| k in keys && k !in m {
      SumPadded(m, keys - {k});
      SumPick(Padded(m, keys), k);
      assert Padded(m, keys) - {k} == Padded(m, keys - {k});
    } else {
      assert Padded(m, keys) == m;
    }
  }
}

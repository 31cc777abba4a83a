/** Sums of a figure over a multiset, in whatever order its elements are visited. */
module MultisetSums {

  ghost function SumOver<T>(m: multiset<T>, f: T -> real): real
    decreases |m|
  {
    if m == multiset{} then 0.0
    else
      var x :| x in m;
      f(x) + SumOver(m - multiset{x}, f)
  }

  /** Any element may be taken out first. */
  lemma {:induction false} SumTake<T>(m: multiset<T>, f: T -> real, x: T)
    requires x in m
    ensures SumOver(m, f) == f(x) + SumOver(m - multiset{x}, f)
    decreases |m|
  {
    var y :| y in m && SumOver(m, f) == f(y) + SumOver(m - multiset{y}, f);
    if y != x {
      SumTake(m - multiset{y}, f, x);
      SumTake(m - multiset{x}, f, y);
      assert m - multiset{y} - multiset{x} == m - multiset{x} - multiset{y};
    }
  }

  lemma SumAdd<T>(m: multiset<T>, f: T -> real, x: T)
    ensures SumOver(m + multiset{x}, f) == SumOver(m, f) + f(x)
  {
    SumTake(m + multiset{x}, f, x);
    assert m + multiset{x} - multiset{x} == m;
  }

  lemma {:induction false} SumUnion<T>(a: multiset<T>, b: multiset<T>, f: T -> real)
    ensures SumOver(a + b, f) == SumOver(a, f) + SumOver(b, f)
    decreases |b|
  {
    if b == multiset{} {
      assert a + b == a;
    } else {
      var x :| x in b;
      SumTake(b, f, x);
      SumTake(a + b, f, x);
      assert a + b - multiset{x} == a + (b - multiset{x});
      SumUnion(a, b - multiset{x}, f);
    }
  }

  /** Figures that add up element by element have sums that add up. */
  lemma {:induction false} SumOfFunctions<T>(m: multiset<T>, f: T -> real, g: T -> real, h: T -> real)
    requires forall x :: x in m ==> h(x) == f(x) + g(x)
    ensures SumOver(m, h) == SumOver(m, f) + SumOver(m, g)
    decreases |m|
  {
    if m != multiset{} {
      var x :| x in m;
      SumTake(m, f, x);
      SumTake(m, g, x);
      SumTake(m, h, x);
      SumOfFunctions(m - multiset{x}, f, g, h);
    }
  }

  lemma {:induction false} SumSame<T>(m: multiset<T>, f: T -> real, g: T -> real)
    requires forall x :: x in m ==> f(x) == g(x)
    ensures SumOver(m, f) == SumOver(m, g)
    decreases |m|
  {
    if m != multiset{} {
      var x :| x in m;
      SumTake(m, f, x);
      SumTake(m, g, x);
      SumSame(m - multiset{x}, f, g);
    }
  }

  lemma {:induction false} SumOfNothing<T>(m: multiset<T>, f: T -> real)
    requires forall x :: x in m ==> f(x) == 0.0
    ensures SumOver(m, f) == 0.0
    decreases |m|
  {
    if m != multiset{} {
      var x :| x in m;
      SumTake(m, f, x);
      SumOfNothing(m - multiset{x}, f);
    }
  }
}

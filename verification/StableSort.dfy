/** Array.prototype.sort, which is stable, under a comparison that says when a must come after b. */
module StableSort {

  function Insert<T>(sorted: seq<T>, x: T, after: (T, T) -> bool): seq<T> {
    if sorted == [] || !after(sorted[|sorted| - 1], x) then sorted + [x]
    else Insert(sorted[..|sorted| - 1], x, after) + [sorted[|sorted| - 1]]
  }

  function Sort<T>(s: seq<T>, after: (T, T) -> bool): seq<T> {
    if s == [] then [] else Insert(Sort(s[..|s| - 1], after), s[|s| - 1], after)
  }

  lemma {:induction false} InsertKeeps<T>(sorted: seq<T>, x: T, after: (T, T) -> bool)
    ensures multiset(Insert(sorted, x, after)) == multiset(sorted) + multiset{x}
  {
    if sorted != [] {
      assert sorted == sorted[..|sorted| - 1] + [sorted[|sorted| - 1]];
      InsertKeeps(sorted[..|sorted| - 1], x, after);
    }
  }

  /** Sorting permutes. */
  lemma {:induction false} SortPermutes<T>(s: seq<T>, after: (T, T) -> bool)
    ensures multiset(Sort(s, after)) == multiset(s)
  {
    if s != [] {
      assert s == s[..|s| - 1] + [s[|s| - 1]];
      SortPermutes(s[..|s| - 1], after);
      InsertKeeps(Sort(s[..|s| - 1], after), s[|s| - 1], after);
    }
  }

  lemma SortMembers<T(!new)>(s: seq<T>, after: (T, T) -> bool)
    ensures forall x :: x in Sort(s, after) <==> x in s
  {
    SortPermutes(s, after);
    hide Sort;
    forall x
      ensures x in Sort(s, after) <==> x in s
    {
      assert x in multiset(Sort(s, after)) <==> x in multiset(s);
    }
  }

  ghost predicate InOrder<T>(s: seq<T>, after: (T, T) -> bool) {
    forall i, j :: 0 <= i < j < |s| ==> !after(s[i], s[j])
  }

  /** The comparison is a total preorder. */
  ghost predicate Consistent<T(!new)>(after: (T, T) -> bool) {
    && (forall a, b :: after(a, b) ==> !after(b, a))
    && (forall a, b, c :: !after(a, b) && !after(b, c) ==> !after(a, c))
  }

  lemma {:induction false} InsertOrders<T(!new)>(sorted: seq<T>, x: T, after: (T, T) -> bool)
    requires InOrder(sorted, after) && Consistent(after)
    ensures InOrder(Insert(sorted, x, after), after)
  {
    if sorted != [] && after(sorted[|sorted| - 1], x) {
      var front, last := sorted[..|sorted| - 1], sorted[|sorted| - 1];
      InsertOrders(front, x, after);
      var r := Insert(front, x, after);
      InsertKeeps(front, x, after);
      forall i | 0 <= i < |r|
        ensures !after(r[i], last)
      {
        assert r[i] in multiset(r);
      }
    }
  }

  lemma {:induction false} SortOrders<T(!new)>(s: seq<T>, after: (T, T) -> bool)
    requires Consistent(after)
    ensures InOrder(Sort(s, after), after)
  {
    if s != [] {
      SortOrders(s[..|s| - 1], after);
      InsertOrders(Sort(s[..|s| - 1], after), s[|s| - 1], after);
    }
  }

  lemma {:induction false} InsertAgrees<T>(sorted: seq<T>, x: T, f: (T, T) -> bool, g: (T, T) -> bool)
    requires forall i :: 0 <= i < |sorted| ==> f(sorted[i], x) == g(sorted[i], x)
    ensures Insert(sorted, x, f) == Insert(sorted, x, g)
  {
    if sorted != [] {
      InsertAgrees(sorted[..|sorted| - 1], x, f, g);
    }
  }

  /** Two comparisons that agree on the elements at hand sort alike. */
  lemma {:induction false} SortAgrees<T>(s: seq<T>, f: (T, T) -> bool, g: (T, T) -> bool)
    requires forall i, j :: 0 <= i < j < |s| ==> f(s[i], s[j]) == g(s[i], s[j])
    ensures Sort(s, f) == Sort(s, g)
  {
    if s != [] {
      var front, x := s[..|s| - 1], s[|s| - 1];
      SortAgrees(front, f, g);
      SortPermutes(front, f);
      var sorted := Sort(front, f);
      forall i | 0 <= i < |sorted|
        ensures f(sorted[i], x) == g(sorted[i], x)
      {
        assert sorted[i] in multiset(front);
        var j :| 0 <= j < |front| && front[j] == sorted[i];
        assert s[j] == front[j];
      }
      InsertAgrees(sorted, x, f, g);
    }
  }

  ghost predicate Apart<T, K>(s: seq<T>, key: T -> K) {
    forall i, j :: 0 <= i < j < |s| ==> key(s[i]) != key(s[j])
  }

  lemma {:induction false} InsertKeepsApart<T, K>(sorted: seq<T>, x: T, after: (T, T) -> bool, key: T -> K)
    requires Apart(sorted, key) && forall i :: 0 <= i < |sorted| ==> key(sorted[i]) != key(x)
    ensures Apart(Insert(sorted, x, after), key)
  {
    if sorted != [] && after(sorted[|sorted| - 1], x) {
      var front, last := sorted[..|sorted| - 1], sorted[|sorted| - 1];
      InsertKeepsApart(front, x, after, key);
      var r := Insert(front, x, after);
      InsertKeeps(front, x, after);
      forall i | 0 <= i < |r|
        ensures key(r[i]) != key(last)
      {
        assert r[i] in multiset(r);
      }
    }
  }

  lemma {:induction false} SortKeepsApart<T, K>(s: seq<T>, after: (T, T) -> bool, key: T -> K)
    requires Apart(s, key)
    ensures Apart(Sort(s, after), key)
  {
    if s != [] {
      var front, x := s[..|s| - 1], s[|s| - 1];
      SortKeepsApart(front, after, key);
      SortPermutes(front, after);
      var sorted := Sort(front, after);
      forall i | 0 <= i < |sorted|
        ensures key(sorted[i]) != key(x)
      {
        assert sorted[i] in multiset(front);
        var j :| 0 <= j < |front| && front[j] == sorted[i];
        assert s[j] == front[j];
      }
      InsertKeepsApart(sorted, x, after, key);
    }
  }
}

/** apps/api/src/agents/emotional-intel.service.ts: the bounded LRU map of token view counts. */
module TokenViews {
  import opened Basics
  import opened ColonKeys

  const VIEW_COUNTS_MAX: nat := 1000

  function ViewKey(userId: string, tokenAddress: string): string {
    "view:" + Joined(userId, tokenAddress)
  }

  /** Keys tell users and tokens apart, as long as no user id goes on after another and a colon. */
  lemma ViewKeysApart(u: string, t: string, v: string, s: string)
    requires u == v || !Meet(u, v)
    ensures ViewKey(u, t) == ViewKey(v, s) <==> u == v && t == s
  {
    JoinedApart(u, t, v, s);
    assert ViewKey(u, t)[5..] == Joined(u, t) && ViewKey(v, s)[5..] == Joined(v, s);
  }

  // ----- what a history of views means, without the bounded map

  /** For every key ever viewed, when it was last viewed. */
  ghost function LastViews(h: seq<string>): map<string, nat> {
    if h == [] then map[] else LastViews(h[..|h| - 1])[h[|h| - 1] := |h| - 1]
  }

  /** The distinct keys viewed after the last view of k. */
  ghost function ViewedSince(h: seq<string>, k: string): set<string>
    requires k in LastViews(h)
  {
    set i | LastViews(h)[k] < i < |h| :: h[i]
  }

  /** Fewer than VIEW_COUNTS_MAX other keys have been viewed since k was. */
  ghost predicate Recent(h: seq<string>, k: string) {
    k in LastViews(h) && |ViewedSince(h, k)| < VIEW_COUNTS_MAX
  }

  /** The views of k since it last became recent. */
  ghost function Views(h: seq<string>, k: string): nat {
    if h == [] then 0
    else
      var before := h[..|h| - 1];
      if h[|h| - 1] != k then Views(before, k) else if Recent(before, k) then Views(before, k) + 1 else 1
  }

  lemma {:induction false} LastViewsAreLast(h: seq<string>)
    ensures forall k :: k in LastViews(h) <==> k in h
    ensures forall k :: k in LastViews(h) ==> LastViews(h)[k] < |h| && h[LastViews(h)[k]] == k
    ensures forall i :: 0 <= i < |h| ==> i <= LastViews(h)[h[i]]
  {
    if h != [] {
      var front := h[..|h| - 1];
      LastViewsAreLast(front);
      assert h == front + [h[|h| - 1]];
    }
  }

  // ----- the map

  /** A JavaScript Map keeps its keys in insertion order. */
  class EmotionalIntelService {
    var order: seq<string>
    var counts: map<string, nat>
    ghost var history: seq<string>

    ghost predicate Valid()
      reads this
    {
      Holds(order, counts, history)
    }

    constructor ()
      ensures Valid() && history == []
    {
      order := [];
      counts := map[];
      history := [];
    }

    /** Map.set of a new key, after Map.delete of an old one, moves the key to the end. */
    method TrackTokenView(userId: string, tokenAddress: string) returns (count: nat)
      requires Valid()
      modifies this
      ensures Valid()
      ensures history == old(history) + [ViewKey(userId, tokenAddress)]
      ensures count == Views(history, ViewKey(userId, tokenAddress))
    {
      var key := ViewKey(userId, tokenAddress);
      hide Holds, Views;
      ViewKeeps(order, counts, history, key);
      count := (if key in counts then counts[key] else 0) + 1;
      if key in counts {
        order := Without(order, key);
      }
      order := order + [key];
      counts := counts[key := count];
      if |order| > VIEW_COUNTS_MAX {
        var oldest := order[0];
        order := order[1..];
        counts := counts - {oldest};
      }
      history := history + [key];
    }

    /** What was last returned for the key while it stays in the map, 0 once it fell out. */
    method GetViewCount(key: string) returns (n: nat)
      requires Valid()
      ensures n == if Recent(history, key) then Views(history, key) else 0
    {
      HeldIffRecent(order, history, key);
      n := if key in counts then counts[key] else 0;
    }
  }

  function Without(order: seq<string>, key: string): (r: seq<string>)
    ensures forall k :: k in r <==> k in order && k != key
  {
    if order == [] then []
    else if order[0] == key then Without(order[1..], key)
    else [order[0]] + Without(order[1..], key)
  }

  /**
   The keys are the ones ranked highest, lowest rank first, at most VIEW_COUNTS_MAX of them, and
   fewer only when no other key is ranked.
   */
  ghost predicate Ordered(order: seq<string>, rank: map<string, nat>) {
    && |order| <= VIEW_COUNTS_MAX
    && (forall i :: 0 <= i < |order| ==> order[i] in rank)
    && (forall i, j :: 0 <= i < j < |order| ==> rank[order[i]] < rank[order[j]])
    && (forall k :: k in rank && k !in order ==> |order| == VIEW_COUNTS_MAX && rank[k] < rank[order[0]])
  }

  /** The most recently viewed keys, oldest view first, each with its views since it last entered. */
  ghost predicate Holds(order: seq<string>, counts: map<string, nat>, h: seq<string>) {
    && Ordered(order, LastViews(h))
    && (forall k :: k in counts <==> k in order)
    && (forall k :: k in counts ==> counts[k] == Views(h, k))
  }

  // ----- one more view

  lemma {:induction false} WithoutAt(order: seq<string>, i: nat)
    requires i < |order| && forall j, k :: 0 <= j < k < |order| ==> order[j] != order[k]
    ensures Without(order, order[i]) == order[..i] + order[i + 1..]
  {
    var tail := order[1..];
    if i > 0 {
      WithoutAt(tail, i - 1);
      assert [order[0]] + tail[..i - 1] == order[..i] && tail[i..] == order[i + 1..];
      assert Without(order, order[i]) == [order[0]] + (tail[..i - 1] + tail[i..]);
    } else {
      WithoutAbsent(tail, order[0]);
      assert order[..0] + tail == tail;
    }
  }

  lemma {:induction false} WithoutAbsent(order: seq<string>, key: string)
    requires key !in order
    ensures Without(order, key) == order
  {
    if order != [] {
      WithoutAbsent(order[1..], key);
    }
  }

  /** Where the element at index j was before the one at index i moved to the end. */
  function Origin(j: nat, i: nat, size: nat): nat {
    if j < i then j else if j < size - 1 then j + 1 else i
  }

  lemma MovedAt(order: seq<string>, i: nat, j: nat)
    requires i < |order| && j < |order|
    ensures (order[..i] + order[i + 1..] + [order[i]])[j] == order[Origin(j, i, |order|)]
  {
  }

  lemma MovingHeldKey(order: seq<string>, rank: map<string, nat>, i: nat, top: nat)
    requires Ordered(order, rank) && i < |order| && forall k :: k in rank ==> rank[k] < top
    ensures Ordered(order[..i] + order[i + 1..] + [order[i]], rank[order[i] := top])
  {
    var moved := order[..i] + order[i + 1..] + [order[i]];
    forall j | 0 <= j < |order|
      ensures moved[j] == order[Origin(j, i, |order|)]
    {
      MovedAt(order, i, j);
    }
    MovedIsOrdered(order, rank, i, top, moved);
  }

  lemma MovedIsOrdered(order: seq<string>, rank: map<string, nat>, i: nat, top: nat, moved: seq<string>)
    requires Ordered(order, rank) && i < |order| && forall k :: k in rank ==> rank[k] < top
    requires |moved| == |order| && forall j :: 0 <= j < |order| ==> moved[j] == order[Origin(j, i, |order|)]
    ensures Ordered(moved, rank[order[i] := top])
  {
    hide Ordered;
    var rank' := rank[order[i] := top];
    BoundHolds(order, rank);
    forall a | 0 <= a < |moved|
      ensures moved[a] in rank'
    {
      MovedPair(order, rank, i, top, a, a);
    }
    forall a, b | 0 <= a < b < |moved|
      ensures rank'[moved[a]] < rank'[moved[b]]
    {
      MovedPair(order, rank, i, top, a, b);
    }
    forall k | k in rank' && k !in moved
      ensures |moved| == VIEW_COUNTS_MAX && rank'[k] < rank'[moved[0]]
    {
      if k in order {
        StillHeld(order, i, moved, k);
      }
      LeftOut(order, rank, i, top, k);
    }
    MakeOrdered(moved, rank');
  }

  lemma MovedPair(order: seq<string>, rank: map<string, nat>, i: nat, top: nat, a: nat, b: nat)
    requires Ordered(order, rank) && i < |order| && a <= b < |order| && forall k :: k in rank ==> rank[k] < top
    ensures var rank', a', b' := rank[order[i] := top], Origin(a, i, |order|), Origin(b, i, |order|);
            order[a'] in rank' && order[b'] in rank' && (a < b ==> rank'[order[a']] < rank'[order[b']])
  {
  }

  lemma StillHeld(order: seq<string>, i: nat, moved: seq<string>, k: string)
    requires i < |order| == |moved| && forall j :: 0 <= j < |order| ==> moved[j] == order[Origin(j, i, |order|)]
    requires k in order
    ensures k in moved
  {
    var j :| 0 <= j < |order| && order[j] == k;
    assert moved[if j < i then j else if j == i then |order| - 1 else j - 1] == k;
  }

  lemma LeftOut(order: seq<string>, rank: map<string, nat>, i: nat, top: nat, k: string)
    requires Ordered(order, rank) && i < |order| && forall j :: j in rank ==> rank[j] < top
    requires k in rank[order[i] := top] && k !in order
    ensures var rank', first := rank[order[i] := top], order[Origin(0, i, |order|)];
            |order| == VIEW_COUNTS_MAX && first in rank' && rank'[k] < rank'[first]
  {
  }

  lemma MakeOrdered(order: seq<string>, rank: map<string, nat>)
    requires |order| <= VIEW_COUNTS_MAX
    requires forall i :: 0 <= i < |order| ==> order[i] in rank
    requires forall i, j :: 0 <= i < j < |order| ==> rank[order[i]] < rank[order[j]]
    requires forall k :: k in rank && k !in order ==> |order| == VIEW_COUNTS_MAX && rank[k] < rank[order[0]]
    ensures Ordered(order, rank)
  {
  }

  lemma AddingNewKey(order: seq<string>, rank: map<string, nat>, key: string, top: nat)
    requires Ordered(order, rank) && key !in order && forall k :: k in rank ==> rank[k] < top
    ensures Ordered(if |order| < VIEW_COUNTS_MAX then order + [key] else order[1..] + [key], rank[key := top])
  {
    hide Ordered;
    var kept := if |order| < VIEW_COUNTS_MAX then order else order[1..];
    var from := if |order| < VIEW_COUNTS_MAX then 0 else 1;
    var more, rank' := kept + [key], rank[key := top];
    BoundHolds(order, rank);
    forall a | 0 <= a < |kept|
      ensures more[a] == order[a + from] && more[a] in rank' && rank'[more[a]] < top && more[a] != key
    {
      RankedPair(order, rank, a + from, a + from);
    }
    forall a, b | 0 <= a < b < |more|
      ensures rank'[more[a]] < rank'[more[b]]
    {
      if b < |kept| {
        RankedPair(order, rank, a + from, b + from);
      }
    }
    forall k | k in rank' && k !in more
      ensures |more| == VIEW_COUNTS_MAX && rank'[k] < rank'[more[0]]
    {
      NotKept(order, rank, key, k);
    }
    MakeOrdered(more, rank');
  }

  lemma RankedPair(order: seq<string>, rank: map<string, nat>, a: nat, b: nat)
    requires Ordered(order, rank) && a <= b < |order|
    ensures order[a] in rank && order[b] in rank && (a < b ==> rank[order[a]] < rank[order[b]])
  {
  }

  /** A ranked key that is not kept is the dropped oldest one or was left out before. */
  lemma NotKept(order: seq<string>, rank: map<string, nat>, key: string, k: string)
    requires Ordered(order, rank) && k in rank && k != key
    requires k !in (if |order| < VIEW_COUNTS_MAX then order + [key] else order[1..] + [key])
    ensures |order| == VIEW_COUNTS_MAX && rank[k] < rank[order[1]]
  {
    assert forall i :: 0 <= i < |order| ==> (order + [key])[i] == order[i];
    assert forall i :: 1 <= i < |order| ==> (order[1..] + [key])[i - 1] == order[i];
  }

  /** The map after one view, before the oldest leaves when there are too many. */
  ghost function BumpedOrder(order: seq<string>, key: string): seq<string> {
    (if key in order then Without(order, key) else order) + [key]
  }

  ghost function BumpedCounts(counts: map<string, nat>, key: string): map<string, nat> {
    counts[key := (if key in counts then counts[key] else 0) + 1]
  }

  lemma BumpingHeldKey(order: seq<string>, rank: map<string, nat>, key: string, top: nat)
    requires Ordered(order, rank) && key in order && forall k :: k in rank ==> rank[k] < top
    ensures Ordered(BumpedOrder(order, key), rank[key := top])
    ensures |BumpedOrder(order, key)| == |order| <= VIEW_COUNTS_MAX
  {
    hide Ordered;
    BoundHolds(order, rank);
    RanksDiffer(order, rank);
    var i :| 0 <= i < |order| && order[i] == key;
    WithoutAt(order, i);
    MovingHeldKey(order, rank, i, top);
  }

  lemma BumpingNewKey(order: seq<string>, rank: map<string, nat>, key: string, top: nat)
    requires Ordered(order, rank) && key !in order && forall k :: k in rank ==> rank[k] < top
    ensures var bumped := BumpedOrder(order, key);
            && |bumped| == |order| + 1 <= VIEW_COUNTS_MAX + 1
            && Ordered(if |bumped| > VIEW_COUNTS_MAX then bumped[1..] else bumped, rank[key := top])
    ensures order != [] ==> order[0] !in order[1..]
  {
    hide Ordered;
    BoundHolds(order, rank);
    RanksDiffer(order, rank);
    AddingNewKey(order, rank, key, top);
    assert order != [] ==> (order + [key])[1..] == order[1..] + [key];
  }

  lemma BoundHolds(order: seq<string>, rank: map<string, nat>)
    requires Ordered(order, rank)
    ensures |order| <= VIEW_COUNTS_MAX
  {
  }

  lemma RanksDiffer(order: seq<string>, rank: map<string, nat>)
    requires Ordered(order, rank)
    ensures forall i, j :: 0 <= i < j < |order| ==> order[i] != order[j]
  {
  }

  /** The last views and counts after one more view. */
  lemma OneMoreView(h: seq<string>, key: string)
    ensures LastViews(h + [key]) == LastViews(h)[key := |h|]
    ensures forall k :: k in LastViews(h) ==> LastViews(h)[k] < |h|
    ensures Views(h + [key], key) == if Recent(h, key) then Views(h, key) + 1 else 1
    ensures forall k :: k != key ==> Views(h + [key], k) == Views(h, k)
  {
    LastViewsAreLast(h);
    assert (h + [key])[..|h|] == h;
  }

  lemma BumpedMembers(order: seq<string>, key: string)
    ensures forall k :: k in BumpedOrder(order, key) <==> k == key || k in order
  {
  }

  lemma BumpKeepsCounts(order: seq<string>, counts: map<string, nat>, h: seq<string>, key: string)
    requires Holds(order, counts, h)
    ensures BumpedCounts(counts, key)[key] == Views(h + [key], key)
    ensures forall k :: k in BumpedCounts(counts, key) <==> k in BumpedOrder(order, key)
    ensures forall k :: k in BumpedCounts(counts, key) ==> BumpedCounts(counts, key)[k] == Views(h + [key], k)
    ensures key in counts <==> key in order
  {
    hide Recent, Ordered, Views, LastViews, BumpedOrder;
    HeldIffRecent(order, h, key);
    OneMoreView(h, key);
    BumpedMembers(order, key);
  }

  lemma ViewKeeps(order: seq<string>, counts: map<string, nat>, h: seq<string>, key: string)
    requires Holds(order, counts, h)
    ensures var bumped, views := BumpedOrder(order, key), BumpedCounts(counts, key);
            if |bumped| > VIEW_COUNTS_MAX then Holds(bumped[1..], views - {bumped[0]}, h + [key])
            else Holds(bumped, views, h + [key])
    ensures BumpedCounts(counts, key)[key] == Views(h + [key], key)
    ensures key in counts <==> key in order
  {
    hide Recent, Ordered, Views, LastViews, BumpedCounts;
    BumpKeepsCounts(order, counts, h, key);
    OneMoreView(h, key);
    var bumped := BumpedOrder(order, key);
    if key in order {
      BumpingHeldKey(order, LastViews(h), key, |h|);
    } else {
      BumpingNewKey(order, LastViews(h), key, |h|);
      assert order != [] ==> bumped == [order[0]] + bumped[1..] && bumped[1..] == order[1..] + [key];
    }
  }

  // ----- the map holds exactly the recent keys

  /** As long as there were at most 1000 different keys, the count of a key is the number of its views. */
  lemma {:induction false} FewKeysCountAll(h: seq<string>, k: string)
    requires |LastViews(h)| <= 1000
    ensures Views(h, k) == multiset(h)[k]
  {
    if h != [] {
      var front, last := h[..|h| - 1], h[|h| - 1];
      assert h == front + [last];
      SubsetSize(LastViews(front).Keys, LastViews(h).Keys);
      FewKeysCountAll(front, k);
      if last == k && k in front {
        FewKeysAreRecent(front, k);
      }
      hide Recent, LastViews;
      assert multiset(h) == multiset(front) + multiset{last};
      NotViewed(front, k);
    }
  }

  lemma NotViewed(h: seq<string>, k: string)
    ensures k !in h ==> multiset(h)[k] == 0 && !Recent(h, k)
  {
    LastViewsAreLast(h);
    assert k in h <==> k in multiset(h);
  }

  lemma FewKeysAreRecent(h: seq<string>, k: string)
    requires |LastViews(h)| <= 1000 && k in h
    ensures Recent(h, k)
  {
    LastViewsAreLast(h);
    var others := LastViews(h).Keys - {k};
    forall y | y in ViewedSince(h, k)
      ensures y in others
    {
      var i :| LastViews(h)[k] < i < |h| && h[i] == y;
    }
    SubsetSize(ViewedSince(h, k), others);
  }

  lemma {:induction false} DistinctSize(xs: seq<string>)
    requires forall i, j :: 0 <= i < j < |xs| ==> xs[i] != xs[j]
    ensures |set x | x in xs| == |xs|
  {
    if xs != [] {
      DistinctSize(xs[1..]);
      assert (set x | x in xs) == (set x | x in xs[1..]) + {xs[0]};
    }
  }

  /** Everything viewed after a held key is held too, behind it. */
  lemma ViewedSinceHeld(order: seq<string>, h: seq<string>, i: nat)
    requires Ordered(order, LastViews(h)) && i < |order|
    ensures |ViewedSince(h, order[i])| < VIEW_COUNTS_MAX
  {
    var key, later, rank := order[i], order[i + 1..], LastViews(h);
    LastViewsAreLast(h);
    forall y | y in ViewedSince(h, key)
      ensures y in later
    {
      assert rank[y] > rank[key] >= rank[order[0]];
      var m :| 0 <= m < |order| && order[m] == y;
      assert later[m - i - 1] == y;
    }
    RanksDiffer(order, rank);
    DistinctSize(later);
    SubsetSize(ViewedSince(h, key), (set x | x in later));
  }

  /** A full map of keys viewed later has pushed the key out. */
  lemma ViewedSinceDropped(order: seq<string>, h: seq<string>, key: string)
    requires Ordered(order, LastViews(h)) && key in LastViews(h) && key !in order
    ensures |ViewedSince(h, key)| >= VIEW_COUNTS_MAX
  {
    var rank := LastViews(h);
    LastViewsAreLast(h);
    forall k | k in order
      ensures k in ViewedSince(h, key)
    {
      assert rank[key] < rank[order[0]] <= rank[k];
      assert h[rank[k]] == k;
    }
    RanksDiffer(order, rank);
    DistinctSize(order);
    SubsetSize((set x | x in order), ViewedSince(h, key));
  }

  lemma HeldIffRecent(order: seq<string>, h: seq<string>, key: string)
    requires Ordered(order, LastViews(h))
    ensures key in order <==> Recent(h, key)
  {
    if key in order {
      var i :| 0 <= i < |order| && order[i] == key;
      ViewedSinceHeld(order, h, i);
    } else if key in LastViews(h) {
      ViewedSinceDropped(order, h, key);
    }
  }

  /**
   However long the run, the map never exceeds its bound, and it holds a key exactly while fewer than 1000 others were
   viewed since.
   */
  lemma HeldKeys(order: seq<string>, counts: map<string, nat>, h: seq<string>)
    requires Holds(order, counts, h)
    ensures |counts| <= 1000
    ensures forall k :: k in counts <==> Recent(h, k)
    ensures forall k :: k in counts <==> k in LastViews(h) && |ViewedSince(h, k)| < 1000
  {
    RanksDiffer(order, LastViews(h));
    DistinctSize(order);
    assert counts.Keys == set x | x in order;
    assert |counts| == |counts.Keys|;
    forall k {
      HeldIffRecent(order, h, k);
    }
  }
}

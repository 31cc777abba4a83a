/**
 The counter idiom of the quota adapter and the circuit breaker: INCR a key and give it a TTL when
 the count is 1. A window therefore opens at its first hit and lasts until the key dies; it is not
 a sliding window. This module says how far from one it can be.
 */
module FixedWindow {
  import opened Basics
  import opened TtlStores

  /** The window the last hit belongs to: hits counted in it, and the time of its first hit. */
  datatype Window = Window(count: nat, start: nat)

  /** The window after the given hits, oldest first. */
  ghost function Current(hits: seq<nat>, ttlMs: nat): (w: Window)
    ensures hits == [] <==> w.count == 0
  {
    if hits == [] then Window(0, 0)
    else
      var w := Current(hits[..|hits| - 1], ttlMs);
      var t := hits[|hits| - 1];
      if w.count > 0 && t <= w.start + ttlMs then Window(w.count + 1, w.start) else Window(1, t)
  }

  /** What GET reads at time now. */
  ghost function CountAt(hits: seq<nat>, ttlMs: nat, now: nat): nat {
    var w := Current(hits, ttlMs);
    if now <= w.start + ttlMs then w.count else 0
  }

  /** The store entry of key k holds exactly the current window of the hits. */
  ghost predicate Reflects<K>(entries: map<K, Entry<nat>>, k: K, hits: seq<nat>, ttlMs: nat) {
    if hits == [] then
      k !in entries
    else
      && k in entries
      && entries[k] == Entry(Current(hits, ttlMs).count, Some(Current(hits, ttlMs).start + ttlMs))
  }

  /** INCR, and EXPIRE when the count is 1. */
  method Hit<K>(store: TtlStore<K, nat>, k: K, ttlSeconds: nat, now: nat, ghost hits: seq<nat>)
    returns (count: nat)
    requires ttlSeconds > 0
    requires Reflects(store.entries, k, hits, 1000 * ttlSeconds)
    modifies store
    ensures Reflects(store.entries, k, hits + [now], 1000 * ttlSeconds)
    ensures count == Current(hits + [now], 1000 * ttlSeconds).count
    ensures k in store.entries && store.entries == old(store.entries)[k := store.entries[k]]
  {
    assert (hits + [now])[..|hits|] == hits;
    count := Incr(store, k, now);
    if count == 1 {
      store.Expire(k, ttlSeconds, now);
    }
  }

  /** No window so far has counted more than n hits. */
  ghost predicate Capped(hits: seq<nat>, ttlMs: nat, n: nat) {
    forall i :: 0 <= i <= |hits| ==> Current(hits[..i], ttlMs).count <= n
  }

  lemma CappedFront(hits: seq<nat>, ttlMs: nat, n: nat)
    requires Capped(hits, ttlMs, n) && hits != []
    ensures Capped(hits[..|hits| - 1], ttlMs, n) && Current(hits, ttlMs).count <= n
  {
    var front := hits[..|hits| - 1];
    assert forall i :: 0 <= i <= |front| ==> front[..i] == hits[..i];
    assert hits[..|hits|] == hits;
  }

  /** A hit keeps the cap when there was room for it at some earlier moment since the last one. */
  lemma CappedAppend(hits: seq<nat>, ttlMs: nat, n: nat, checkedAt: nat, t: nat)
    requires Capped(hits, ttlMs, n) && CountAt(hits, ttlMs, checkedAt) < n && checkedAt <= t
    ensures Capped(hits + [t], ttlMs, n)
  {
    var more := hits + [t];
    assert more[..|hits|] == hits && more[..|more|] == more && hits[..|hits|] == hits;
    assert forall i :: 0 <= i <= |hits| ==> more[..i] == hits[..i];
    assert Current(hits[..|hits|], ttlMs).count <= n;
  }

  /**
   Windows of at most n hits allow at most 2n - 1 hits in any interval as long as the TTL: two
   windows can meet inside it, but then the first hit of the earlier one lies outside.
   */
  lemma {:induction false} IntervalBound(hits: seq<nat>, ttlMs: nat, n: nat, a: int)
    requires Sorted(hits) && n >= 1 && Capped(hits, ttlMs, n)
    ensures Within(hits, a, a + ttlMs) <= 2 * n - 1
    ensures var w := Current(hits, ttlMs);
            hits != [] ==>
              && w.start <= hits[|hits| - 1]
              && (w.start < a ==> Within(hits, a, a + ttlMs) <= w.count - 1)
              && (a <= w.start < a + ttlMs ==> Within(hits, a, a + ttlMs) <= n - 1 + w.count)
    decreases |hits|
  {
    if hits != [] {
      var front, t := hits[..|hits| - 1], hits[|hits| - 1];
      CappedFront(hits, ttlMs, n);
      IntervalBound(front, ttlMs, n, a);
      hide Capped;
      if t < a {
        WithinOutside(hits, a, a + ttlMs);
      }
    }
  }

  /** Every hit counted in the current window lies within one TTL of its start. */
  lemma {:induction false} WindowHits(hits: seq<nat>, ttlMs: nat)
    requires Sorted(hits)
    ensures var w := Current(hits, ttlMs);
            && w.count <= |hits|
            && (forall i :: |hits| - w.count <= i < |hits| ==> w.start <= hits[i] <= w.start + ttlMs)
            && (hits != [] ==> hits[|hits| - w.count] == w.start)
    decreases |hits|
  {
    if hits != [] {
      WindowHits(hits[..|hits| - 1], ttlMs);
    }
  }

  ghost function Repeat(t: nat, n: nat): (ts: seq<nat>)
    ensures |ts| == n && forall x :: x in ts ==> x == t
  {
    seq(n, _ => t)
  }

  lemma {:induction false} RepeatHits(hits: seq<nat>, ttlMs: nat, t: nat, m: nat, lo: int, hi: int)
    requires hits != [] && t <= Current(hits, ttlMs).start + ttlMs && lo <= t < hi
    ensures Current(hits + Repeat(t, m), ttlMs) == Window(Current(hits, ttlMs).count + m, Current(hits, ttlMs).start)
    ensures Within(hits + Repeat(t, m), lo, hi) == Within(hits, lo, hi) + m
    decreases m
  {
    if m == 0 {
      assert hits + Repeat(t, 0) == hits;
    } else {
      RepeatHits(hits, ttlMs, t, m - 1, lo, hi);
      var more := hits + Repeat(t, m);
      assert more[..|more| - 1] == hits + Repeat(t, m - 1);
      assert more[|more| - 1] == t;
    }
  }

  /** A hit after the window's expiry opens the next window. */
  lemma LateHit(hits: seq<nat>, ttlMs: nat, t: nat, lo: int, hi: int)
    requires hits == [] || t > Current(hits, ttlMs).start + ttlMs
    ensures Current(hits + [t], ttlMs) == Window(1, t)
    ensures Within(hits + [t], lo, hi) == Within(hits, lo, hi) + (if lo <= t < hi then 1 else 0)
  {
    assert (hits + [t])[..|hits|] == hits;
  }

  /** One early hit, n - 1 at the last moment of its window, then m in the next window. */
  ghost function Worst(ttlMs: nat, n: nat, m: nat): seq<nat>
    requires n >= 1
  {
    ([0] + Repeat(ttlMs, n - 1)) + (if m == 0 then [] else [ttlMs + 1] + Repeat(ttlMs + 1, m - 1))
  }

  lemma WorstCounts(ttlMs: nat, n: nat, m: nat)
    requires n >= 1 && ttlMs >= 2
    ensures Current(Worst(ttlMs, n, m), ttlMs).count == (if m == 0 then n else m)
    ensures Within(Worst(ttlMs, n, m), ttlMs, ttlMs + ttlMs) == n - 1 + m
  {
    hide Current, Within;
    var none: seq<nat>, zero: seq<nat> := [], [0];
    var first := zero + Repeat(ttlMs, n - 1);
    LateHit(none, ttlMs, 0, ttlMs, ttlMs + ttlMs);
    assert none + [0] == zero;
    RepeatHits(zero, ttlMs, ttlMs, n - 1, ttlMs, ttlMs + ttlMs);
    if m == 0 {
      assert Worst(ttlMs, n, m) == first;
    } else {
      var second := first + [ttlMs + 1];
      LateHit(first, ttlMs, ttlMs + 1, ttlMs, ttlMs + ttlMs);
      RepeatHits(second, ttlMs, ttlMs + 1, m - 1, ttlMs, ttlMs + ttlMs);
      assert Worst(ttlMs, n, m) == second + Repeat(ttlMs + 1, m - 1);
    }
  }

  lemma WorstPrefix(ttlMs: nat, n: nat, m: nat, i: nat)
    requires n >= 1 && 1 <= i <= n + m
    ensures Worst(ttlMs, n, m)[..i] == if i <= n then Worst(ttlMs, i, 0) else Worst(ttlMs, n, i - n)
  {
  }

  /** The bound of IntervalBound is met, so no smaller one holds. */
  lemma BoundIsMet(ttlMs: nat, n: nat) returns (hits: seq<nat>)
    requires n >= 1 && ttlMs >= 2
    ensures Sorted(hits) && Capped(hits, ttlMs, n)
    ensures Within(hits, ttlMs, ttlMs + ttlMs) == 2 * n - 1
    ensures hits != [] && hits[|hits| - 1] == ttlMs + 1 && Current(hits, ttlMs).count == n
  {
    hits := Worst(ttlMs, n, n);
    WorstCounts(ttlMs, n, n);
    forall i | 0 <= i <= |hits|
      ensures Current(hits[..i], ttlMs).count <= n
    {
      if i == 0 {
      } else {
        WorstPrefix(ttlMs, n, n, i);
        WorstCounts(ttlMs, if i <= n then i else n, if i <= n then 0 else i - n);
      }
    }
  }
}

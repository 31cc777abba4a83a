/**
 How near security/rate-limit/exchange.quota.adapter.ts comes to its plain reading, "at most ordersPerSecond in any
 second".
 */
module QuotaLimits {
  import opened Basics
  import opened FixedWindow
  import opened ExchangeQuota

  // ----- which send times callers with discipline can reach

  /** Send times in order that never take a counter over its limit. */
  ghost predicate Admissible(c: Config, sends: seq<nat>) {
    && Sorted(sends)
    && Capped(sends, SECOND_MS, c.ordersPerSecond)
    && Capped(sends, DAY_MS, c.ordersPerDay)
  }

  ghost predicate Reached(configs: map<string, Config>, exchange: string, h: seq<Event>, clock: nat) {
    InTimeOrder(h, clock) && Truthful(h, configs) && Disciplined(h)
  }

  /** Every send right after an allowed check. */
  ghost function ClearedSends(exchange: string, sends: seq<nat>): seq<Event> {
    if sends == [] then []
    else
      var t := sends[|sends| - 1];
      ClearedSends(exchange, sends[..|sends| - 1]) + [Checked(exchange, t, true), Sent(exchange, t)]
  }

  lemma RoomForNext(c: Config, sends: seq<nat>, t: nat)
    requires Admissible(c, sends + [t])
    ensures HasRoom(c, sends, t) && Admissible(c, sends)
  {
    CappedFront(sends + [t], SECOND_MS, c.ordersPerSecond);
    CappedFront(sends + [t], DAY_MS, c.ordersPerDay);
    assert (sends + [t])[..|sends|] == sends;
    hide Capped;
  }

  lemma DisciplinedAppend(h: seq<Event>, e: Event)
    requires Disciplined(h) && (e.Sent? ==> Cleared(h, e.exchange))
    ensures Disciplined(h + [e])
  {
    hide Cleared;
    var more := h + [e];
    forall i | 0 <= i < |more| && more[i].Sent?
      ensures Cleared(more[..i], more[i].exchange)
    {
      assert more[..i] == h[..i] && (i == |h| ==> h[..i] == h);
    }
  }

  lemma CheckNext(configs: map<string, Config>, exchange: string, h: seq<Event>, clock: nat, t: nat)
    requires Reached(configs, exchange, h, clock) && clock <= t
    requires exchange in configs && HasRoom(configs[exchange], SendTimes(h, exchange), t)
    ensures var more := h + [Checked(exchange, t, true)];
            && Reached(configs, exchange, more, t) && Cleared(more, exchange)
            && SendTimes(more, exchange) == SendTimes(h, exchange)
  {
    var e := Checked(exchange, t, true);
    NothingSent(h, exchange, t);
    hide SendTimes, HasRoom, Cleared, Truthful, Disciplined, InTimeOrder;
    TruthfulAppend(configs, h, e);
    DisciplinedAppend(h, e);
    InOrderAppend(h, clock, e);
  }

  lemma NothingSent(h: seq<Event>, exchange: string, t: nat)
    ensures var more := h + [Checked(exchange, t, true)];
            SendTimes(more, exchange) == SendTimes(h, exchange) && Cleared(more, exchange)
  {
    assert (h + [Checked(exchange, t, true)])[..|h|] == h;
    SendTimesAppend(h, Checked(exchange, t, true), exchange);
  }

  lemma SendNext(configs: map<string, Config>, exchange: string, h: seq<Event>, t: nat)
    requires Reached(configs, exchange, h, t) && Cleared(h, exchange)
    ensures var more := h + [Sent(exchange, t)];
            Reached(configs, exchange, more, t) && SendTimes(more, exchange) == SendTimes(h, exchange) + [t]
  {
    hide SendTimes, HasRoom, Cleared, Truthful, Disciplined, InTimeOrder;
    SendTimesAppend(h, Sent(exchange, t), exchange);
    TruthfulAppend(configs, h, Sent(exchange, t));
    DisciplinedAppend(h, Sent(exchange, t));
    InOrderAppend(h, t, Sent(exchange, t));
  }

  lemma CheckAndSend(configs: map<string, Config>, exchange: string, h: seq<Event>, clock: nat, t: nat)
    requires Reached(configs, exchange, h, clock) && clock <= t
    requires exchange in configs && HasRoom(configs[exchange], SendTimes(h, exchange), t)
    ensures var more := h + [Checked(exchange, t, true), Sent(exchange, t)];
            Reached(configs, exchange, more, t) && SendTimes(more, exchange) == SendTimes(h, exchange) + [t]
  {
    hide *;
    CheckNext(configs, exchange, h, clock, t);
    SendNext(configs, exchange, h + [Checked(exchange, t, true)], t);
    assert h + [Checked(exchange, t, true), Sent(exchange, t)] ==
        h + [Checked(exchange, t, true)] + [Sent(exchange, t)];
  }

  lemma {:induction false} ClearedSendsReach(configs: map<string, Config>, exchange: string, sends: seq<nat>)
    requires exchange in configs && Admissible(configs[exchange], sends)
    ensures var h := ClearedSends(exchange, sends);
            && Reached(configs, exchange, h, if sends == [] then 0 else sends[|sends| - 1])
            && SendTimes(h, exchange) == sends
  {
    if sends != [] {
      var front, t := sends[..|sends| - 1], sends[|sends| - 1];
      assert sends == front + [t];
      RoomForNext(configs[exchange], front, t);
      hide Admissible, Reached, HasRoom;
      ClearedSendsReach(configs, exchange, front);
      assert front == [] || front[|front| - 1] <= t by {
        hide *;
        LastBefore(configs[exchange], front, t);
      }
      CheckAndSend(configs, exchange, ClearedSends(exchange, front), if front == [] then 0 else front[|front| - 1], t);
    }
  }

  lemma LastBefore(c: Config, front: seq<nat>, t: nat)
    requires Admissible(c, front + [t])
    ensures front == [] || front[|front| - 1] <= t
  {
    var all := front + [t];
    assert front != [] ==> all[|front| - 1] <= all[|front|];
  }

  /** The send times that callers with discipline can reach are exactly the admissible ones. */
  lemma ReachableIffAdmissible(configs: map<string, Config>, exchange: string, sends: seq<nat>)
    requires exchange in configs
    ensures (exists h, clock :: Reached(configs, exchange, h, clock) && SendTimes(h, exchange) == sends) <==>
            Admissible(configs[exchange], sends)
  {
    hide Truthful, Disciplined, SendTimes, Capped;
    if h, clock :| Reached(configs, exchange, h, clock) && SendTimes(h, exchange) == sends {
      SendTimesInOrder(h, clock, exchange);
      SendsAreCapped(h, configs, clock, exchange);
    }
    if Admissible(configs[exchange], sends) {
      ClearedSendsReach(configs, exchange, sends);
      hide Reached;
      assert Reached(configs, exchange, ClearedSends(exchange, sends), if sends == [] then 0 else sends[|sends| - 1]);
    }
  }

  // ----- the bound

  /** An interval with no hit in the TTL before it holds at most one window. */
  lemma {:induction false} QuietStart(hits: seq<nat>, ttlMs: nat, n: nat, a: int)
    requires Sorted(hits) && Capped(hits, ttlMs, n)
    requires forall i :: 0 <= i < |hits| ==> !(a - ttlMs <= hits[i] < a)
    ensures Within(hits, a, a + ttlMs) <= n
    ensures hits != [] && a <= hits[|hits| - 1] < a + ttlMs ==>
              Current(hits, ttlMs).start >= a && Current(hits, ttlMs).count == Within(hits, a, a + ttlMs)
  {
    if hits != [] {
      var front, t := hits[..|hits| - 1], hits[|hits| - 1];
      CappedFront(hits, ttlMs, n);
      QuietStart(front, ttlMs, n, a);
      hide Capped;
      if t < a {
        WithinOutside(hits, a, a + ttlMs);
      } else {
        WindowHits(front, ttlMs);
        if front != [] && front[|front| - 1] < a {
          WithinOutside(front, a, a + ttlMs);
        }
      }
    }
  }

  /** A hit before the interval counts in a wider one. */
  lemma {:induction false} WithinWider(hits: seq<nat>, lo: int, a: int, b: int, hi: int)
    requires lo <= a <= b <= hi
    ensures Within(hits, lo, hi) >= Within(hits, a, b)
    ensures (exists i :: 0 <= i < |hits| && lo <= hits[i] < a) ==> Within(hits, lo, hi) >= Within(hits, a, b) + 1
  {
    if hits != [] {
      WithinWider(hits[..|hits| - 1], lo, a, b, hi);
    }
  }

  /** The day limit keeps the overshoot of the second down as well. */
  lemma SecondBound(c: Config, sends: seq<nat>, a: int)
    requires Admissible(c, sends) && ValidConfig(c)
    ensures var count := Within(sends, a, a + SECOND_MS);
            count <= c.ordersPerSecond || (count <= 2 * c.ordersPerSecond - 1 && count <= 2 * c.ordersPerDay - 2)
  {
    hide Within, Capped;
    IntervalBound(sends, SECOND_MS, c.ordersPerSecond, a);
    if i :| 0 <= i < |sends| && a - SECOND_MS <= sends[i] < a {
      IntervalBound(sends, DAY_MS, c.ordersPerDay, sends[i]);
      WithinWider(sends, sends[i], a, a + SECOND_MS, sends[i] + DAY_MS);
    } else {
      QuietStart(sends, SECOND_MS, c.ordersPerSecond, a);
    }
  }

  // ----- the bound is met

  lemma RepeatKeeps(hits: seq<nat>, ttlMs: nat, t: nat, m: nat, n: nat)
    requires hits != [] && t <= Current(hits, ttlMs).start + ttlMs
    requires Capped(hits, ttlMs, n) && Current(hits, ttlMs).count + m <= n
    ensures Capped(hits + Repeat(t, m), ttlMs, n)
    ensures Current(hits + Repeat(t, m), ttlMs) == Window(Current(hits, ttlMs).count + m, Current(hits, ttlMs).start)
    decreases m
  {
    RepeatHits(hits, ttlMs, t, m, t, t + 1);
    if m == 0 {
      assert hits + Repeat(t, 0) == hits;
    } else {
      RepeatKeeps(hits, ttlMs, t, m - 1, n);
      assert hits + Repeat(t, m) == (hits + Repeat(t, m - 1)) + [t];
      hide Current, Capped;
      CappedStep(hits + Repeat(t, m - 1), ttlMs, n, t);
    }
  }

  lemma CappedStep(hits: seq<nat>, ttlMs: nat, n: nat, t: nat)
    requires Capped(hits, ttlMs, n) && Current(hits + [t], ttlMs).count <= n
    ensures Capped(hits + [t], ttlMs, n)
  {
    hide Current;
    var more := hits + [t];
    assert more[..|more|] == more;
    assert forall i :: 0 <= i <= |hits| ==> more[..i] == hits[..i];
  }

  lemma LateKeeps(hits: seq<nat>, ttlMs: nat, t: nat, n: nat)
    requires Capped(hits, ttlMs, n) && n >= 1
    requires hits == [] || t > Current(hits, ttlMs).start + ttlMs
    ensures Capped(hits + [t], ttlMs, n) && Current(hits + [t], ttlMs) == Window(1, t)
  {
    LateHit(hits, ttlMs, t, t, t + 1);
    hide Current;
    CappedStep(hits, ttlMs, n, t);
  }

  lemma SortedRepeat(hits: seq<nat>, t: nat, m: nat)
    requires Sorted(hits) && (hits == [] || hits[|hits| - 1] <= t)
    ensures Sorted(hits + Repeat(t, m))
  {
  }

  /** k sends late in one window of each counter, of which the first is a second early, then m in the next windows. */
  ghost function Straddling(k: nat, m: nat): seq<nat>
    requires k >= 1 && m >= 1
  {
    ((Early(k)) + [DAY_MS + 1]) + Repeat(DAY_MS + 1, m - 1)
  }

  ghost function Early(k: nat): seq<nat>
    requires k >= 1
  {
    [0, DAY_MS - SECOND_MS] + Repeat(DAY_MS, k - 1)
  }

  lemma FirstTwo(ttlMs: nat, n: nat)
    requires (ttlMs == SECOND_MS && n >= 1) || (ttlMs == DAY_MS && n >= 2)
    ensures Capped([0, DAY_MS - SECOND_MS], ttlMs, n)
    ensures Current([0, DAY_MS - SECOND_MS], ttlMs) ==
            if ttlMs == SECOND_MS then Window(1, DAY_MS - SECOND_MS) else Window(2, 0)
  {
    var none: seq<nat>, zero: seq<nat> := [], [0];
    assert Capped(none, ttlMs, n);
    LateKeeps(none, ttlMs, 0, n);
    assert none + [0] == zero && zero + [DAY_MS - SECOND_MS] == [0, DAY_MS - SECOND_MS];
    if ttlMs == SECOND_MS {
      LateKeeps(zero, ttlMs, DAY_MS - SECOND_MS, n);
    } else {
      assert Repeat(DAY_MS - SECOND_MS, 1) == [DAY_MS - SECOND_MS];
      RepeatKeeps(zero, ttlMs, DAY_MS - SECOND_MS, 1, n);
    }
  }

  lemma StraddlingCapped(ttlMs: nat, n: nat, k: nat, m: nat)
    requires (ttlMs == SECOND_MS && n >= k) || (ttlMs == DAY_MS && n >= k + 1)
    requires k >= 1 && 1 <= m <= n
    ensures Capped(Straddling(k, m), ttlMs, n)
  {
    hide Capped, Current;
    FirstTwo(ttlMs, n);
    RepeatKeeps([0, DAY_MS - SECOND_MS], ttlMs, DAY_MS, k - 1, n);
    LateKeeps(Early(k), ttlMs, DAY_MS + 1, n);
    RepeatKeeps(Early(k) + [DAY_MS + 1], ttlMs, DAY_MS + 1, m - 1, n);
  }

  lemma {:induction false} WithinRepeat(hits: seq<nat>, t: nat, m: nat, lo: int, hi: int)
    requires lo <= t < hi
    ensures Within(hits + Repeat(t, m), lo, hi) == Within(hits, lo, hi) + m
    decreases m
  {
    if m == 0 {
      assert hits + Repeat(t, 0) == hits;
    } else {
      WithinRepeat(hits, t, m - 1, lo, hi);
      assert hits + Repeat(t, m) == (hits + Repeat(t, m - 1)) + [t];
      WithinAppend(hits + Repeat(t, m - 1), t, lo, hi);
    }
  }

  lemma StraddlingCounts(k: nat, m: nat)
    requires k >= 1 && m >= 1
    ensures Sorted(Straddling(k, m))
    ensures Within(Straddling(k, m), DAY_MS, DAY_MS + SECOND_MS) == k - 1 + m
  {
    var first: seq<nat> := [0, DAY_MS - SECOND_MS];
    SortedRepeat(first, DAY_MS, k - 1);
    SortedRepeat(Early(k) + [DAY_MS + 1], DAY_MS + 1, m - 1);
    WithinOutside(first, DAY_MS, DAY_MS + SECOND_MS);
    hide Within;
    WithinRepeat(first, DAY_MS, k - 1, DAY_MS, DAY_MS + SECOND_MS);
    WithinAppend(Early(k), DAY_MS + 1, DAY_MS, DAY_MS + SECOND_MS);
    WithinRepeat(Early(k) + [DAY_MS + 1], DAY_MS + 1, m - 1, DAY_MS, DAY_MS + SECOND_MS);
  }

  /** The plain reading for one exchange: no half-open second holds more than ordersPerSecond sends. */
  ghost predicate PlainReading(configs: map<string, Config>, exchange: string)
    requires exchange in configs
  {
    forall h, clock, a :: StaysPlain(configs, exchange, h, clock, a)
  }

  ghost predicate StaysPlain(configs: map<string, Config>, exchange: string, h: seq<Event>, clock: nat, a: int)
    requires exchange in configs
  {
    Reached(configs, exchange, h, clock) ==>
      Within(SendTimes(h, exchange), a, a + SECOND_MS) <= configs[exchange].ordersPerSecond
  }

  /**
   The plain reading holds for callers with discipline, exactly if one order a second is allowed, or so few a day
   that two days meeting in one second cannot exceed the limit of the second.
   */
  lemma PlainReadingHoldsIff(configs: map<string, Config>, exchange: string)
    requires exchange in configs && ValidConfig(configs[exchange])
    ensures PlainReading(configs, exchange) <==>
            var c := configs[exchange]; c.ordersPerSecond == 1 || 2 * c.ordersPerDay <= c.ordersPerSecond + 2
  {
    var c := configs[exchange];
    hide Within, SendTimes, Reached, Admissible;
    if c.ordersPerSecond == 1 || 2 * c.ordersPerDay <= c.ordersPerSecond + 2 {
      forall h, clock, a
        ensures StaysPlain(configs, exchange, h, clock, a)
      {
        if Reached(configs, exchange, h, clock) {
          ReachableIffAdmissible(configs, exchange, SendTimes(h, exchange));
          MostIsBound(c, SendTimes(h, exchange), a);
        }
      }
    } else {
      var sends := MostIsReached(c);
      ReachableIffAdmissible(configs, exchange, sends);
      var h, clock :| Reached(configs, exchange, h, clock) && SendTimes(h, exchange) == sends;
      assert !StaysPlain(configs, exchange, h, clock, DAY_MS);
    }
  }

  // ----- the most that a second can hold

  ghost function MostInASecond(c: Config): int {
    var n, d := c.ordersPerSecond, c.ordersPerDay;
    if n >= 2 * d - 1 then 2 * d - 1 else if n < d then 2 * n - 1 else 2 * d - 2
  }

  lemma MostIsBound(c: Config, sends: seq<nat>, a: int)
    requires Admissible(c, sends) && ValidConfig(c)
    ensures Within(sends, a, a + SECOND_MS) <= MostInASecond(c)
  {
    SecondBound(c, sends, a);
    hide Within, Capped;
    IntervalBound(sends, DAY_MS, c.ordersPerDay, a);
    WithinWider(sends, a, a, a + SECOND_MS, a + DAY_MS);
  }

  lemma LateRepeat(hits: seq<nat>, ttlMs: nat, t: nat, m: nat, n: nat)
    requires Capped(hits, ttlMs, n) && 1 <= m <= n && hits != [] && t > Current(hits, ttlMs).start + ttlMs
    ensures Capped(hits + Repeat(t, m), ttlMs, n) && Current(hits + Repeat(t, m), ttlMs) == Window(m, t)
  {
    hide Capped, Current;
    LateKeeps(hits, ttlMs, t, n);
    RepeatKeeps(hits + [t], ttlMs, t, m - 1, n);
    assert (hits + [t]) + Repeat(t, m - 1) == hits + Repeat(t, m);
  }

  /** Two days in one window of the second: d - 1 orders at the end of one, d at the start of the next. */
  ghost function TwoDays(d: nat): seq<nat>
    requires d >= 1
  {
    ([0] + Repeat(DAY_MS, d - 1)) + Repeat(DAY_MS + 1, d)
  }

  lemma OneHit(ttlMs: nat, n: nat)
    requires n >= 1
    ensures Capped([0], ttlMs, n) && Current([0], ttlMs) == Window(1, 0)
  {
    var none: seq<nat> := [];
    LateKeeps(none, ttlMs, 0, n);
    assert none + [0] == [0];
  }

  lemma TwoDaysAdmissible(c: Config)
    requires ValidConfig(c) && c.ordersPerSecond >= 2 * c.ordersPerDay - 1
    ensures Admissible(c, TwoDays(c.ordersPerDay))
    ensures Within(TwoDays(c.ordersPerDay), DAY_MS, DAY_MS + SECOND_MS) == 2 * c.ordersPerDay - 1
  {
    var n, d, zero: seq<nat> := c.ordersPerSecond, c.ordersPerDay, [0];
    WithinOutside(zero, DAY_MS, DAY_MS + SECOND_MS);
    hide Capped, Current, Within;
    OneHit(SECOND_MS, n);
    OneHit(DAY_MS, d);
    SortedRepeat(zero, DAY_MS, d - 1);
    SortedRepeat(zero + Repeat(DAY_MS, d - 1), DAY_MS + 1, d);
    WithinRepeat(zero, DAY_MS, d - 1, DAY_MS, DAY_MS + SECOND_MS);
    WithinRepeat(zero + Repeat(DAY_MS, d - 1), DAY_MS + 1, d, DAY_MS, DAY_MS + SECOND_MS);
    RepeatKeeps(zero, DAY_MS, DAY_MS, d - 1, d);
    LateRepeat(zero + Repeat(DAY_MS, d - 1), DAY_MS, DAY_MS + 1, d, d);
    if d == 1 {
      assert zero + Repeat(DAY_MS, 0) == zero;
      LateRepeat(zero, SECOND_MS, DAY_MS + 1, d, n);
    } else {
      LateRepeat(zero, SECOND_MS, DAY_MS, d - 1, n);
      RepeatKeeps(zero + Repeat(DAY_MS, d - 1), SECOND_MS, DAY_MS + 1, d, n);
    }
  }

  /** Admissible sends that fill a second to that number, from the day's expiry on. */
  lemma MostIsReached(c: Config) returns (sends: seq<nat>)
    requires ValidConfig(c)
    ensures Admissible(c, sends) && Within(sends, DAY_MS, DAY_MS + SECOND_MS) == MostInASecond(c)
  {
    hide Within, Capped, Straddling, TwoDays;
    var n, d := c.ordersPerSecond, c.ordersPerDay;
    if n >= 2 * d - 1 {
      sends := TwoDays(d);
      TwoDaysAdmissible(c);
    } else {
      var k, m := if n < d then n else d - 1, if n < d then n else d;
      sends := Straddling(k, m);
      StraddlingCapped(SECOND_MS, n, k, m);
      StraddlingCapped(DAY_MS, d, k, m);
      StraddlingCounts(k, m);
    }
  }

  // ----- the most that a day can hold

  const GAP_MS: nat := SECOND_MS + 1

  /** m sends from start on, each in a second window of its own. */
  ghost function Spaced(start: nat, m: nat): (ts: seq<nat>)
    ensures |ts| == m && forall i :: 0 <= i < m ==> ts[i] == start + GAP_MS * i
  {
    seq(m, i requires 0 <= i < m => start + GAP_MS * i)
  }

  lemma SpacedNext(hits: seq<nat>, start: nat, m: nat)
    requires m >= 1
    ensures hits + Spaced(start, m) == (hits + Spaced(start, m - 1)) + [start + GAP_MS * (m - 1)]
  {
  }

  lemma NothingSpaced(hits: seq<nat>, start: nat)
    ensures hits + Spaced(start, 0) == hits
  {
  }

  lemma {:induction false} SpacedBySeconds(hits: seq<nat>, start: nat, m: nat, n: nat)
    requires Capped(hits, SECOND_MS, n) && n >= 1 && hits != [] && start > Current(hits, SECOND_MS).start + SECOND_MS
    ensures Capped(hits + Spaced(start, m), SECOND_MS, n)
    ensures m >= 1 ==> Current(hits + Spaced(start, m), SECOND_MS) == Window(1, start + GAP_MS * (m - 1))
    decreases m
  {
    hide Capped, Current, Spaced;
    if m == 0 {
      NothingSpaced(hits, start);
    } else {
      SpacedBySeconds(hits, start, m - 1, n);
      SpacedNext(hits, start, m);
      if m == 1 {
        NothingSpaced(hits, start);
      }
      LateKeeps(hits + Spaced(start, m - 1), SECOND_MS, start + GAP_MS * (m - 1), n);
    }
  }

  lemma {:induction false} SpacedInADay(hits: seq<nat>, start: nat, m: nat, n: nat)
    requires Capped(hits, DAY_MS, n) && hits != [] && Current(hits, DAY_MS).count + m <= n
    requires m >= 1 ==> start + GAP_MS * (m - 1) <= Current(hits, DAY_MS).start + DAY_MS
    ensures Capped(hits + Spaced(start, m), DAY_MS, n)
    ensures Current(hits + Spaced(start, m), DAY_MS) ==
            Window(Current(hits, DAY_MS).count + m, Current(hits, DAY_MS).start)
    decreases m
  {
    hide Capped, Current, Spaced;
    if m == 0 {
      NothingSpaced(hits, start);
    } else {
      SpacedInADay(hits, start, m - 1, n);
      SpacedNext(hits, start, m);
      OneMoreInWindow(hits + Spaced(start, m - 1), DAY_MS, start + GAP_MS * (m - 1), n);
    }
  }

  lemma OneMoreInWindow(hits: seq<nat>, ttlMs: nat, t: nat, n: nat)
    requires hits != [] && t <= Current(hits, ttlMs).start + ttlMs
    requires Capped(hits, ttlMs, n) && Current(hits, ttlMs).count + 1 <= n
    ensures Capped(hits + [t], ttlMs, n)
    ensures Current(hits + [t], ttlMs) == Window(Current(hits, ttlMs).count + 1, Current(hits, ttlMs).start)
  {
    assert Repeat(t, 1) == [t];
    RepeatKeeps(hits, ttlMs, t, 1, n);
  }

  lemma {:induction false} SpacedWithin(hits: seq<nat>, start: nat, m: nat, lo: int, hi: int)
    requires lo <= start && (m >= 1 ==> start + GAP_MS * (m - 1) < hi)
    ensures Within(hits + Spaced(start, m), lo, hi) == Within(hits, lo, hi) + m
    decreases m
  {
    hide Within, Spaced;
    if m == 0 {
      NothingSpaced(hits, start);
    } else {
      SpacedWithin(hits, start, m - 1, lo, hi);
      SpacedNext(hits, start, m);
      WithinAppend(hits + Spaced(start, m - 1), start + GAP_MS * (m - 1), lo, hi);
    }
  }

  lemma SortedSpaced(hits: seq<nat>, start: nat, m: nat)
    requires Sorted(hits) && hits != [] && hits[|hits| - 1] <= start
    ensures var more := hits + Spaced(start, m);
            Sorted(more) && more[|more| - 1] <= start + GAP_MS * m
  {
  }

  lemma SortedAppend(hits: seq<nat>, t: nat)
    requires Sorted(hits) && hits != [] && hits[|hits| - 1] <= t
    ensures Sorted(hits + [t]) && (hits + [t])[|hits + [t]| - 1] == t
  {
  }

  /** One order early in a day, d - 1 at its end, and d at the start of the next. */
  ghost function TwoSpacedDays(d: nat): seq<nat>
    requires d >= 1 && 2 * GAP_MS * d <= DAY_MS
  {
    (([0] + Spaced(DAY_MS - GAP_MS * (d - 1), d - 1)) + [DAY_MS + 1]) + Spaced(DAY_MS + 1 + GAP_MS, d - 1)
  }

  lemma SpacedDaysBySeconds(n: nat, d: nat)
    requires n >= 1 && d >= 1 && 2 * GAP_MS * d <= DAY_MS
    ensures Capped(TwoSpacedDays(d), SECOND_MS, n)
  {
    hide Capped, Current, Spaced;
    var early: seq<nat> := [0] + Spaced(DAY_MS - GAP_MS * (d - 1), d - 1);
    OneHit(SECOND_MS, n);
    SpacedBySeconds([0], DAY_MS - GAP_MS * (d - 1), d - 1, n);
    if d == 1 {
      NothingSpaced([0], DAY_MS - GAP_MS * (d - 1));
    }
    LateKeeps(early, SECOND_MS, DAY_MS + 1, n);
    SpacedBySeconds(early + [DAY_MS + 1], DAY_MS + 1 + GAP_MS, d - 1, n);
  }

  lemma SpacedDaysByDays(d: nat)
    requires d >= 1 && 2 * GAP_MS * d <= DAY_MS
    ensures Capped(TwoSpacedDays(d), DAY_MS, d)
  {
    hide Capped, Current, Spaced;
    var early: seq<nat> := [0] + Spaced(DAY_MS - GAP_MS * (d - 1), d - 1);
    OneHit(DAY_MS, d);
    SpacedInADay([0], DAY_MS - GAP_MS * (d - 1), d - 1, d);
    LateKeeps(early, DAY_MS, DAY_MS + 1, d);
    SpacedInADay(early + [DAY_MS + 1], DAY_MS + 1 + GAP_MS, d - 1, d);
  }

  lemma SpacedDaysSorted(d: nat)
    requires d >= 1 && 2 * GAP_MS * d <= DAY_MS
    ensures Sorted(TwoSpacedDays(d))
  {
    var zero: seq<nat> := [0];
    assert Sorted(zero) && zero[|zero| - 1] == 0;
    hide Sorted, Spaced;
    SortedSpaced(zero, DAY_MS - GAP_MS * (d - 1), d - 1);
    var early := zero + Spaced(DAY_MS - GAP_MS * (d - 1), d - 1);
    SortedAppend(early, DAY_MS + 1);
    SortedSpaced(early + [DAY_MS + 1], DAY_MS + 1 + GAP_MS, d - 1);
  }

  lemma SpacedDaysCount(d: nat)
    requires d >= 1 && 2 * GAP_MS * d <= DAY_MS
    ensures var a := DAY_MS - GAP_MS * (d - 1);
            Within(TwoSpacedDays(d), a, a + DAY_MS) == 2 * d - 1
  {
    hide Within, Spaced;
    var a, zero: seq<nat> := DAY_MS - GAP_MS * (d - 1), [0];
    var early := zero + Spaced(a, d - 1);
    WithinOutside(zero, a, a + DAY_MS);
    SpacedWithin(zero, a, d - 1, a, a + DAY_MS);
    WithinAppend(early, DAY_MS + 1, a, a + DAY_MS);
    SpacedWithin(early + [DAY_MS + 1], DAY_MS + 1 + GAP_MS, d - 1, a, a + DAY_MS);
  }

  /** The bound of the day is met, whatever the limit of the second, while the orders of two days fit into one. */
  lemma DayBoundIsMet(c: Config) returns (sends: seq<nat>, a: int)
    requires ValidConfig(c) && 2 * GAP_MS * c.ordersPerDay <= DAY_MS
    ensures Admissible(c, sends) && Within(sends, a, a + DAY_MS) == 2 * c.ordersPerDay - 1
  {
    hide Within, Capped, TwoSpacedDays, Sorted;
    sends, a := TwoSpacedDays(c.ordersPerDay), DAY_MS - GAP_MS * (c.ordersPerDay - 1);
    SpacedDaysBySeconds(c.ordersPerSecond, c.ordersPerDay);
    SpacedDaysByDays(c.ordersPerDay);
    SpacedDaysSorted(c.ordersPerDay);
    SpacedDaysCount(c.ordersPerDay);
  }
}

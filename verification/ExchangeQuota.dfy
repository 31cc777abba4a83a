/** security/rate-limit/exchange.quota.adapter.ts: per-second and per-day order quotas of an exchange. */
module ExchangeQuota {
  import opened Basics
  import opened RealFacts
  import opened TtlStores
  import opened FixedWindow

  const SECONDS_IN_DAY: nat := 86400
  const SECOND_MS: nat := 1000
  const DAY_MS: nat := 86400000

  datatype Config = Config(ordersPerSecond: nat, ordersPerDay: nat, warningThresholdPercent: real)

  /** What the config schema demands. */
  predicate ValidConfig(c: Config) {
    c.ordersPerSecond > 0 && c.ordersPerDay > 0
  }

  datatype QuotaKey = PerSecond(exchange: string) | PerDay(exchange: string)

  datatype CheckResult =
    CheckResult(allowed: bool, secondsRemaining: nat, dailyRemaining: nat, warning: bool)

  datatype Error = NoConfig(exchange: string)

  /** One finished call: an answered canSendOrder or a recordOrderSent. */
  datatype Event = Checked(exchange: string, at: nat, allowed: bool) | Sent(exchange: string, at: nat)

  // ----- what a history of calls means

  /** When orders were recorded for the exchange, oldest first. */
  ghost function SendTimes(h: seq<Event>, exchange: string): seq<nat> {
    if h == [] then []
    else
      var e := h[|h| - 1];
      var before := SendTimes(h[..|h| - 1], exchange);
      if e.Sent? && e.exchange == exchange then before + [e.at] else before
  }

  ghost predicate InTimeOrder(h: seq<Event>, clock: nat) {
    && (forall i, j :: 0 <= i <= j < |h| ==> h[i].at <= h[j].at)
    && (forall i :: 0 <= i < |h| ==> h[i].at <= clock)
  }

  /** Both counters leave room for one more order. */
  ghost predicate HasRoom(c: Config, sends: seq<nat>, now: nat) {
    && CountAt(sends, SECOND_MS, now) < c.ordersPerSecond
    && CountAt(sends, DAY_MS, now) < c.ordersPerDay
  }

  /** Every check was answered by the orders recorded before it. */
  ghost predicate Truthful(h: seq<Event>, configs: map<string, Config>) {
    forall i :: 0 <= i < |h| && h[i].Checked? ==>
      && h[i].exchange in configs
      && h[i].allowed == HasRoom(configs[h[i].exchange], SendTimes(h[..i], h[i].exchange), h[i].at)
  }

  /** An allowed check of this exchange happened after its last order. */
  ghost predicate Cleared(h: seq<Event>, exchange: string) {
    h != [] &&
    var e := h[|h| - 1];
    if e.exchange == exchange
    then e.Checked? && (e.allowed || Cleared(h[..|h| - 1], exchange))
    else Cleared(h[..|h| - 1], exchange)
  }

  /** The callers' discipline: every send follows an allowed check. */
  ghost predicate Disciplined(h: seq<Event>) {
    forall i :: 0 <= i < |h| && h[i].Sent? ==> Cleared(h[..i], h[i].exchange)
  }

  /** Both counters of the exchange hold exactly what these sends make of them. */
  ghost predicate Counted(entries: map<QuotaKey, Entry<nat>>, exchange: string, sends: seq<nat>) {
    && Reflects(entries, PerSecond(exchange), sends, SECOND_MS)
    && Reflects(entries, PerDay(exchange), sends, DAY_MS)
  }

  // ----- the adapter

  class ExchangeQuotaAdapter {
    const configs: map<string, Config>
    const counters: TtlStore<QuotaKey, nat>
    ghost var history: seq<Event>
    ghost var clock: nat

    ghost predicate Valid()
      reads this, counters
    {
      && (forall id :: id in configs ==> ValidConfig(configs[id]))
      && InTimeOrder(history, clock)
      && Truthful(history, configs)
      && (forall id :: Counted(counters.entries, id, SendTimes(history, id)))
    }

    constructor (configs: map<string, Config>)
      requires forall id :: id in configs ==> ValidConfig(configs[id])
      ensures Valid() && this.configs == configs && history == [] && clock == 0 && fresh(counters)
    {
      this.configs := configs;
      counters := new TtlStore();
      history := [];
      clock := 0;
    }

    /** The number returned is the day count; a warning is logged when warned is set. */
    method RecordOrderSent(exchange: string, now: nat) returns (r: Result<(nat, bool), Error>)
      requires Valid() && clock <= now
      modifies this, counters
      ensures Valid() && clock == now
      ensures r.Err? <==> exchange !in configs
      ensures r.Err? ==> history == old(history)
      ensures r.Ok? ==> history == old(history) + [Sent(exchange, now)]
      ensures r.Ok? ==>
                && r.value.0 == CountAt(SendTimes(history, exchange), DAY_MS, now)
                && r.value.1 == (UsedPercent(r.value.0, configs[exchange].ordersPerDay)
                                 >= configs[exchange].warningThresholdPercent)
    {
      hide Truthful, InTimeOrder, SendTimes, CountAt, Current;
      ClockTicks(history, clock, now);
      clock := now;
      if exchange !in configs {
        return Err(NoConfig(exchange));
      }
      var config := configs[exchange];
      ghost var sends := SendTimes(history, exchange);
      ghost var was := counters.entries;
      assert Counted(was, exchange, sends);
      var secCount := Hit(counters, PerSecond(exchange), 1, now, sends);
      var dayCount := Hit(counters, PerDay(exchange), SECONDS_IN_DAY, now, sends);
      var usedPercent := UsedPercent(dayCount, config.ordersPerDay);
      Extend(Sent(exchange, now));
      forall id | id != exchange
        ensures Counted(counters.entries, id, SendTimes(history, id))
      {
        assert Counted(was, id, SendTimes(history, id));
      }
      LatestWindow(sends, DAY_MS, now);
      r := Ok((dayCount, usedPercent >= config.warningThresholdPercent));
    }

    method CanSendOrder(exchange: string, now: nat) returns (r: Result<CheckResult, Error>)
      requires Valid() && clock <= now
      modifies this
      ensures Valid() && clock == now
      ensures r.Err? <==> exchange !in configs
      ensures r.Err? ==> history == old(history)
      ensures r.Ok? ==> history == old(history) + [Checked(exchange, now, r.value.allowed)]
      ensures r.Ok? ==>
                var sends := SendTimes(old(history), exchange);
                var config := configs[exchange];
                && r.value.allowed == HasRoom(config, sends, now)
                && r.value.secondsRemaining == Room(config.ordersPerSecond, CountAt(sends, SECOND_MS, now))
                && r.value.dailyRemaining == Room(config.ordersPerDay, CountAt(sends, DAY_MS, now))
                && r.value.warning == (UsedPercent(CountAt(sends, DAY_MS, now), config.ordersPerDay)
                                       >= config.warningThresholdPercent)
    {
      hide Truthful, InTimeOrder, SendTimes, Current;
      ClockTicks(history, clock, now);
      clock := now;
      if exchange !in configs {
        return Err(NoConfig(exchange));
      }
      var config := configs[exchange];
      ghost var sends := SendTimes(history, exchange);
      assert Counted(counters.entries, exchange, sends);
      var secRaw := counters.Get(PerSecond(exchange), now);
      var dayRaw := counters.Get(PerDay(exchange), now);
      var secCount := if secRaw.Some? then secRaw.value else 0;
      var dayCount := if dayRaw.Some? then dayRaw.value else 0;
      var secondsRemaining := Room(config.ordersPerSecond, secCount);
      var dailyRemaining := Room(config.ordersPerDay, dayCount);
      var allowed := secondsRemaining > 0 && dailyRemaining > 0;
      var usedPercent := UsedPercent(dayCount, config.ordersPerDay);
      Extend(Checked(exchange, now, allowed));
      r := Ok(CheckResult(allowed, secondsRemaining, dailyRemaining,
                          usedPercent >= config.warningThresholdPercent));
    }

    /** Notes a finished call in the history. */
    ghost method Extend(e: Event)
      requires e.at == clock && InTimeOrder(history, clock) && Truthful(history, configs)
      requires e.Checked? ==>
                 && e.exchange in configs
                 && e.allowed == HasRoom(configs[e.exchange], SendTimes(history, e.exchange), e.at)
      modifies `history
      ensures history == old(history) + [e]
      ensures InTimeOrder(history, clock) && Truthful(history, configs)
      ensures forall id :: SendTimes(history, id) == if e.Sent? && e.exchange == id
                                                     then SendTimes(old(history), id) + [e.at]
                                                     else SendTimes(old(history), id)
    {
      hide SendTimes, HasRoom, Truthful, InTimeOrder;
      TruthfulAppend(configs, history, e);
      InOrderAppend(history, clock, e);
      forall id
        ensures SendTimes(history + [e], id) ==
                if e.Sent? && e.exchange == id then SendTimes(history, id) + [e.at] else SendTimes(history, id)
      {
        SendTimesAppend(history, e, id);
      }
      history := history + [e];
    }
  }

  lemma TruthfulAppend(configs: map<string, Config>, h: seq<Event>, e: Event)
    requires Truthful(h, configs)
    requires e.Checked? ==>
               e.exchange in configs && e.allowed == HasRoom(configs[e.exchange], SendTimes(h, e.exchange), e.at)
    ensures Truthful(h + [e], configs)
  {
    hide SendTimes, HasRoom;
    var more := h + [e];
    forall i | 0 <= i < |more| && more[i].Checked?
      ensures more[i].exchange in configs
      ensures more[i].allowed ==
              HasRoom(configs[more[i].exchange], SendTimes(more[..i], more[i].exchange), more[i].at)
    {
      assert more[..i] == h[..i] && (i == |h| ==> h[..i] == h);
    }
  }

  lemma InOrderAppend(h: seq<Event>, clock: nat, e: Event)
    requires InTimeOrder(h, clock) && clock <= e.at
    ensures InTimeOrder(h + [e], e.at)
  {
  }

  lemma SendTimesAppend(h: seq<Event>, e: Event, exchange: string)
    ensures SendTimes(h + [e], exchange) ==
            if e.Sent? && e.exchange == exchange then SendTimes(h, exchange) + [e.at] else SendTimes(h, exchange)
  {
    assert (h + [e])[..|h|] == h;
  }

  function UsedPercent(count: nat, limit: nat): real
    requires limit > 0
  {
    count as real / limit as real * 100.0
  }

  /** The warning in figures: at least that percentage of the limit is used. */
  lemma UsedInFigures(count: nat, limit: nat, thresholdPercent: real)
    requires limit > 0
    ensures UsedPercent(count, limit) >= thresholdPercent <==> 100.0 * count as real >= thresholdPercent * limit as real
  {
    var c, l, q := count as real, limit as real, count as real / limit as real;
    QuotientTimes(c, l);
    Associate(q, 100.0, l);
    Associate(q, l, 100.0);
    var used := UsedPercent(count, limit);
    assert used * l == 100.0 * c;
    hide UsedPercent;
    if used >= thresholdPercent {
      ProductMonotone(thresholdPercent, used, l);
    } else {
      ProductStrict(used, thresholdPercent, l);
    }
  }

  /** Math.max(0, limit - count). */
  function Room(limit: nat, count: nat): (r: nat)
    ensures if count <= limit then r + count == limit else r == 0
  {
    if count < limit then limit - count else 0
  }

  lemma ClockTicks(h: seq<Event>, clock: nat, now: nat)
    requires InTimeOrder(h, clock) && clock <= now
    ensures InTimeOrder(h, now)
  {
  }

  lemma LatestWindow(hits: seq<nat>, ttlMs: nat, now: nat)
    ensures CountAt(hits + [now], ttlMs, now) == Current(hits + [now], ttlMs).count
  {
    assert (hits + [now])[..|hits|] == hits;
  }

  // ----- the guarantee

  lemma {:induction false} SendTimesInOrder(h: seq<Event>, clock: nat, exchange: string)
    requires InTimeOrder(h, clock)
    ensures Sorted(SendTimes(h, exchange))
    ensures forall i :: 0 <= i < |SendTimes(h, exchange)| ==>
              h != [] && SendTimes(h, exchange)[i] <= h[|h| - 1].at
  {
    if h != [] {
      SendTimesInOrder(h[..|h| - 1], clock, exchange);
    }
  }

  /** A cleared exchange had room, with the same orders on record, at some time t not after the last event. */
  lemma {:induction false} ClearedHasRoom(h: seq<Event>, configs: map<string, Config>, clock: nat, exchange: string)
    returns (t: nat)
    requires InTimeOrder(h, clock) && Truthful(h, configs) && Cleared(h, exchange)
    ensures exchange in configs && t <= h[|h| - 1].at
    ensures HasRoom(configs[exchange], SendTimes(h, exchange), t)
  {
    var front, e := h[..|h| - 1], h[|h| - 1];
    if e.exchange == exchange && e.allowed {
      t := e.at;
    } else {
      assert forall i :: 0 <= i < |front| ==> front[..i] == h[..i];
      t := ClearedHasRoom(front, configs, clock, exchange);
    }
  }

  lemma {:induction false} SendsAreCapped(h: seq<Event>, configs: map<string, Config>, clock: nat, exchange: string)
    requires InTimeOrder(h, clock) && Truthful(h, configs) && Disciplined(h)
    requires exchange in configs
    ensures Capped(SendTimes(h, exchange), SECOND_MS, configs[exchange].ordersPerSecond)
    ensures Capped(SendTimes(h, exchange), DAY_MS, configs[exchange].ordersPerDay)
  {
    if h != [] {
      var front, e := h[..|h| - 1], h[|h| - 1];
      var before := SendTimes(front, exchange);
      assert forall i :: 0 <= i < |front| ==> front[..i] == h[..i];
      SendsAreCapped(front, configs, clock, exchange);
      if e.Sent? && e.exchange == exchange {
        var t := ClearedHasRoom(front, configs, clock, exchange);
        CappedAppend(before, SECOND_MS, configs[exchange].ordersPerSecond, t, e.at);
        CappedAppend(before, DAY_MS, configs[exchange].ordersPerDay, t, e.at);
      }
    }
  }

  /**
   For callers that send only after an allowed check, no half-open second holds more than
   2 * ordersPerSecond - 1 orders and no half-open day more than 2 * ordersPerDay - 1.
   */
  lemma SendRateBound(h: seq<Event>, configs: map<string, Config>, clock: nat, exchange: string, a: int)
    requires InTimeOrder(h, clock) && Truthful(h, configs) && Disciplined(h)
    requires exchange in configs && ValidConfig(configs[exchange])
    ensures Within(SendTimes(h, exchange), a, a + 1000) <= 2 * configs[exchange].ordersPerSecond - 1
    ensures Within(SendTimes(h, exchange), a, a + 86400000) <= 2 * configs[exchange].ordersPerDay - 1
  {
    assert SECOND_MS == 1000 && DAY_MS == 86400000;
    hide *;
    PositiveLimits(configs[exchange]);
    SendTimesInOrder(h, clock, exchange);
    SendsAreCapped(h, configs, clock, exchange);
    IntervalBound(SendTimes(h, exchange), SECOND_MS, configs[exchange].ordersPerSecond, a);
    IntervalBound(SendTimes(h, exchange), DAY_MS, configs[exchange].ordersPerDay, a);
  }

  lemma PositiveLimits(c: Config)
    requires ValidConfig(c)
    ensures c.ordersPerSecond >= 1 && c.ordersPerDay >= 1
  {
  }
}

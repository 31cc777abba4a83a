/** security/compliance/wash.trade.detector.ts: refuses an order that mirrors a recent one of the same user. */
module WashTrades {
  import opened Basics
  import opened ColonKeys
  import opened RealFacts
  import opened TtlStores

  const KEY_PREFIX := "wash:orders:"
  const QUANTITY_TOLERANCE := 0.1

  datatype Side = BUY | SELL

  datatype Order = Order(clientOrderId: string, instrument: string, side: Side, quantity: real)

  datatype StoredOrder = StoredOrder(order: Order, timestamp: nat)

  datatype Error = WashTrade(relatedOrderId: string)

  /** One accepted order and whose it is. */
  datatype Accepted = Accepted(userId: string, stored: StoredOrder)

  function OrderListKey(userId: string, instrument: string): string {
    KEY_PREFIX + Joined(userId, instrument)
  }

  function Opposite(side: Side): Side {
    if side == BUY then SELL else BUY
  }

  /** The quantities differ by at most 10% of their average; without a positive average they count as equal. */
  predicate Similar(a: real, b: real) {
    var avg := (a + b) / 2.0;
    (if avg > 0.0 then Abs(a - b) / avg else 0.0) <= QUANTITY_TOLERANCE
  }

  /** The stored order makes the new one a wash trade at time now. */
  predicate Mirrors(s: StoredOrder, order: Order, now: nat, windowMs: nat) {
    now - s.timestamp <= windowMs && s.order.side == Opposite(order.side) && Similar(s.order.quantity, order.quantity)
  }

  ghost predicate NoMirror(log: seq<StoredOrder>, order: Order, now: nat, windowMs: nat) {
    forall i :: 0 <= i < |log| ==> !Mirrors(log[i], order, now, windowMs)
  }

  /** The first mirror in a list kept newest first. */
  ghost predicate NewestMirror(log: seq<StoredOrder>, i: nat, order: Order, now: nat, windowMs: nat) {
    && i < |log|
    && Mirrors(log[i], order, now, windowMs)
    && forall j :: 0 <= j < i ==> !Mirrors(log[j], order, now, windowMs)
  }

  /** Similar in figures: with a positive total the quantities differ by at most a twentieth of it; otherwise always. */
  lemma SimilarInFigures(a: real, b: real)
    ensures a + b > 0.0 ==> (Similar(a, b) <==> 20.0 * (if a > b then a - b else b - a) <= a + b)
    ensures a + b <= 0.0 ==> Similar(a, b)
  {
    var avg, d := (a + b) / 2.0, Abs(a - b);
    if avg > 0.0 {
      QuotientTimes(d, avg);
      var q := d / avg;
      if q <= 0.1 {
        ProductMonotone(q, 0.1, avg);
      } else {
        ProductStrict(0.1, q, avg);
      }
    }
  }

  /** A mirror is an order of the other side, at most windowMs old, and similar. */
  lemma MirrorsInFigures(s: StoredOrder, order: Order, now: nat, windowMs: nat)
    ensures Mirrors(s, order, now, windowMs) <==>
            && now <= s.timestamp + windowMs && s.order.side != order.side
            && Similar(s.order.quantity, order.quantity)
  {
    hide Similar;
  }

  // ----- what the accepted orders mean

  /** The accepted orders filed under a list key, newest first. */
  ghost function LogFor(accepted: seq<Accepted>, key: string): seq<StoredOrder> {
    if accepted == [] then []
    else
      var a := accepted[|accepted| - 1];
      var before := LogFor(accepted[..|accepted| - 1], key);
      if OrderListKey(a.userId, a.stored.order.instrument) == key then [a.stored] + before else before
  }

  ghost predicate InTimeOrder(accepted: seq<Accepted>, clock: nat) {
    && (forall i, j :: 0 <= i <= j < |accepted| ==> accepted[i].stored.timestamp <= accepted[j].stored.timestamp)
    && (forall i :: 0 <= i < |accepted| ==> accepted[i].stored.timestamp <= clock)
  }

  /**
   The stored list is the newest part of the log; what it lost in an expiry had left the window by
   then, since the list outlives its newest order by at least the window.
   */
  ghost predicate Lists(entries: map<string, Entry<seq<StoredOrder>>>, key: string, log: seq<StoredOrder>,
                        windowMs: nat, clock: nat) {
    if log == [] then
      key !in entries
    else
      && key in entries
      && entries[key].value <= log
      && entries[key].expiresAt == Some(log[0].timestamp + 1000 * CeilSeconds(windowMs))
      && (forall i :: 0 <= i < |log| ==> log[i].timestamp <= log[0].timestamp)
      && (forall i :: |entries[key].value| <= i < |log| ==> log[i].timestamp + windowMs < clock)
  }

  /**
   No two accepted orders of one user on one instrument, on opposite sides and at most windowMs apart, are similar.
   */
  ghost predicate NoWashTrades(accepted: seq<Accepted>, windowMs: nat) {
    forall i, j :: 0 <= i < j < |accepted| ==> !WashPair(accepted[i], accepted[j], windowMs)
  }

  ghost predicate WashPair(a: Accepted, b: Accepted, windowMs: nat) {
    && a.userId == b.userId
    && a.stored.order.instrument == b.stored.order.instrument
    && a.stored.order.side != b.stored.order.side
    && b.stored.timestamp - a.stored.timestamp <= windowMs
    && Similar(a.stored.order.quantity, b.stored.order.quantity)
  }

  // ----- the detector

  class WashTradeDetector {
    const windowMs: nat
    const lists: TtlStore<string, seq<StoredOrder>>
    ghost var accepted: seq<Accepted>
    ghost var clock: nat

    ghost predicate Valid()
      reads this, lists
    {
      && windowMs > 0
      && InTimeOrder(accepted, clock)
      && NoWashTrades(accepted, windowMs)
      && (forall key :: Lists(lists.entries, key, LogFor(accepted, key), windowMs, clock))
    }

    constructor (windowMs: nat)
      requires windowMs > 0
      ensures Valid() && this.windowMs == windowMs && accepted == [] && clock == 0 && fresh(lists)
    {
      this.windowMs := windowMs;
      lists := new TtlStore();
      accepted := [];
      clock := 0;
    }

    /**
     Refuses the order exactly when an accepted order under the same key mirrors it, and then names
     the newest such order; otherwise files it. Valid says that no wash trade is ever accepted.
     */
    method Check(order: Order, userId: string, now: nat) returns (r: Result<(), Error>)
      requires Valid() && clock <= now
      modifies this, lists
      ensures Valid() && clock == now
      ensures var log := LogFor(old(accepted), OrderListKey(userId, order.instrument));
              && (r.Ok? <==> NoMirror(log, order, now, windowMs))
              && (r.Err? ==> exists i: nat :: NewestMirror(log, i, order, now, windowMs)
                                         && r.error == WashTrade(log[i].order.clientOrderId))
      ensures r.Err? ==> accepted == old(accepted)
      ensures r.Ok? ==> accepted == old(accepted) + [Accepted(userId, StoredOrder(order, now))]
    {
      hide NoWashTrades, InTimeOrder, LogFor, OrderListKey, Similar;
      ClockTicks(accepted, clock, now);
      var key := OrderListKey(userId, order.instrument);
      ghost var log := LogFor(accepted, key);
      assert Lists(lists.entries, key, log, windowMs, clock);
      clock := now;
      var raw := lists.Get(key, now);
      var rawOrders := if raw.Some? then raw.value else [];
      NothingMissed(lists.entries, key, log, windowMs, old(clock), order, now);
      var hit := FindMirror(rawOrders, order, now);
      if hit.Some? {
        assert forall j :: 0 <= j <= hit.value ==> log[j] == rawOrders[j];
        assert NewestMirror(log, hit.value, order, now, windowMs) && !NoMirror(log, order, now, windowMs);
        ListsLater(lists.entries, accepted, windowMs, old(clock), now);
        return Err(WashTrade(rawOrders[hit.value].order.clientOrderId));
      }
      ghost var a := Accepted(userId, StoredOrder(order, now));
      PushFront(lists, key, StoredOrder(order, now), now);
      lists.Expire(key, CeilSeconds(windowMs), now);
      assert lists.entries == Filed(old(lists.entries), key, a.stored, windowMs);
      ListsGrow(old(lists.entries), accepted, windowMs, old(clock), a);
      AcceptedStaysClean(accepted, windowMs, a);
      accepted := accepted + [a];
      r := Ok(());
    }

    /** The scan of the fetched list, newest first, stopping at the first mirror. */
    method FindMirror(rawOrders: seq<StoredOrder>, order: Order, now: nat) returns (hit: Option<nat>)
      ensures hit.Some? ==>
                && hit.value < |rawOrders|
                && Mirrors(rawOrders[hit.value], order, now, windowMs)
                && forall j :: 0 <= j < hit.value ==> !Mirrors(rawOrders[j], order, now, windowMs)
      ensures hit.None? ==> forall j :: 0 <= j < |rawOrders| ==> !Mirrors(rawOrders[j], order, now, windowMs)
    {
      for i := 0 to |rawOrders|
        invariant forall j :: 0 <= j < i ==> !Mirrors(rawOrders[j], order, now, windowMs)
      {
        var stored := rawOrders[i];
        if now - stored.timestamp > windowMs {
          continue;
        }
        if stored.order.side == Opposite(order.side) {
          var diff := Abs(stored.order.quantity - order.quantity);
          var avg := (stored.order.quantity + order.quantity) / 2.0;
          var ratio := if avg > 0.0 then diff / avg else 0.0;
          if ratio <= QUANTITY_TOLERANCE {
            return Some(i);
          }
        }
      }
      return None;
    }
  }

  lemma ClockTicks(accepted: seq<Accepted>, clock: nat, now: nat)
    requires InTimeOrder(accepted, clock) && clock <= now
    ensures InTimeOrder(accepted, now)
    ensures forall a: Accepted :: a.stored.timestamp == now ==> InTimeOrder(accepted + [a], now)
  {
  }

  /** The list key's entry after filing s: in front of what is live, under a new expiry. */
  ghost function Filed(entries: map<string, Entry<seq<StoredOrder>>>, key: string, s: StoredOrder, windowMs: nat)
    : map<string, Entry<seq<StoredOrder>>>
  {
    var live := LookupIn(entries, key, s.timestamp);
    entries[key := Entry(if live.Some? then [s] + live.value else [s],
                         Some(s.timestamp + 1000 * CeilSeconds(windowMs)))]
  }

  /** Orders missing from the live list have left the window, so the scan misses no mirror. */
  lemma NothingMissed(entries: map<string, Entry<seq<StoredOrder>>>, key: string, log: seq<StoredOrder>, windowMs: nat,
                      clock: nat, order: Order, now: nat)
    requires Lists(entries, key, log, windowMs, clock) && clock <= now
    ensures var live := LookupIn(entries, key, now);
            forall i :: 0 <= i < |log| && Mirrors(log[i], order, now, windowMs) ==> live.Some? && i < |live.value|
  {
  }

  lemma ListsLater(entries: map<string, Entry<seq<StoredOrder>>>, accepted: seq<Accepted>, windowMs: nat, clock: nat,
                   now: nat)
    requires forall key :: Lists(entries, key, LogFor(accepted, key), windowMs, clock)
    requires clock <= now
    ensures forall key :: Lists(entries, key, LogFor(accepted, key), windowMs, now)
  {
    forall key
      ensures Lists(entries, key, LogFor(accepted, key), windowMs, now)
    {
      assert Lists(entries, key, LogFor(accepted, key), windowMs, clock);
    }
  }

  lemma ListsGrow(entries: map<string, Entry<seq<StoredOrder>>>, accepted: seq<Accepted>, windowMs: nat, clock: nat,
                  a: Accepted)
    requires forall key :: Lists(entries, key, LogFor(accepted, key), windowMs, clock)
    requires clock <= a.stored.timestamp && InTimeOrder(accepted, clock)
    ensures var key := OrderListKey(a.userId, a.stored.order.instrument);
            forall k :: Lists(Filed(entries, key, a.stored, windowMs), k, LogFor(accepted + [a], k), windowMs,
                a.stored.timestamp)
  {
    var key := OrderListKey(a.userId, a.stored.order.instrument);
    assert (accepted + [a])[..|accepted|] == accepted;
    forall k
      ensures Lists(Filed(entries, key, a.stored, windowMs), k, LogFor(accepted + [a], k), windowMs, a.stored.timestamp)
    {
      assert Lists(entries, k, LogFor(accepted, k), windowMs, clock);
      LogTimes(accepted, clock, k);
    }
  }

  lemma {:induction false} LogTimes(accepted: seq<Accepted>, clock: nat, key: string)
    requires InTimeOrder(accepted, clock)
    ensures forall i :: 0 <= i < |LogFor(accepted, key)| ==> LogFor(accepted, key)[i].timestamp <= clock
  {
    if accepted != [] {
      LogTimes(accepted[..|accepted| - 1], clock, key);
    }
  }

  lemma {:induction false} LoggedUnderItsKey(accepted: seq<Accepted>, i: nat)
    requires i < |accepted|
    ensures var key := OrderListKey(accepted[i].userId, accepted[i].stored.order.instrument);
            accepted[i].stored in LogFor(accepted, key)
  {
    if i < |accepted| - 1 {
      LoggedUnderItsKey(accepted[..|accepted| - 1], i);
    }
  }

  lemma AcceptedStaysClean(accepted: seq<Accepted>, windowMs: nat, a: Accepted)
    requires NoWashTrades(accepted, windowMs)
    requires NoMirror(LogFor(accepted, OrderListKey(a.userId, a.stored.order.instrument)), a.stored.order,
              a.stored.timestamp, windowMs)
    ensures NoWashTrades(accepted + [a], windowMs)
  {
    forall i | 0 <= i < |accepted|
      ensures !WashPair(accepted[i], a, windowMs)
    {
      LoggedUnderItsKey(accepted, i);
    }
  }

  // ----- list keys

  lemma KeysAreJoined(u: string, i: string, v: string, j: string)
    ensures OrderListKey(u, i) == OrderListKey(v, j) <==> Joined(u, i) == Joined(v, j)
  {
    assert OrderListKey(u, i)[|KEY_PREFIX|..] == Joined(u, i);
    assert OrderListKey(v, j)[|KEY_PREFIX|..] == Joined(v, j);
  }

  /**
   Two users can share a list, so that orders of one block the other, exactly if one id goes on after the other and a
   colon.
   */
  lemma UsersShareAListIff(u: string, v: string)
    requires u != v
    ensures (exists i, j :: OrderListKey(u, i) == OrderListKey(v, j)) <==> u + ":" <= v || v + ":" <= u
  {
    JoinedMeetIff(u, v);
    assert Meet(u, v) <==> u + ":" <= v || v + ":" <= u;
    hide OrderListKey, Joined, Meet;
    if i, j :| OrderListKey(u, i) == OrderListKey(v, j) {
      KeysAreJoined(u, i, v, j);
    }
    if i, j :| Joined(u, i) == Joined(v, j) {
      KeysAreJoined(u, i, v, j);
    }
  }

  /** Where two users share a list, an accepted order of one makes Check refuse a mirrored order of the other. */
  method RefuseAnothersMirror(u: string, first: Order, at: nat, v: string, second: Order, now: nat, windowMs: nat)
    returns (accepted: Result<(), Error>, refused: Result<(), Error>)
    requires windowMs > 0 && at <= now
    requires OrderListKey(u, first.instrument) == OrderListKey(v, second.instrument)
    requires Mirrors(StoredOrder(first, at), second, now, windowMs)
    ensures accepted.Ok? && refused == Err(WashTrade(first.clientOrderId))
  {
    hide OrderListKey, Mirrors, WashTradeDetector.Valid;
    OneLogged(u, StoredOrder(first, at));
    var detector := new WashTradeDetector(windowMs);
    accepted := detector.Check(first, u, at);
    assert detector.accepted == [Accepted(u, StoredOrder(first, at))];
    ghost var log := LogFor(detector.accepted, OrderListKey(v, second.instrument));
    assert log == [StoredOrder(first, at)] && Mirrors(log[0], second, now, windowMs);
    refused := detector.Check(second, v, now);
    assert !NoMirror(log, second, now, windowMs);
    ghost var i: nat :|
      NewestMirror(log, i, second, now, windowMs) && refused.error == WashTrade(log[i].order.clientOrderId);
    assert i == 0;
  }

  lemma OneLogged(u: string, stored: StoredOrder)
    ensures LogFor([], OrderListKey(u, stored.order.instrument)) == []
    ensures LogFor([Accepted(u, stored)], OrderListKey(u, stored.order.instrument)) == [stored]
  {
    assert [Accepted(u, stored)][..0] == [];
  }

  /** Such users exist. */
  lemma KeysCanCollide()
    ensures OrderListKey("a", "b:c") == OrderListKey("a:b", "c")
  {
  }

  /** User ids without a colon keep the lists of different users and instruments apart. */
  lemma ColonFreeUsersNeverCollide(u: string, v: string, i: string, j: string)
    requires ':' !in u && ':' !in v
    ensures OrderListKey(u, i) == OrderListKey(v, j) <==> u == v && i == j
  {
    ColonFreeApart(u, v);
    KeysAreJoined(u, i, v, j);
    JoinedApart(u, i, v, j);
  }
}

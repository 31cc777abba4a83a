/** security/risk/loss.monitor.ts: the high watermark and drawdown of each user's portfolio. */
module LossMonitors {
  import opened Basics
  import opened RealFacts
  import opened TtlStores
  import opened KillSwitches

  /** A user's portfolio values since the watermark was last cleared, oldest first. */
  type Values = map<string, seq<real>>

  ghost function ValuesOf(values: Values, userId: string): seq<real> {
    if userId in values then values[userId] else []
  }

  ghost function Largest(xs: seq<real>): (m: real)
    requires xs != []
    ensures m in xs && forall x :: x in xs ==> x <= m
  {
    var last := xs[|xs| - 1];
    if |xs| == 1 then last
    else
      var m := Largest(xs[..|xs| - 1]);
      assert forall x :: x in xs ==> x == last || x in xs[..|xs| - 1];
      if last > m then last else m
  }

  function DrawdownPercent(highWatermark: real, currentValue: real): real {
    if highWatermark > 0.0 then (highWatermark - currentValue) / highWatermark * 100.0 else 0.0
  }

  /** How far the latest value lies below the largest one. */
  ghost function Drawdown(xs: seq<real>): real {
    if xs == [] then 0.0 else DrawdownPercent(Largest(xs), xs[|xs| - 1])
  }

  /** The three branches of an update. */
  lemma {:induction false} OneMoreValue(xs: seq<real>, x: real)
    ensures xs == [] || x > Largest(xs) ==> Largest(xs + [x]) == x && Drawdown(xs + [x]) == 0.0
    ensures xs != [] && x <= Largest(xs) ==>
              Largest(xs + [x]) == Largest(xs) && Drawdown(xs + [x]) == DrawdownPercent(Largest(xs), x)
  {
    assert (xs + [x])[..|xs|] == xs;
    assert DrawdownPercent(x, x) == 0.0;
  }

  /** When an update triggers the kill switch: never on a first value or a new high, whatever the threshold. */
  ghost predicate Breaches(thresholdPercent: real, before: seq<real>, x: real) {
    before != [] && x <= Largest(before) && Drawdown(before + [x]) >= thresholdPercent
  }

  /** With a positive threshold that is exactly when the drawdown left behind reaches it. */
  lemma PositiveThresholdBreaches(thresholdPercent: real, before: seq<real>, x: real)
    requires thresholdPercent > 0.0
    ensures Breaches(thresholdPercent, before, x) <==> Drawdown(before + [x]) >= thresholdPercent
  {
    OneMoreValue(before, x);
  }

  lemma DrawdownIs(peak: real, x: real)
    requires peak > 0.0
    ensures DrawdownPercent(peak, x) * peak == 100.0 * (peak - x)
  {
    QuotientTimes(peak - x, peak);
    Associate((peak - x) / peak, 100.0, peak);
    Associate((peak - x) / peak, peak, 100.0);
  }

  lemma AtLeast(d: real, p: real, t: real)
    requires p > 0.0
    ensures d >= t <==> d * p >= t * p
  {
    if d >= t {
      ProductMonotone(t, d, p);
    } else {
      ProductStrict(d, t, p);
    }
  }

  /** What is missing of a positive peak, in percent of it, is at least t. */
  ghost predicate MissingAtLeast(peak: real, x: real, t: real) {
    100.0 * (peak - x) >= t * peak
  }

  lemma PercentInFigures(peak: real, x: real, t: real)
    ensures peak > 0.0 ==> (DrawdownPercent(peak, x) >= t <==> MissingAtLeast(peak, x, t))
    ensures peak <= 0.0 ==> DrawdownPercent(peak, x) == 0.0
  {
    if peak > 0.0 {
      DrawdownIs(peak, x);
      var d := DrawdownPercent(peak, x);
      hide DrawdownPercent;
      AtLeast(d, peak, t);
    }
  }

  lemma DrawdownOf(xs: seq<real>)
    requires xs != []
    ensures Drawdown(xs) == DrawdownPercent(Largest(xs), xs[|xs| - 1])
  {
  }

  /** The drawdown in figures: what is missing of the largest value, in percent of it; 0 if that is not positive. */
  lemma DrawdownInFigures(xs: seq<real>, t: real)
    requires xs != []
    ensures Largest(xs) > 0.0 ==> (Drawdown(xs) >= t <==> MissingAtLeast(Largest(xs), xs[|xs| - 1], t))
    ensures Largest(xs) <= 0.0 ==> Drawdown(xs) == 0.0
  {
    hide *;
    DrawdownOf(xs);
    PercentInFigures(Largest(xs), xs[|xs| - 1], t);
  }

  lemma BreachesIs(thresholdPercent: real, before: seq<real>, x: real)
    requires before != [] && x <= Largest(before)
    ensures Breaches(thresholdPercent, before, x) <==> Drawdown(before + [x]) >= thresholdPercent
  {
  }

  /** An update at or below a positive peak halts exactly if what is missing of it is at least threshold percent. */
  lemma BreachInFigures(thresholdPercent: real, before: seq<real>, x: real)
    requires before != [] && x <= Largest(before) && Largest(before) > 0.0
    ensures Breaches(thresholdPercent, before, x) <==> MissingAtLeast(Largest(before), x, thresholdPercent)
  {
    hide *;
    OneMoreValue(before, x);
    DrawdownInFigures(before + [x], thresholdPercent);
    BreachesIs(thresholdPercent, before, x);
  }

  /** The stored keys of one user: both absent, or the largest value and the drawdown of the latest one. */
  ghost predicate Records(watermarks: map<string, Entry<real>>, drawdowns: map<string, Entry<real>>, userId: string,
                          xs: seq<real>) {
    if xs == [] then
      userId !in watermarks && userId !in drawdowns
    else
      && userId in watermarks && watermarks[userId] == Entry(Largest(xs), None)
      && userId in drawdowns && drawdowns[userId] == Entry(Drawdown(xs), None)
  }

  ghost predicate AllRecorded(watermarks: map<string, Entry<real>>, drawdowns: map<string, Entry<real>>,
                              values: Values) {
    forall u :: Records(watermarks, drawdowns, u, ValuesOf(values, u))
  }

  class LossMonitor {
    const thresholdPercent: real
    const killSwitch: KillSwitch
    const watermarks: TtlStore<string, real>
    const drawdowns: TtlStore<string, real>
    ghost var values: Values

    ghost predicate Valid()
      reads this, watermarks, drawdowns
    {
      && watermarks != drawdowns
      && AllRecorded(watermarks.entries, drawdowns.entries, values)
    }

    constructor (thresholdPercent: real, killSwitch: KillSwitch)
      ensures Valid() && values == map[] && this.thresholdPercent == thresholdPercent && this.killSwitch == killSwitch
      ensures fresh(watermarks) && fresh(drawdowns)
    {
      this.thresholdPercent := thresholdPercent;
      this.killSwitch := killSwitch;
      watermarks := new TtlStore();
      drawdowns := new TtlStore();
      values := map[];
    }

    /** Halts the user when the new value breaches the threshold. */
    method Update(totalNotional: real, totalUnrealizedPnl: real, userId: string, now: nat)
      requires Valid() && killSwitch.Valid()
      modifies this, watermarks, drawdowns, killSwitch.store
      ensures Valid() && killSwitch.Valid()
      ensures values == old(values)[userId := ValuesOf(old(values), userId) + [totalNotional + totalUnrealizedPnl]]
      ensures killSwitch.Halted() ==
              old(killSwitch.Halted())
              + (if Breaches(thresholdPercent, ValuesOf(old(values), userId), totalNotional + totalUnrealizedPnl)
                 then {USER(userId)} else {})
    {
      var currentValue := totalNotional + totalUnrealizedPnl;
      ghost var xs := ValuesOf(values, userId);
      assert Records(watermarks.entries, drawdowns.entries, userId, xs);
      OneMoreValue(xs, currentValue);
      OneMoreRecorded(watermarks.entries, drawdowns.entries, values, userId, currentValue);
      values := values[userId := xs + [currentValue]];
      var storedHwm := watermarks.Get(userId, now);
      if storedHwm.None? {
        Store(userId, currentValue, 0.0);
        return;
      }
      var highWatermark := storedHwm.value;
      if currentValue > highWatermark {
        Store(userId, currentValue, 0.0);
        return;
      }
      var drawdownPercent := DrawdownPercent(highWatermark, currentValue);
      assert watermarks.entries == watermarks.entries[userId := Entry(highWatermark, None)];
      drawdowns.Set(userId, drawdownPercent);
      if drawdownPercent >= thresholdPercent {
        killSwitch.Trigger(USER(userId), "drawdown exceeded threshold", "loss-monitor", now);
      }
    }

    method Store(userId: string, highWatermark: real, drawdown: real)
      requires watermarks != drawdowns
      modifies watermarks, drawdowns
      ensures watermarks.entries == old(watermarks.entries)[userId := Entry(highWatermark, None)]
      ensures drawdowns.entries == old(drawdowns.entries)[userId := Entry(drawdown, None)]
    {
      watermarks.Set(userId, highWatermark);
      drawdowns.Set(userId, drawdown);
    }

    method GetDrawdown(userId: string, now: nat) returns (d: real)
      requires Valid()
      ensures d == Drawdown(ValuesOf(values, userId))
    {
      assert Records(watermarks.entries, drawdowns.entries, userId, ValuesOf(values, userId));
      var stored := drawdowns.Get(userId, now);
      d := if stored.Some? then stored.value else 0.0;
    }

    method ResetWatermark(userId: string)
      requires Valid()
      modifies this, watermarks, drawdowns
      ensures Valid()
      ensures values == old(values)[userId := []]
    {
      watermarks.Del(userId);
      drawdowns.Del(userId);
      values := values[userId := []];
      forall u
        ensures Records(watermarks.entries, drawdowns.entries, u, ValuesOf(values, u))
      {
        assert Records(old(watermarks.entries), old(drawdowns.entries), u, ValuesOf(old(values), u));
      }
    }
  }

  /** Writing one user's keys for one more value leaves every other user's records in place. */
  lemma OneMoreRecorded(watermarks: map<string, Entry<real>>, drawdowns: map<string, Entry<real>>, values: Values,
                        userId: string, x: real)
    requires AllRecorded(watermarks, drawdowns, values)
    ensures var xs := ValuesOf(values, userId) + [x];
            AllRecorded(watermarks[userId := Entry(Largest(xs), None)], drawdowns[userId := Entry(Drawdown(xs), None)],
                        values[userId := xs])
  {
    var xs := ValuesOf(values, userId) + [x];
    var w, d, v := watermarks[userId := Entry(Largest(xs), None)], drawdowns[userId := Entry(Drawdown(xs), None)],
        values[userId := xs];
    forall u
      ensures Records(w, d, u, ValuesOf(v, u))
    {
      assert Records(watermarks, drawdowns, u, ValuesOf(values, u));
    }
  }
}

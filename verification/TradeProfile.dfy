/** security/anomaly/strategy.drift.detector.ts, computeProfile: what a list of trades looks like on average. */
module TradeProfiles {
  import opened RealFacts
  import opened MapSums
  import opened MultisetSums
  import opened StableSort

  /** Timestamps are milliseconds. */
  datatype Trade = Trade(instrument: string, quantity: real, price: real, timestamp: int)

  datatype TradeProfile = TradeProfile(
    instrumentDistribution: map<string, real>, totalTrades: nat, averageOrderSize: real, averageHoldTimeMinutes: real)

  const NO_TRADES := TradeProfile(map[], 0, 0.0, 0.0)

  function Minutes(ms: int): real {
    ms as real / 60000.0
  }

  // ----- the trades taken together, in no order

  /** Per instrument the number of trades and the times of the earliest and the latest; and the total size. */
  datatype Summary = Summary(counts: map<string, real>, first: map<string, int>, last: map<string, int>, size: real)

  ghost function Least(m: map<string, int>, k: string, t: int): int {
    if k in m && m[k] <= t then m[k] else t
  }

  ghost function Greatest(m: map<string, int>, k: string, t: int): int {
    if k in m && m[k] >= t then m[k] else t
  }

  function OrderSize(t: Trade): real {
    t.quantity * t.price
  }

  ghost function With(s: Summary, t: Trade): Summary {
    Summary(s.counts[t.instrument := ValueAt(s.counts, t.instrument) + 1.0],
            s.first[t.instrument := Least(s.first, t.instrument, t.timestamp)],
            s.last[t.instrument := Greatest(s.last, t.instrument, t.timestamp)],
            s.size + OrderSize(t))
  }

  ghost function Summarize(trades: seq<Trade>): (s: Summary)
    ensures s.counts.Keys == s.first.Keys == s.last.Keys
  {
    if trades == [] then Summary(map[], map[], map[], 0.0)
    else With(Summarize(trades[..|trades| - 1]), trades[|trades| - 1])
  }

  /** How long each instrument was traded, from its first trade to its last. */
  ghost function Spans(s: Summary): map<string, real>
    requires s.counts.Keys == s.first.Keys == s.last.Keys
  {
    map k | k in s.counts :: Minutes(s.last[k] - s.first[k])
  }

  ghost function HoldTimes(s: Summary, trades: nat): int {
    trades - |s.counts|
  }

  /** The profile in terms of the summary alone. */
  ghost function Profile(trades: seq<Trade>): TradeProfile {
    if trades == [] then NO_TRADES
    else
      var s := Summarize(trades);
      var n := HoldTimes(s, |trades|);
      TradeProfile(s.counts, |trades|, Ratio(s.size, |trades| as real),
                   if n > 0 then Ratio(SumValues(Spans(s)), n as real) else 0.0)
  }

  // ----- the computation

  ghost predicate ByTime(trades: seq<Trade>) {
    forall i, j :: 0 <= i < j < |trades| ==> trades[i].timestamp <= trades[j].timestamp
  }

  predicate Later(a: Trade, b: Trade) {
    a.timestamp > b.timestamp
  }

  lemma SortedByTime(trades: seq<Trade>)
    ensures ByTime(Sort(trades, Later)) && multiset(Sort(trades, Later)) == multiset(trades)
  {
    SortOrders(trades, Later);
    SortPermutes(trades, Later);
    var sorted := Sort(trades, Later);
    assert forall i, j :: 0 <= i < j < |sorted| ==> !Later(sorted[i], sorted[j]);
  }

  method ComputeProfile(trades: seq<Trade>) returns (profile: TradeProfile)
    ensures profile == Profile(trades)
  {
    if |trades| == 0 {
      return NO_TRADES;
    }
    var instrumentCounts, totalSize := CountTrades(trades);
    var avgSize := Ratio(totalSize, |trades| as real);
    var sortedTrades := Sort(trades, Later);
    SortedByTime(trades);
    OrderDoesNotMatter(sortedTrades, trades);
    var holdTimeSum, holdTimeCount := SumHoldTimes(sortedTrades);
    var avgHoldTime := if holdTimeCount > 0 then Ratio(holdTimeSum, holdTimeCount as real) else 0.0;
    profile := TradeProfile(instrumentCounts, |trades|, avgSize, avgHoldTime);
  }

  method CountTrades(trades: seq<Trade>) returns (instrumentCounts: map<string, real>, totalSize: real)
    ensures instrumentCounts == Summarize(trades).counts && totalSize == Summarize(trades).size
  {
    instrumentCounts := map[];
    totalSize := 0.0;
    for n := 0 to |trades|
      invariant instrumentCounts == Summarize(trades[..n]).counts && totalSize == Summarize(trades[..n]).size
    {
      var trade := trades[n];
      assert trades[..n + 1][..n] == trades[..n];
      instrumentCounts := instrumentCounts[trade.instrument := ValueAt(instrumentCounts, trade.instrument) + 1.0];
      totalSize := totalSize + OrderSize(trade);
    }
    assert trades[..|trades|] == trades;
  }

  /** Adds up the gaps between consecutive trades on one instrument; they telescope to its span. */
  method SumHoldTimes(sortedTrades: seq<Trade>) returns (holdTimeSum: real, holdTimeCount: nat)
    requires ByTime(sortedTrades)
    ensures holdTimeSum == SumValues(Spans(Summarize(sortedTrades)))
    ensures holdTimeCount == HoldTimes(Summarize(sortedTrades), |sortedTrades|)
  {
    hide Summarize, Gathered;
    holdTimeSum := 0.0;
    holdTimeCount := 0;
    var lastTradeByInstrument: map<string, Trade> := map[];
    NothingGathered();
    for n := 0 to |sortedTrades|
      invariant Gathered(holdTimeSum, holdTimeCount, lastTradeByInstrument, Summarize(sortedTrades[..n]), n)
    {
      var trade := sortedTrades[n];
      SummarizeNext(sortedTrades, n);
      LatestIsPast(sortedTrades[..n], trade.timestamp);
      GatherOne(holdTimeSum, holdTimeCount, lastTradeByInstrument, Summarize(sortedTrades[..n]), n, trade);
      if trade.instrument in lastTradeByInstrument {
        var prev := lastTradeByInstrument[trade.instrument];
        var diffMs := trade.timestamp - prev.timestamp;
        holdTimeSum := holdTimeSum + Minutes(diffMs);
        holdTimeCount := holdTimeCount + 1;
      }
      lastTradeByInstrument := lastTradeByInstrument[trade.instrument := trade];
    }
    assert sortedTrades[..|sortedTrades|] == sortedTrades;
    GatheredIs(holdTimeSum, holdTimeCount, lastTradeByInstrument, Summarize(sortedTrades), |sortedTrades|);
  }

  /** The loop's variables after the first n trades, whose summary is s. */
  ghost predicate Gathered(holdTimeSum: real, holdTimeCount: nat, lastTrades: map<string, Trade>, s: Summary, n: nat) {
    && s.counts.Keys == s.first.Keys == s.last.Keys == lastTrades.Keys
    && holdTimeSum == SumValues(Spans(s)) && holdTimeCount == HoldTimes(s, n)
    && forall k :: k in lastTrades ==> lastTrades[k].timestamp == s.last[k]
  }

  lemma NothingGathered()
    ensures Gathered(0.0, 0, map[], Summarize([]), 0)
  {
    NothingSummarized();
  }

  lemma GatheredIs(holdTimeSum: real, holdTimeCount: nat, lastTrades: map<string, Trade>, s: Summary, n: nat)
    requires Gathered(holdTimeSum, holdTimeCount, lastTrades, s, n)
    ensures s.counts.Keys == s.first.Keys == s.last.Keys
    ensures holdTimeSum == SumValues(Spans(s)) && holdTimeCount == HoldTimes(s, n)
  {
  }

  lemma GatherOne(holdTimeSum: real, holdTimeCount: nat, lastTrades: map<string, Trade>, s: Summary, n: nat, t: Trade)
    requires Gathered(holdTimeSum, holdTimeCount, lastTrades, s, n)
    requires forall k :: k in s.last ==> s.last[k] <= t.timestamp
    requires forall k :: k in s.first ==> s.first[k] <= t.timestamp
    ensures if t.instrument in lastTrades
            then Gathered(holdTimeSum + Minutes(t.timestamp - lastTrades[t.instrument].timestamp), holdTimeCount + 1,
                          lastTrades[t.instrument := t], With(s, t), n + 1)
            else Gathered(holdTimeSum, holdTimeCount, lastTrades[t.instrument := t], With(s, t), n + 1)
  {
    hide Minutes, SumValues, Spans, Least, Greatest, OrderSize, ValueAt;
    OneMoreGap(s, t);
  }

  lemma SummarizeNext(trades: seq<Trade>, n: nat)
    requires n < |trades|
    ensures Summarize(trades[..n + 1]) == With(Summarize(trades[..n]), trades[n])
  {
    assert trades[..n + 1][..n] == trades[..n];
  }

  lemma NothingSummarized()
    ensures Summarize([]) == Summary(map[], map[], map[], 0.0)
    ensures SumValues(Spans(Summarize([]))) == 0.0
  {
    assert Spans(Summarize([])) == map[];
  }

  lemma {:induction false} LatestIsPast(trades: seq<Trade>, now: int)
    requires forall i :: 0 <= i < |trades| ==> trades[i].timestamp <= now
    ensures forall k :: k in Summarize(trades).last ==> Summarize(trades).last[k] <= now
    ensures forall k :: k in Summarize(trades).first ==> Summarize(trades).first[k] <= now
  {
    if trades != [] {
      LatestIsPast(trades[..|trades| - 1], now);
    }
  }

  lemma MinutesAdd(a: int, b: int, c: int)
    ensures Minutes(c - a) == Minutes(b - a) + Minutes(c - b)
    ensures Minutes(0) == 0.0
  {
  }

  lemma SpansWith(s: Summary, t: Trade)
    requires s.counts.Keys == s.first.Keys == s.last.Keys
    requires forall k :: k in s.last ==> s.last[k] <= t.timestamp && s.first[k] <= t.timestamp
    ensures var k := t.instrument;
            Spans(With(s, t)) ==
            Spans(s)[k := Minutes(t.timestamp - (if k in s.first then s.first[k] else t.timestamp))]
  {
    hide Minutes;
  }

  /** A later trade lengthens its instrument's span by the gap since the last one, or starts a span of 0. */
  lemma OneMoreGap(s: Summary, t: Trade)
    requires s.counts.Keys == s.first.Keys == s.last.Keys
    requires forall k :: k in s.last ==> s.last[k] <= t.timestamp && s.first[k] <= t.timestamp
    ensures var k, spans, more := t.instrument, SumValues(Spans(s)), SumValues(Spans(With(s, t)));
            && more == spans + (if k in s.last then Minutes(t.timestamp - s.last[k]) else 0.0)
            && |With(s, t).counts| == |s.counts| + (if k in s.last then 0 else 1)
            && With(s, t).last == s.last[k := t.timestamp]
  {
    hide Minutes, SumValues;
    SpansWith(s, t);
    var k := t.instrument;
    if k in s.last {
      MinutesAdd(s.first[k], s.last[k], t.timestamp);
      SumUpdate(Spans(s), k, Minutes(t.timestamp - s.first[k]));
    } else {
      MinutesAdd(t.timestamp, t.timestamp, t.timestamp);
      SumInsert(Spans(s), k, Minutes(0));
    }
  }

  // ----- the order of the trades does not matter

  lemma CountsCommute(m: map<string, real>, j: string, k: string)
    ensures var a, b := m[j := ValueAt(m, j) + 1.0], m[k := ValueAt(m, k) + 1.0];
            a[k := ValueAt(a, k) + 1.0] == b[j := ValueAt(b, j) + 1.0]
  {
  }

  lemma LeastCommutes(m: map<string, int>, j: string, s: int, k: string, t: int)
    ensures var a, b := m[j := Least(m, j, s)], m[k := Least(m, k, t)];
            a[k := Least(a, k, t)] == b[j := Least(b, j, s)]
  {
  }

  lemma GreatestCommutes(m: map<string, int>, j: string, s: int, k: string, t: int)
    ensures var a, b := m[j := Greatest(m, j, s)], m[k := Greatest(m, k, t)];
            a[k := Greatest(a, k, t)] == b[j := Greatest(b, j, s)]
  {
  }

  lemma WithCommutes(s: Summary, t: Trade, u: Trade)
    ensures With(With(s, t), u) == With(With(s, u), t)
  {
    hide OrderSize, ValueAt, Least, Greatest;
    CountsCommute(s.counts, t.instrument, u.instrument);
    LeastCommutes(s.first, t.instrument, t.timestamp, u.instrument, u.timestamp);
    GreatestCommutes(s.last, t.instrument, t.timestamp, u.instrument, u.timestamp);
  }

  /** Any trade may be summarised last. */
  lemma {:induction false} TakeOut(trades: seq<Trade>, i: nat)
    requires i < |trades|
    ensures Summarize(trades) == With(Summarize(trades[..i] + trades[i + 1..]), trades[i])
    decreases |trades|
  {
    hide With;
    var front, last := trades[..|trades| - 1], trades[|trades| - 1];
    if i == |trades| - 1 {
      assert trades[..i] + trades[i + 1..] == front;
    } else {
      TakeOut(front, i);
      var rest, rest' := trades[..i] + trades[i + 1..], front[..i] + front[i + 1..];
      assert rest[..|rest| - 1] == rest' && rest[|rest| - 1] == last && front[i] == trades[i];
      WithCommutes(Summarize(rest'), trades[i], last);
    }
  }

  lemma SameButOne(x: multiset<Trade>, y: multiset<Trade>, t: Trade)
    requires x + multiset{t} == y + multiset{t}
    ensures x == y
  {
    assert x == (x + multiset{t}) - multiset{t};
    assert y == (y + multiset{t}) - multiset{t};
  }

  lemma WithoutOne(b: seq<Trade>, j: nat)
    requires j < |b|
    ensures multiset(b) == multiset(b[..j] + b[j + 1..]) + multiset{b[j]}
  {
    assert b == b[..j] + [b[j]] + b[j + 1..];
  }

  /** The last trade of one order somewhere in another. */
  lemma FindLast(a: seq<Trade>, b: seq<Trade>) returns (j: nat)
    requires multiset(a) == multiset(b) && a != []
    ensures j < |b| && b[j] == a[|a| - 1]
    ensures multiset(a[..|a| - 1]) == multiset(b[..j] + b[j + 1..])
  {
    var last := a[|a| - 1];
    assert last in multiset(b);
    j :| 0 <= j < |b| && b[j] == last;
    WithoutOne(a, |a| - 1);
    WithoutOne(b, j);
    assert a[..|a| - 1] + a[|a| - 1 + 1..] == a[..|a| - 1];
    SameButOne(multiset(a[..|a| - 1]), multiset(b[..j] + b[j + 1..]), last);
  }

  lemma {:induction false} OrderDoesNotMatter(a: seq<Trade>, b: seq<Trade>)
    requires multiset(a) == multiset(b)
    ensures Summarize(a) == Summarize(b) && |a| == |b|
    decreases |a|
  {
    assert |multiset(a)| == |multiset(b)|;
    if a != [] {
      var j := FindLast(a, b);
      OrderDoesNotMatter(a[..|a| - 1], b[..j] + b[j + 1..]);
      TakeOut(b, j);
      hide With;
    }
  }

  /** The profile is the same for every permutation of the trades. */
  lemma ProfileIgnoresOrder(a: seq<Trade>, b: seq<Trade>)
    requires multiset(a) == multiset(b)
    ensures Profile(a) == Profile(b)
  {
    OrderDoesNotMatter(a, b);
  }

  // ----- what the summary holds

  lemma OneMoreCount(counts: map<string, real>, k: string)
    requires forall j :: j in counts ==> counts[j] >= 1.0
    ensures var more := counts[k := ValueAt(counts, k) + 1.0];
            && SumValues(more) == SumValues(counts) + 1.0
            && (forall j :: j in more ==> more[j] >= 1.0)
            && |more| <= |counts| + 1
  {
    if k in counts {
      SumUpdate(counts, k, counts[k] + 1.0);
    } else {
      SumInsert(counts, k, 1.0);
    }
    hide SumValues;
  }

  /** The counts add up to the number of trades, are at least 1, and there are no more instruments than trades. */
  lemma {:induction false} CountsAddUp(trades: seq<Trade>)
    ensures SumValues(Summarize(trades).counts) == |trades| as real
    ensures forall k :: k in Summarize(trades).counts ==> Summarize(trades).counts[k] >= 1.0
    ensures |Summarize(trades).counts| <= |trades|
  {
    hide SumValues, ValueAt, Least, Greatest, OrderSize;
    SumOfNone();
    if trades != [] {
      var front := trades[..|trades| - 1];
      CountsAddUp(front);
      OneMoreCount(Summarize(front).counts, trades[|trades| - 1].instrument);
    }
  }

  ghost predicate TradedAt(trades: seq<Trade>, k: string, t: int) {
    exists i :: 0 <= i < |trades| && trades[i].instrument == k && trades[i].timestamp == t
  }

  /** first and last are the times of the earliest and latest trade on the instrument. */
  lemma {:induction false} FirstAndLast(trades: seq<Trade>, k: string)
    ensures k in Summarize(trades).counts <==> exists i :: 0 <= i < |trades| && trades[i].instrument == k
    ensures k in Summarize(trades).counts ==>
              && TradedAt(trades, k, Summarize(trades).first[k]) && TradedAt(trades, k, Summarize(trades).last[k])
              && forall i :: 0 <= i < |trades| && trades[i].instrument == k ==>
                   Summarize(trades).first[k] <= trades[i].timestamp <= Summarize(trades).last[k]
  {
    if trades != [] {
      var front, last := trades[..|trades| - 1], trades[|trades| - 1];
      FirstAndLast(front, k);
      forall t | TradedAt(front, k, t)
        ensures TradedAt(trades, k, t)
      {
        var i :| 0 <= i < |front| && front[i].instrument == k && front[i].timestamp == t;
        assert trades[i] == front[i];
      }
      if last.instrument == k {
        assert trades[|trades| - 1].instrument == k;
        assert TradedAt(trades, k, last.timestamp);
      }
      forall i | 0 <= i < |front|
        ensures front[i] == trades[i]
      {
      }
    }
  }

  // ----- the profile in figures

  ghost function CountOn(trades: seq<Trade>, k: string): nat {
    if trades == [] then 0
    else CountOn(trades[..|trades| - 1], k) + if trades[|trades| - 1].instrument == k then 1 else 0
  }

  /** The count of an instrument is the number of trades on it. */
  lemma {:induction false} CountIs(trades: seq<Trade>, k: string)
    ensures ValueAt(Summarize(trades).counts, k) == CountOn(trades, k) as real
  {
    hide Least, Greatest, OrderSize;
    if trades != [] {
      CountIs(trades[..|trades| - 1], k);
    }
  }

  ghost function SizeTimesPrice(): Trade -> real {
    (t: Trade) => t.quantity * t.price
  }

  lemma {:induction false} SizeIs(trades: seq<Trade>)
    ensures Summarize(trades).size == SumOver(multiset(trades), SizeTimesPrice())
  {
    if trades == [] {
    } else {
      var front, t := trades[..|trades| - 1], trades[|trades| - 1];
      SizeIs(front);
      assert trades == front + [t];
      hide SumOver, Least, Greatest, ValueAt;
      SumAdd(multiset(front), SizeTimesPrice(), t);
      assert OrderSize(t) == SizeTimesPrice()(t);
    }
  }

  /** The milliseconds from the first trade on each instrument to the last. */
  ghost function SpansMs(s: Summary): map<string, real>
    requires s.counts.Keys == s.first.Keys == s.last.Keys
  {
    map k | k in s.counts :: (s.last[k] - s.first[k]) as real
  }

  lemma SpansAreMinutes(s: Summary)
    requires s.counts.Keys == s.first.Keys == s.last.Keys
    ensures SumValues(Spans(s)) * 60000.0 == SumValues(SpansMs(s))
  {
    forall k | k in s.counts
      ensures Spans(s)[k] == Ratio(SpansMs(s)[k], 60000.0)
    {
    }
    hide SumValues;
    SumQuotient(SpansMs(s), 60000.0, Spans(s));
    QuotientTimes(SumValues(SpansMs(s)), 60000.0);
  }

  /**
   The averages of a profile in figures: the order size times the number of trades is the sum of quantity times price;
   the hold time in minutes, times 60000 and the number of gaps, is the sum of the spans in milliseconds.
   */
  lemma ProfileInFigures(trades: seq<Trade>)
    requires trades != []
    ensures var p, s := Profile(trades), Summarize(trades);
            var gaps := |trades| - |s.counts|;
            && p.totalTrades == |trades| && p.instrumentDistribution == s.counts
            && p.averageOrderSize * |trades| as real == SumOver(multiset(trades), SizeTimesPrice())
            && (gaps > 0 ==> p.averageHoldTimeMinutes * gaps as real * 60000.0 == SumValues(SpansMs(s)))
            && (gaps <= 0 ==> p.averageHoldTimeMinutes == 0.0)
  {
    hide *;
    var s := Summarize(trades);
    ProfileFields(trades);
    SizeIs(trades);
    RatioTimes(s.size, |trades| as real);
    SpansAreMinutes(s);
    if |trades| - |s.counts| > 0 {
      RatioTimes(SumValues(Spans(s)), (|trades| - |s.counts|) as real);
    }
  }

  lemma RatioTimes(x: real, d: real)
    requires d != 0.0
    ensures Ratio(x, d) * d == x
  {
    QuotientTimes(x, d);
  }

  lemma ProfileFields(trades: seq<Trade>)
    requires trades != []
    ensures var p, s := Profile(trades), Summarize(trades);
            var gaps := |trades| - |s.counts|;
            && p.totalTrades == |trades| && p.instrumentDistribution == s.counts
            && p.averageOrderSize == Ratio(s.size, |trades| as real)
            && p.averageHoldTimeMinutes == if gaps > 0 then Ratio(SumValues(Spans(s)), gaps as real) else 0.0
  {
    hide Summarize, SumValues, Spans;
  }
}

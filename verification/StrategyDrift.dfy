/** security/anomaly/strategy.drift.detector.ts: how far recent trading is from a stored profile. */
module StrategyDrift {
  import opened Basics
  import opened RealFacts
  import opened MapSums
  import opened TradeProfiles
  import opened TtlStores

  datatype DriftReason =
    InstrumentDrift(chiSquared: real) | OrderSizeDrift(deviation: real) | HoldTimeDrift(deviation: real)

  datatype DriftCheckResult = DriftCheckResult(driftDetected: bool, driftScore: real, driftReasons: seq<DriftReason>)

  const NO_DRIFT := DriftCheckResult(false, 0.0, [])

  // ----- the chi-squared distance

  function Share(a: real, b: real): real
    requires a + b > 0.0
  {
    Square(a - b) / (a + b)
  }

  /** What one key adds to the distance. */
  function Term(a: real, b: real): real {
    if a + b > 0.0 then Share(a, b) else 0.0
  }

  ghost function Terms(a: map<string, real>, b: map<string, real>): map<string, real> {
    map k | k in a.Keys + b.Keys :: Term(ValueAt(a, k), ValueAt(b, k))
  }

  ghost function Distance(a: map<string, real>, b: map<string, real>): real {
    SumValues(Terms(a, b))
  }

  /** Visits the keys in any order. */
  method ChiSquaredDistance(baseline: map<string, real>, current: map<string, real>) returns (chiSq: real)
    ensures chiSq == Distance(baseline, current)
  {
    hide Share;
    var allKeys := baseline.Keys + current.Keys;
    chiSq := 0.0;
    ghost var done: map<string, real> := map[];
    while allKeys != {}
      invariant done.Keys + allKeys == baseline.Keys + current.Keys && done.Keys !! allKeys
      invariant forall k :: k in done ==> done[k] == Terms(baseline, current)[k]
      invariant chiSq == SumValues(done)
      decreases allKeys
    {
      var key :| key in allKeys;
      allKeys := allKeys - {key};
      var baseVal := ValueAt(baseline, key);
      var currVal := ValueAt(current, key);
      var denominator := baseVal + currVal;
      SumInsert(done, key, Term(baseVal, currVal));
      if denominator > 0.0 {
        chiSq := chiSq + Share(baseVal, currVal);
      }
      done := done[key := Term(baseVal, currVal)];
    }
    assert done == Terms(baseline, current);
  }

  /** Non-negative entries that sum to 1. */
  ghost predicate Distribution(m: map<string, real>) {
    NonNegative(m) && SumValues(m) == 1.0
  }

  lemma TermBounds(a: real, b: real)
    requires a >= 0.0 && b >= 0.0
    ensures 0.0 <= Term(a, b) <= a + b
    ensures Term(a, b) == 0.0 <==> a == b
    ensures Term(a, b) == a + b <==> a == 0.0 || b == 0.0
    ensures Term(a, b) == Term(b, a)
  {
    var s, d := a + b, a - b;
    SquareNonNegative(d);
    DifferenceOfSquares(a, b);
    if s > 0.0 {
      QuotientTimes(Square(d), s);
      QuotientNonNegative(Square(d), s);
      TermBelowSum(Term(a, b), a, b);
    }
  }

  lemma TermBelowSum(t: real, a: real, b: real)
    requires a >= 0.0 && b >= 0.0 && a + b > 0.0 && t >= 0.0
    requires t * (a + b) == Square(a - b)
    ensures t <= a + b && (t == a + b <==> a == 0.0 || b == 0.0) && (t == 0.0 <==> a == b)
  {
    var s := a + b;
    DifferenceOfSquares(a, b);
    Distribute(s, t, s);
    assert (s - t) * s == 4.0 * (a * b);
    SquareNonNegative(a - b);
    ZeroProduct(t, s);
    ZeroProduct(s - t, s);
    ZeroProduct(a, b);
    if a > 0.0 && b > 0.0 {
      ProductPositive(a, b);
      CancelStrict(t, s, s);
    }
  }

  lemma ZeroProduct(x: real, y: real)
    ensures x * y == 0.0 <==> x == 0.0 || y == 0.0
  {
  }

  /** The distance is symmetric. */
  lemma DistanceIsSymmetric(a: map<string, real>, b: map<string, real>)
    ensures Distance(a, b) == Distance(b, a)
  {
    forall k | k in a.Keys + b.Keys
      ensures Term(ValueAt(a, k), ValueAt(b, k)) == Term(ValueAt(b, k), ValueAt(a, k))
    {
      DifferenceOfSquares(ValueAt(a, k), ValueAt(b, k));
    }
    hide Term;
    assert Terms(a, b) == Terms(b, a);
  }

  ghost function Both(a: map<string, real>, b: map<string, real>): map<string, real> {
    map k | k in a.Keys + b.Keys :: ValueAt(a, k) + ValueAt(b, k)
  }

  lemma SumOfBoth(a: map<string, real>, b: map<string, real>)
    ensures SumValues(Both(a, b)) == SumValues(a) + SumValues(b)
  {
    var keys := a.Keys + b.Keys;
    SumPadded(a, keys);
    SumPadded(b, keys);
    SumOfSums(Padded(a, keys), Padded(b, keys), Both(a, b));
  }

  ghost predicate NonNegative(m: map<string, real>) {
    forall k :: k in m ==> m[k] >= 0.0
  }

  /** Agree at every key. */
  ghost predicate Alike(a: map<string, real>, b: map<string, real>) {
    forall k :: k in a.Keys + b.Keys ==> ValueAt(a, k) == ValueAt(b, k)
  }

  /** No key has weight in both. */
  ghost predicate Disjoint(a: map<string, real>, b: map<string, real>) {
    forall k :: k in a.Keys + b.Keys ==> ValueAt(a, k) == 0.0 || ValueAt(b, k) == 0.0
  }

  lemma AllTermBounds(a: map<string, real>, b: map<string, real>)
    requires NonNegative(a) && NonNegative(b)
    ensures forall k :: k in a.Keys + b.Keys ==>
              var x, y, t := ValueAt(a, k), ValueAt(b, k), Terms(a, b)[k];
              0.0 <= t <= x + y && (t == 0.0 <==> x == y) && (t == x + y <==> x == 0.0 || y == 0.0)
  {
    hide Term;
    forall k | k in a.Keys + b.Keys {
      TermBounds(ValueAt(a, k), ValueAt(b, k));
    }
  }

  lemma TermsAgainst(a: map<string, real>, b: map<string, real>, zeros: map<string, real>)
    requires NonNegative(a) && NonNegative(b) && zeros == map k | k in Terms(a, b) :: 0.0
    ensures forall k :: k in Terms(a, b) ==> zeros[k] <= Terms(a, b)[k] <= Both(a, b)[k]
    ensures zeros == Terms(a, b) <==> Alike(a, b)
    ensures Terms(a, b) == Both(a, b) <==> Disjoint(a, b)
  {
    hide Term, ValueAt;
    AllTermBounds(a, b);
  }

  /** The distance is never negative, and 0 exactly for maps that agree everywhere. */
  lemma DistanceIsZeroIffAlike(a: map<string, real>, b: map<string, real>)
    requires NonNegative(a) && NonNegative(b)
    ensures Distance(a, b) >= 0.0
    ensures Distance(a, b) == 0.0 <==> Alike(a, b)
  {
    hide SumValues, Alike, Terms, NonNegative;
    var zeros := map k | k in Terms(a, b) :: 0.0;
    SumOfZeros(zeros);
    TermsAgainst(a, b, zeros);
    SumOrder(zeros, Terms(a, b));
  }

  /** The distance is at most the two totals together, and that much exactly for disjoint supports. */
  lemma DistanceIsMaximalIffDisjoint(a: map<string, real>, b: map<string, real>)
    requires NonNegative(a) && NonNegative(b)
    ensures Distance(a, b) <= SumValues(a) + SumValues(b)
    ensures Distance(a, b) == SumValues(a) + SumValues(b) <==> Disjoint(a, b)
  {
    TermsAgainst(a, b, map k | k in Terms(a, b) :: 0.0);
    hide SumValues, Disjoint, Alike, NonNegative, ValueAt, Term;
    SumOfBoth(a, b);
    SumOrder(Terms(a, b), Both(a, b));
  }

  /**
   Between distributions the distance is symmetric, lies in [0, 2], is 0 only for equal and 2 exactly for disjoint ones.
   */
  lemma DistributionDistance(a: map<string, real>, b: map<string, real>)
    requires Distribution(a) && Distribution(b)
    ensures Distance(a, b) == Distance(b, a)
    ensures 0.0 <= Distance(a, b) <= 2.0
    ensures Distance(a, b) == 0.0 <==> Alike(a, b)
    ensures Distance(a, b) == 2.0 <==> Disjoint(a, b)
  {
    DistanceIsSymmetric(a, b);
    DistanceIsZeroIffAlike(a, b);
    DistanceIsMaximalIffDisjoint(a, b);
    hide Distance, SumValues;
  }

  // ----- the distance in figures

  /** The term of a key, times its weight, is the square of the difference; a key without weight adds nothing. */
  lemma TermInFigures(a: map<string, real>, b: map<string, real>, k: string)
    requires k in a.Keys + b.Keys
    ensures var x, y := ValueAt(a, k), ValueAt(b, k);
            if x + y > 0.0 then Terms(a, b)[k] * (x + y) == (x - y) * (x - y) else Terms(a, b)[k] == 0.0
  {
    var x, y := ValueAt(a, k), ValueAt(b, k);
    if x + y > 0.0 {
      QuotientTimes(Square(x - y), x + y);
    }
  }

  /** What two weights have in common: their product over their sum. */
  function Common(x: real, y: real): real {
    if x + y > 0.0 then x * y / (x + y) else 0.0
  }

  ghost function Overlap(a: map<string, real>, b: map<string, real>): map<string, real> {
    map k | k in a.Keys + b.Keys :: Common(ValueAt(a, k), ValueAt(b, k))
  }

  lemma FourTimes(t: real, o: real, x: real, y: real)
    requires x + y > 0.0 && t * (x + y) == Square(x - y) && o * (x + y) == x * y
    ensures x + y == t + 4.0 * o
  {
    DifferenceOfSquares(x, y);
    Distribute(t, 4.0 * o, x + y);
    Associate(4.0, o, x + y);
    assert (t + 4.0 * o) * (x + y) == Square(x + y);
    QuotientIs(Square(x + y), x + y, t + 4.0 * o);
    QuotientIs(Square(x + y), x + y, x + y);
  }

  lemma TermAndOverlap(x: real, y: real)
    requires x >= 0.0 && y >= 0.0
    ensures x + y == Term(x, y) + 4.0 * Common(x, y)
  {
    if x + y > 0.0 {
      QuotientTimes(Square(x - y), x + y);
      QuotientTimes(x * y, x + y);
      FourTimes(Term(x, y), Common(x, y), x, y);
    }
  }

  ghost function Quadruple(m: map<string, real>): map<string, real> {
    map k | k in m :: 4.0 * m[k]
  }

  lemma {:induction false} SumQuadruple(m: map<string, real>)
    ensures SumValues(Quadruple(m)) == 4.0 * SumValues(m)
    decreases |m|
  {
    if m.Keys == {} {
      assert m == map[] && Quadruple(m) == map[];
    } else {
      var k :| k in m.Keys;
      SumQuadruple(m - {k});
      SumPick(m, k);
      SumPick(Quadruple(m), k);
      hide SumValues;
      assert Quadruple(m) - {k} == Quadruple(m - {k});
    }
  }

  /** The distance is what the two totals are more than four times their overlap. */
  lemma DistanceIsLackOfOverlap(a: map<string, real>, b: map<string, real>)
    requires NonNegative(a) && NonNegative(b)
    ensures Distance(a, b) == SumValues(a) + SumValues(b) - 4.0 * SumValues(Overlap(a, b))
  {
    forall k | k in a.Keys + b.Keys
      ensures Both(a, b)[k] == Terms(a, b)[k] + Quadruple(Overlap(a, b))[k]
    {
      TermAndOverlap(ValueAt(a, k), ValueAt(b, k));
    }
    hide SumValues, Term, Common, ValueAt, NonNegative;
    SumOfBoth(a, b);
    SumQuadruple(Overlap(a, b));
    SumOfSums(Terms(a, b), Quadruple(Overlap(a, b)), Both(a, b));
  }

  /** Between distributions: 2 less four times the overlap. */
  lemma DistributionOverlap(a: map<string, real>, b: map<string, real>)
    requires Distribution(a) && Distribution(b)
    ensures Distance(a, b) == 2.0 - 4.0 * SumValues(Overlap(a, b))
  {
    DistanceIsLackOfOverlap(a, b);
    hide Distance, Overlap, SumValues;
  }

  // ----- normalisation

  ghost function Normalized(dist: map<string, real>): map<string, real> {
    if SumValues(dist) == 0.0 then dist else map k | k in dist :: Ratio(dist[k], SumValues(dist))
  }

  method SumOf(dist: map<string, real>) returns (total: real)
    ensures total == SumValues(dist)
  {
    var keys := dist.Keys;
    total := 0.0;
    ghost var done: map<string, real> := map[];
    while keys != {}
      invariant done.Keys + keys == dist.Keys && done.Keys !! keys
      invariant forall k :: k in done ==> done[k] == dist[k]
      invariant total == SumValues(done)
      decreases keys
    {
      var key :| key in keys;
      keys := keys - {key};
      SumInsert(done, key, dist[key]);
      total := total + dist[key];
      done := done[key := dist[key]];
    }
    assert done == dist;
  }

  method NormalizeDistribution(dist: map<string, real>) returns (normalized: map<string, real>)
    ensures normalized == Normalized(dist)
  {
    var total := SumOf(dist);
    if total == 0.0 {
      return dist;
    }
    normalized := map[];
    var keys := dist.Keys;
    while keys != {}
      invariant normalized.Keys + keys == dist.Keys && normalized.Keys !! keys
      invariant forall k :: k in normalized ==> normalized[k] == Ratio(dist[k], total)
      decreases keys
    {
      var key :| key in keys;
      keys := keys - {key};
      normalized := normalized[key := Ratio(dist[key], total)];
    }
  }

  lemma NormalizedIsDistribution(dist: map<string, real>)
    requires NonNegative(dist) && SumValues(dist) > 0.0
    ensures Distribution(Normalized(dist))
  {
    var total := SumValues(dist);
    hide SumValues;
    forall k | k in dist
      ensures Ratio(dist[k], total) >= 0.0
    {
      QuotientNonNegative(dist[k], total);
    }
    SumQuotient(dist, total, Normalized(dist));
    QuotientIs(total, total, 1.0);
  }

  // ----- the check

  function Min(x: real, y: real): (r: real)
    ensures r <= x && r <= y && (r == x || r == y)
  {
    if x < y then x else y
  }

  function Max(x: real, y: real): (r: real)
    ensures r >= x && r >= y && (r == x || r == y)
  {
    if x > y then x else y
  }

  ghost function InstrumentDistance(baseline: TradeProfile, current: TradeProfile): real {
    Distance(Normalized(baseline.instrumentDistribution), Normalized(current.instrumentDistribution))
  }

  /** The relative deviation of an average, where both averages are positive. */
  function Deviation(baseline: real, current: real): real {
    if baseline > 0.0 && current > 0.0 then Ratio(Abs(current - baseline), baseline) else 0.0
  }

  function SizeDeviation(baseline: TradeProfile, current: TradeProfile): real {
    Deviation(baseline.averageOrderSize, current.averageOrderSize)
  }

  function HoldDeviation(baseline: TradeProfile, current: TradeProfile): real {
    Deviation(baseline.averageHoldTimeMinutes, current.averageHoldTimeMinutes)
  }

  function Weighted(distance: real, sizeDeviation: real, holdDeviation: real): real {
    0.4 * (distance / 2.0) + 0.35 * Min(sizeDeviation, 1.0) + 0.25 * Min(holdDeviation, 1.0)
  }

  /** The weighted drift, with no clamp on the distance or on the total. */
  ghost function Drift(baseline: TradeProfile, current: TradeProfile): real {
    Weighted(InstrumentDistance(baseline, current), SizeDeviation(baseline, current), HoldDeviation(baseline, current))
  }

  lemma WeightedBounds(distance: real, sizeDeviation: real, holdDeviation: real)
    requires 0.0 <= distance <= 2.0 && sizeDeviation >= 0.0 && holdDeviation >= 0.0
    ensures 0.0 <= Weighted(distance, sizeDeviation, holdDeviation) <= 1.0
    ensures Clamped(distance / 2.0, sizeDeviation, holdDeviation) == Weighted(distance, sizeDeviation, holdDeviation)
  {
  }

  /** The reasons given, each with the figure that passed its bound. */
  ghost function Reasons(baseline: TradeProfile, current: TradeProfile): seq<DriftReason> {
    var d, s, h := InstrumentDistance(baseline, current), SizeDeviation(baseline, current),
        HoldDeviation(baseline, current);
    (if d > 0.6 then [InstrumentDrift(d)] else []) + (if s > 0.5 then [OrderSizeDrift(s)] else [])
    + (if h > 0.5 then [HoldTimeDrift(h)] else [])
  }

  function Clamped(instrumentScore: real, sizeDeviation: real, holdDeviation: real): real {
    Min(Max(0.4 * Min(instrumentScore, 1.0) + 0.35 * Min(sizeDeviation, 1.0) + 0.25 * Min(holdDeviation, 1.0), 0.0),
        1.0)
  }

  /** The drift with both clamps, for any baseline. */
  ghost function ClampedDrift(baseline: TradeProfile, current: TradeProfile): real {
    Clamped(InstrumentDistance(baseline, current) / 2.0, SizeDeviation(baseline, current),
        HoldDeviation(baseline, current))
  }

  /** A profile that was computed from some trades. */
  ghost predicate Computed(p: TradeProfile) {
    exists trades :: p == Profile(trades)
  }

  method Compare(driftThreshold: real, baseline: TradeProfile, recentTrades: seq<Trade>)
    returns (result: DriftCheckResult)
    ensures baseline.totalTrades == 0 ==> result == NO_DRIFT
    ensures baseline.totalTrades > 0 ==>
              var current := Profile(recentTrades);
              && result.driftScore == ClampedDrift(baseline, current)
              && (result.driftDetected <==> result.driftScore >= driftThreshold)
              && result.driftReasons == Reasons(baseline, current)
  {
    hide Distance, Normalized, Profile, Ratio;
    var current := ComputeProfile(recentTrades);
    if baseline.totalTrades == 0 {
      return NO_DRIFT;
    }
    var driftReasons: seq<DriftReason> := [];

    var baselineNorm := NormalizeDistribution(baseline.instrumentDistribution);
    var currentNorm := NormalizeDistribution(current.instrumentDistribution);
    var chiSq := ChiSquaredDistance(baselineNorm, currentNorm);
    var instrumentDriftScore := Min(chiSq / 2.0, 1.0);
    if instrumentDriftScore > 0.3 {
      driftReasons := driftReasons + [InstrumentDrift(chiSq)];
    }

    var orderSizeDriftScore := 0.0;
    if baseline.averageOrderSize > 0.0 && current.averageOrderSize > 0.0 {
      var deviation := Ratio(Abs(current.averageOrderSize - baseline.averageOrderSize), baseline.averageOrderSize);
      orderSizeDriftScore := Min(deviation, 1.0);
      if deviation > 0.5 {
        driftReasons := driftReasons + [OrderSizeDrift(deviation)];
      }
    }

    var holdTimeDriftScore := 0.0;
    if baseline.averageHoldTimeMinutes > 0.0 && current.averageHoldTimeMinutes > 0.0 {
      var deviation :=
        Ratio(Abs(current.averageHoldTimeMinutes - baseline.averageHoldTimeMinutes), baseline.averageHoldTimeMinutes);
      holdTimeDriftScore := Min(deviation, 1.0);
      if deviation > 0.5 {
        driftReasons := driftReasons + [HoldTimeDrift(deviation)];
      }
    }

    var compositeScore := instrumentDriftScore * 0.4 + orderSizeDriftScore * 0.35 + holdTimeDriftScore * 0.25;
    var clampedScore := Min(Max(compositeScore, 0.0), 1.0);
    result := DriftCheckResult(clampedScore >= driftThreshold, clampedScore, driftReasons);
  }

  // ----- the detector

  const PROFILE_TTL_SECONDS: nat := 30 * 24 * 60 * 60
  const THIRTY_DAYS_MS: nat := 30 * 24 * 60 * 60 * 1000

  /** The trades of the last 30 days. */
  function LastThirtyDays(trades: seq<Trade>, now: nat): seq<Trade> {
    if trades == [] then []
    else
      var before, last := LastThirtyDays(trades[..|trades| - 1], now), trades[|trades| - 1];
      if last.timestamp >= now - THIRTY_DAYS_MS then before + [last] else before
  }

  /** One finished recordTrade. */
  datatype Recording = Recording(strategyId: string, trade: Trade, at: nat)

  ghost predicate InTimeOrder(h: seq<Recording>, clock: nat) {
    && (forall i, j :: 0 <= i <= j < |h| ==> h[i].at <= h[j].at)
    && (forall i :: 0 <= i < |h| ==> h[i].at <= clock)
  }

  ghost function LastRecorded(h: seq<Recording>, strategyId: string): Option<nat> {
    if h == [] then None
    else if h[|h| - 1].strategyId == strategyId then Some(h[|h| - 1].at)
    else LastRecorded(h[..|h| - 1], strategyId)
  }

  /** Every trade ever recorded for the strategy. */
  ghost function AllTrades(h: seq<Recording>, strategyId: string): seq<Trade> {
    if h == [] then []
    else
      var before, e := AllTrades(h[..|h| - 1], strategyId), h[|h| - 1];
      if e.strategyId == strategyId then before + [e.trade] else before
  }

  /** No more than a TTL has passed since the last recording. */
  ghost predicate Continues(h: seq<Recording>, strategyId: string, ttlMs: nat, at: nat) {
    LastRecorded(h, strategyId).Some? && at <= LastRecorded(h, strategyId).value + ttlMs
  }

  /** The trades recorded since the last pause longer than the TTL. */
  ghost function TradesSincePause(h: seq<Recording>, strategyId: string, ttlMs: nat): seq<Trade> {
    if h == [] then []
    else
      var before, e := h[..|h| - 1], h[|h| - 1];
      if e.strategyId != strategyId then TradesSincePause(before, strategyId, ttlMs)
      else
        (if Continues(before, strategyId, ttlMs, e.at) then TradesSincePause(before, strategyId, ttlMs) else [])
        + [e.trade]
  }

  /**
   The list stored for the strategy: what is at most 30 days old at the last recording, of the trades since the last
   pause.
   */
  ghost predicate Kept(entries: map<string, Entry<seq<Trade>>>, h: seq<Recording>, strategyId: string, ttlMs: nat) {
    var last := LastRecorded(h, strategyId);
    if last.None? then strategyId !in entries
    else strategyId in entries && entries[strategyId] ==
           Entry(LastThirtyDays(TradesSincePause(h, strategyId, ttlMs), last.value), Some(last.value + ttlMs))
  }

  ghost predicate AllKept(entries: map<string, Entry<seq<Trade>>>, h: seq<Recording>, ttlMs: nat) {
    forall strategyId :: Kept(entries, h, strategyId, ttlMs)
  }

  /** Of each trade everything is kept if it is at most 30 days old, and nothing otherwise. */
  lemma {:induction false} LastThirtyDaysIs(trades: seq<Trade>, now: nat, t: Trade)
    ensures multiset(LastThirtyDays(trades, now))[t] ==
            if t.timestamp >= now - 2592000000 then multiset(trades)[t] else 0
  {
    if trades != [] {
      LastThirtyDaysIs(trades[..|trades| - 1], now, t);
      assert trades == trades[..|trades| - 1] + [trades[|trades| - 1]];
    }
  }

  /** Filtering again later makes the earlier filter void. */
  lemma {:induction false} FilteredTwice(trades: seq<Trade>, t: nat, now: nat)
    requires t <= now
    ensures LastThirtyDays(LastThirtyDays(trades, t), now) == LastThirtyDays(trades, now)
  {
    if trades != [] {
      var last := trades[|trades| - 1];
      FilteredTwice(trades[..|trades| - 1], t, now);
      FilterAppend(LastThirtyDays(trades[..|trades| - 1], t), last, now);
      FilterOne(last, now);
    }
  }

  lemma FilterOne(trade: Trade, now: nat)
    ensures LastThirtyDays([trade], now) == if trade.timestamp >= now - THIRTY_DAYS_MS then [trade] else []
  {
    assert [trade][..0] == [];
  }

  lemma FilterAppend(trades: seq<Trade>, last: Trade, now: nat)
    ensures LastThirtyDays(trades + [last], now) == LastThirtyDays(trades, now) + LastThirtyDays([last], now)
  {
    assert (trades + [last])[..|trades|] == trades;
    assert [last][..0] == [];
  }

  /** Storing the filtered list with one more trade files the recording. */
  lemma RecordingKeeps(entries: map<string, Entry<seq<Trade>>>, h: seq<Recording>, ttlMs: nat, clock: nat, e: Recording)
    requires AllKept(entries, h, ttlMs) && InTimeOrder(h, clock) && clock <= e.at
    ensures InTimeOrder(h + [e], e.at)
    ensures var live := LookupIn(entries, e.strategyId, e.at);
            var list := LastThirtyDays((if live.Some? then live.value else []) + [e.trade], e.at);
            AllKept(entries[e.strategyId := Entry(list, Some(e.at + ttlMs))], h + [e], ttlMs)
  {
    hide LastThirtyDays;
    var live := LookupIn(entries, e.strategyId, e.at);
    var list := LastThirtyDays((if live.Some? then live.value else []) + [e.trade], e.at);
    var more := h + [e];
    var entries' := entries[e.strategyId := Entry(list, Some(e.at + ttlMs))];
    assert more[..|h|] == h && more[|h|] == e;
    assert Kept(entries, h, e.strategyId, ttlMs);
    if live.Some? {
      var since, t := TradesSincePause(h, e.strategyId, ttlMs), LastRecorded(h, e.strategyId).value;
      LastRecordedIsPast(h, e.strategyId, e.at);
      FilterAppend(LastThirtyDays(since, t), e.trade, e.at);
      FilteredTwice(since, t, e.at);
      FilterAppend(since, e.trade, e.at);
    }
    assert Kept(entries', more, e.strategyId, ttlMs);
    forall k | k != e.strategyId
      ensures Kept(entries', more, k, ttlMs)
    {
      assert Kept(entries, h, k, ttlMs);
    }
  }

  lemma {:induction false} LastRecordedIsPast(h: seq<Recording>, strategyId: string, clock: nat)
    requires InTimeOrder(h, clock) && LastRecorded(h, strategyId).Some?
    ensures LastRecorded(h, strategyId).value <= clock
  {
    if h[|h| - 1].strategyId != strategyId {
      LastRecordedIsPast(h[..|h| - 1], strategyId, clock);
    }
  }

  class StrategyDriftDetector {
    const driftThreshold: real
    const profileTtlSeconds: nat
    const tradeLists: TtlStore<string, seq<Trade>>
    const profiles: TtlStore<string, TradeProfile>
    ghost var history: seq<Recording>
    ghost var clock: nat

    /** The trade lists are those of the history; each stored profile is that of the list, and expires with it. */
    ghost predicate Valid()
      reads this, tradeLists, profiles
    {
      && InTimeOrder(history, clock) && AllKept(tradeLists.entries, history, 1000 * Ttl())
      && profiles.entries.Keys == tradeLists.entries.Keys
      && forall k :: k in profiles.entries ==>
           profiles.entries[k] == Entry(Profile(tradeLists.entries[k].value), tradeLists.entries[k].expiresAt)
    }

    constructor (driftThreshold: real, profileTtlSeconds: nat)
      ensures Valid() && fresh(tradeLists) && fresh(profiles) && history == [] && clock == 0
      ensures this.driftThreshold == driftThreshold && this.profileTtlSeconds == profileTtlSeconds
    {
      this.driftThreshold := driftThreshold;
      this.profileTtlSeconds := profileTtlSeconds;
      tradeLists := new TtlStore();
      profiles := new TtlStore();
      history := [];
      clock := 0;
    }

    function Ttl(): (ttl: nat)
      ensures ttl > 0 && (profileTtlSeconds == 0 ==> ttl == 2592000)
    {
      if profileTtlSeconds > 0 then profileTtlSeconds else PROFILE_TTL_SECONDS
    }

    method RecordTrade(strategyId: string, trade: Trade, now: nat)
      requires Valid() && clock <= now
      modifies this, tradeLists, profiles
      ensures Valid() && clock == now && history == old(history) + [Recording(strategyId, trade, now)]
      ensures tradeLists.Lookup(strategyId, now) ==
              Some(LastThirtyDays((if old(tradeLists.Lookup(strategyId, now)).Some?
                                   then old(tradeLists.Lookup(strategyId, now)).value else []) + [trade], now))
      ensures strategyId in tradeLists.entries && tradeLists.entries ==
              old(tradeLists.entries)[strategyId := Entry(tradeLists.entries[strategyId].value,
                  Some(now + 1000 * Ttl()))]
    {
      hide Profile, LastThirtyDays, AllKept, InTimeOrder;
      RecordingKeeps(tradeLists.entries, history, 1000 * Ttl(), clock, Recording(strategyId, trade, now));
      history := history + [Recording(strategyId, trade, now)];
      clock := now;
      var existing := tradeLists.Get(strategyId, now);
      var trades := (if existing.Some? then existing.value else []) + [trade];
      var filtered := LastThirtyDays(trades, now);
      var ttl := Ttl();
      tradeLists.SetEx(strategyId, ttl, filtered, now);
      var profile := ComputeProfile(filtered);
      profiles.SetEx(strategyId, ttl, profile, now);
    }

    /** The score is the unclamped drift from the trades recorded, and lies in [0, 1]. */
    method Check(strategyId: string, recentTrades: seq<Trade>, now: nat) returns (result: DriftCheckResult)
      requires Valid()
      ensures var recorded := tradeLists.Lookup(strategyId, now);
              if recorded.None? || recorded.value == [] then result == NO_DRIFT
              else var baseline, current := Profile(recorded.value), Profile(recentTrades);
                   && result.driftScore == Drift(baseline, current)
                   && 0.0 <= result.driftScore <= 1.0
                   && (result.driftDetected <==> Drift(baseline, current) >= driftThreshold)
                   && result.driftReasons == Reasons(baseline, current)
    {
      hide Profile, Drift, ClampedDrift, Reasons, Computed;
      var raw := profiles.Get(strategyId, now);
      if raw.None? {
        return NO_DRIFT;
      }
      ghost var recorded := tradeLists.entries[strategyId].value;
      TradesOf(recorded);
      result := Compare(driftThreshold, raw.value, recentTrades);
      if recorded != [] {
        ClampsChangeNothing(raw.value, recentTrades);
      }
    }
  }

  // ----- over a whole run

  /** No trade is stamped later than it was recorded. */
  ghost predicate Stamped(h: seq<Recording>) {
    forall i :: 0 <= i < |h| ==> h[i].trade.timestamp <= h[i].at
  }

  /** At the last recording, what is kept is what is at most 30 days old of all the trades ever recorded. */
  ghost predicate NothingForgotten(h: seq<Recording>, strategyId: string, ttlMs: nat, clock: nat) {
    InTimeOrder(h, clock) && Stamped(h) && LastRecorded(h, strategyId).Some? ==>
      var now := LastRecorded(h, strategyId).value;
      LastThirtyDays(TradesSincePause(h, strategyId, ttlMs), now) == LastThirtyDays(AllTrades(h, strategyId), now)
  }

  lemma {:induction false} OldTrades(h: seq<Recording>, strategyId: string, now: nat)
    requires Stamped(h) && forall i :: 0 <= i < |h| && h[i].strategyId == strategyId ==> h[i].at + THIRTY_DAYS_MS < now
    ensures LastThirtyDays(AllTrades(h, strategyId), now) == []
  {
    if h != [] {
      OldTrades(h[..|h| - 1], strategyId, now);
      FilterOne(h[|h| - 1].trade, now);
      FilterAppend(AllTrades(h[..|h| - 1], strategyId), h[|h| - 1].trade, now);
    }
  }

  lemma {:induction false} LastIsLatest(h: seq<Recording>, strategyId: string, clock: nat)
    requires InTimeOrder(h, clock)
    ensures forall i :: 0 <= i < |h| && h[i].strategyId == strategyId ==>
              LastRecorded(h, strategyId).Some? && h[i].at <= LastRecorded(h, strategyId).value
  {
    if h != [] {
      LastIsLatest(h[..|h| - 1], strategyId, clock);
    }
  }

  lemma {:induction false} LongTtlForgetsNothing(h: seq<Recording>, strategyId: string, ttlMs: nat, clock: nat)
    requires ttlMs >= THIRTY_DAYS_MS
    ensures NothingForgotten(h, strategyId, ttlMs, clock)
  {
    if h != [] && InTimeOrder(h, clock) && Stamped(h) {
      var before, e := h[..|h| - 1], h[|h| - 1];
      LongTtlForgetsNothing(before, strategyId, ttlMs, e.at);
      assert before + [e] == h;
      hide LastThirtyDays;
      if e.strategyId == strategyId {
        OneMoreKept(before, e, ttlMs);
      }
    }
  }

  lemma OneMoreKept(before: seq<Recording>, e: Recording, ttlMs: nat)
    requires ttlMs >= THIRTY_DAYS_MS && InTimeOrder(before, e.at) && Stamped(before)
    requires NothingForgotten(before, e.strategyId, ttlMs, e.at)
    ensures LastThirtyDays(TradesSincePause(before + [e], e.strategyId, ttlMs), e.at) ==
            LastThirtyDays(AllTrades(before + [e], e.strategyId), e.at)
  {
    hide LastThirtyDays;
    var id := e.strategyId;
    var since, all := TradesSincePause(before, id, ttlMs), AllTrades(before, id);
    assert (before + [e])[..|before|] == before;
    FilterAppend(all, e.trade, e.at);
    LastIsLatest(before, id, e.at);
    if Continues(before, id, ttlMs, e.at) {
      var t := LastRecorded(before, id).value;
      LastRecordedIsPast(before, id, e.at);
      FilterAppend(since, e.trade, e.at);
      FilteredTwice(since, t, e.at);
      FilteredTwice(all, t, e.at);
    } else {
      OldTrades(before, id, e.at);
      assert TradesSincePause(before + [e], id, ttlMs) == [e.trade];
      assert [] + LastThirtyDays([e.trade], e.at) == LastThirtyDays([e.trade], e.at);
    }
  }

  /** Two trades a TTL and a millisecond apart. */
  lemma ShortTtlForgets(ttlMs: nat) returns (h: seq<Recording>)
    requires ttlMs < THIRTY_DAYS_MS
    ensures !NothingForgotten(h, "s", ttlMs, ttlMs + 1)
  {
    hide LastThirtyDays, AllTrades, TradesSincePause, LastRecorded, InTimeOrder, Stamped;
    var x, y := Trade("i", 1.0, 1.0, 0), Trade("i", 1.0, 1.0, ttlMs + 1);
    var first: seq<Recording> := [Recording("s", x, 0)];
    h := first + [Recording("s", y, ttlMs + 1)];
    FirstOfTwo(first, h, x, y, ttlMs);
    FilterAppend([x], y, ttlMs + 1);
    FilterOne(x, ttlMs + 1);
    FilterOne(y, ttlMs + 1);
    TwoInOrder(h, x, y, ttlMs);
    assert [x] + [y] != [y];
  }

  lemma TwoInOrder(h: seq<Recording>, x: Trade, y: Trade, ttlMs: nat)
    requires h == [Recording("s", x, 0), Recording("s", y, ttlMs + 1)] && x.timestamp == 0 && y.timestamp == ttlMs + 1
    ensures InTimeOrder(h, ttlMs + 1) && Stamped(h)
  {
  }

  lemma FirstOfTwo(first: seq<Recording>, h: seq<Recording>, x: Trade, y: Trade, ttlMs: nat)
    requires first == [Recording("s", x, 0)] && h == first + [Recording("s", y, ttlMs + 1)]
    ensures LastRecorded(h, "s") == Some(ttlMs + 1)
    ensures TradesSincePause(h, "s", ttlMs) == [y] && AllTrades(h, "s") == [x] + [y]
  {
    assert h[..1] == first && first[..0] == [];
    assert AllTrades(first, "s") == [x];
    assert LastRecorded(first, "s") == Some(0);
  }

  /** Over every run the 30 days are kept whole, exactly if the TTL is not shorter than that. */
  lemma NothingForgottenIff(ttlMs: nat)
    ensures (forall h, strategyId, clock :: NothingForgotten(h, strategyId, ttlMs, clock)) <==> ttlMs >= 2592000000
  {
    hide NothingForgotten;
    if ttlMs >= THIRTY_DAYS_MS {
      forall h, strategyId, clock
        ensures NothingForgotten(h, strategyId, ttlMs, clock)
      {
        LongTtlForgetsNothing(h, strategyId, ttlMs, clock);
      }
    } else {
      var h := ShortTtlForgets(ttlMs);
    }
  }

  lemma TradesOf(trades: seq<Trade>)
    ensures Computed(Profile(trades)) && Profile(trades).totalTrades == |trades|
  {
  }

  /** The deviation of two positive averages, times the baseline, is their difference; any other is 0. */
  lemma DeviationInFigures(baseline: real, current: real)
    ensures baseline > 0.0 && current > 0.0 ==>
              Deviation(baseline, current) * baseline ==
              if current > baseline then current - baseline else baseline - current
    ensures baseline <= 0.0 || current <= 0.0 ==> Deviation(baseline, current) == 0.0
  {
    if baseline > 0.0 && current > 0.0 {
      QuotientTimes(Abs(current - baseline), baseline);
    }
  }

  /** The drift in points of a hundred: 20 a unit of distance, up to 35 for the size and up to 25 for the hold time. */
  lemma DriftInFigures(baseline: TradeProfile, current: TradeProfile)
    ensures var d, s, h := InstrumentDistance(baseline, current),
                           SizeDeviation(baseline, current), HoldDeviation(baseline, current);
            100.0 * Drift(baseline, current) ==
            20.0 * d + 35.0 * (if s < 1.0 then s else 1.0) + 25.0 * (if h < 1.0 then h else 1.0)
  {
    hide InstrumentDistance, SizeDeviation, HoldDeviation;
  }

  lemma DeviationNonNegative(baseline: real, current: real)
    ensures Deviation(baseline, current) >= 0.0
  {
    if baseline > 0.0 {
      QuotientNonNegative(Abs(current - baseline), baseline);
    }
  }

  /** The counts of a list with trades normalise to a distribution; those of the empty list stay empty. */
  lemma NormalizedCounts(trades: seq<Trade>)
    ensures trades != [] ==> Distribution(Normalized(Profile(trades).instrumentDistribution))
    ensures trades == [] ==> Normalized(Profile(trades).instrumentDistribution) == map[]
    ensures Profile(trades).totalTrades == |trades|
  {
    if trades != [] {
      CountsAddUp(trades);
      hide SumValues, Distribution, Normalized, Summarize, Spans;
      NormalizedIsDistribution(Summarize(trades).counts);
    }
  }

  /** Between the mixes of two lists of trades, of which the first is not empty, the distance stays in [0, 2]. */
  lemma DistanceBetweenProfiles(base: seq<Trade>, recent: seq<Trade>)
    requires base != []
    ensures 0.0 <= InstrumentDistance(Profile(base), Profile(recent)) <= 2.0
  {
    hide Profile, Normalized, Distance;
    NormalizedCounts(base);
    NormalizedCounts(recent);
    var b, r := Normalized(Profile(base).instrumentDistribution), Normalized(Profile(recent).instrumentDistribution);
    DistanceIsZeroIffAlike(b, r);
    DistanceIsMaximalIffDisjoint(b, r);
  }

  /** For a computed baseline the clamps on the instrument score and on the composite score never change a value. */
  lemma ClampsChangeNothing(baseline: TradeProfile, recent: seq<Trade>)
    requires Computed(baseline) && baseline.totalTrades > 0
    ensures var current := Profile(recent);
            && Min(InstrumentDistance(baseline, current) / 2.0, 1.0) == InstrumentDistance(baseline, current) / 2.0
            && ClampedDrift(baseline, current) == Drift(baseline, current)
            && 0.0 <= Drift(baseline, current) <= 1.0
  {
    var base :| baseline == Profile(base);
    hide *;
    NormalizedCounts(base);
    DistanceBetweenProfiles(base, recent);
    DriftIsInRange(baseline, Profile(recent));
  }

  /** Between distances and averages in range neither clamp does anything. */
  lemma DriftIsInRange(baseline: TradeProfile, current: TradeProfile)
    requires 0.0 <= InstrumentDistance(baseline, current) <= 2.0
    ensures Min(InstrumentDistance(baseline, current) / 2.0, 1.0) == InstrumentDistance(baseline, current) / 2.0
    ensures ClampedDrift(baseline, current) == Drift(baseline, current) && 0.0 <= Drift(baseline, current) <= 1.0
  {
    hide InstrumentDistance, SizeDeviation, HoldDeviation, Weighted, Clamped;
    DeviationsNonNegative(baseline, current);
    WeightedBounds(InstrumentDistance(baseline, current),
                   SizeDeviation(baseline, current), HoldDeviation(baseline, current));
  }

  lemma DeviationsNonNegative(baseline: TradeProfile, current: TradeProfile)
    ensures SizeDeviation(baseline, current) >= 0.0 && HoldDeviation(baseline, current) >= 0.0
  {
    hide Deviation;
    DeviationNonNegative(baseline.averageOrderSize, current.averageOrderSize);
    DeviationNonNegative(baseline.averageHoldTimeMinutes, current.averageHoldTimeMinutes);
  }

  lemma ProfileAgainstItself(trades: seq<Trade>)
    requires trades != []
    ensures var p := Profile(trades);
            InstrumentDistance(p, p) == 0.0 && SizeDeviation(p, p) == 0.0 && HoldDeviation(p, p) == 0.0
  {
    hide Profile, Normalized, Distance, Deviation;
    NormalizedCounts(trades);
    var p := Profile(trades);
    var b := Normalized(p.instrumentDistribution);
    DistanceIsZeroIffAlike(b, b);
    NoDeviation(p.averageOrderSize);
    NoDeviation(p.averageHoldTimeMinutes);
    hide SumValues;
  }

  lemma NothingWeighted()
    ensures Weighted(0.0, 0.0, 0.0) == 0.0
  {
  }

  /** The trades behind the baseline, in whatever order, show no drift against it. */
  lemma SameTradesShowNoDrift(base: seq<Trade>, recent: seq<Trade>)
    requires base != [] && multiset(base) == multiset(recent)
    ensures Drift(Profile(base), Profile(recent)) == 0.0 && Reasons(Profile(base), Profile(recent)) == []
  {
    hide Profile, InstrumentDistance, SizeDeviation, HoldDeviation, Weighted;
    ProfileIgnoresOrder(base, recent);
    ProfileAgainstItself(base);
    NothingWeighted();
  }

  lemma NoDeviation(x: real)
    ensures Deviation(x, x) == 0.0
  {
    if x > 0.0 {
      QuotientIs(0.0, x, 0.0);
    }
  }
}

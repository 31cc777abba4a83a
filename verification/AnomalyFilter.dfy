/** security/market-data/anomaly.filter.ts: flags a price far from the mean of the last prices. */
module AnomalyFilters {
  import opened RealFacts

  datatype Config = Config(anomalyWindowSize: nat, anomalyStdDevMultiplier: real)

  datatype AnomalyFilterResult = AnomalyFilterResult(anomalous: bool, mean: real, stdDev: real, deviations: real)

  function Sum(w: seq<real>): real {
    if w == [] then 0.0 else Sum(w[..|w| - 1]) + w[|w| - 1]
  }

  function SquaredDeviations(w: seq<real>, mean: real): real {
    if w == [] then 0.0 else SquaredDeviations(w[..|w| - 1], mean) + Square(w[|w| - 1] - mean)
  }

  function Mean(w: seq<real>): real
    requires w != []
  {
    Sum(w) / |w| as real
  }

  function Variance(w: seq<real>): real
    requires w != []
  {
    SquaredDeviations(w, Mean(w)) / |w| as real
  }

  /** Math.sqrt: the non-negative root. */
  ghost predicate IsSqrt(sqrt: real -> real) {
    forall x :: x >= 0.0 ==> sqrt(x) >= 0.0 && sqrt(x) * sqrt(x) == x
  }

  /** The first n elements, or all of them. */
  function Take(n: nat, xs: seq<real>): (r: seq<real>)
    ensures |r| == (if |xs| < n then |xs| else n) && forall i :: 0 <= i < |r| ==> r[i] == xs[i]
  {
    if |xs| <= n then xs else xs[..n]
  }

  /** How many standard deviations the price is from the window's mean; 0 when the window does not vary. */
  function Deviations(sqrt: real -> real, w: seq<real>, price: real): real
    requires w != []
  {
    var stdDev := sqrt(Variance(w));
    if stdDev == 0.0 then 0.0 else Abs(price - Mean(w)) / stdDev
  }

  ghost predicate Anomalous(sqrt: real -> real, multiplier: real, w: seq<real>, price: real) {
    |w| >= 2 && Deviations(sqrt, w, price) > multiplier
  }

  class AnomalyFilter {
    const config: Config
    const sqrt: real -> real
    /** One Redis list per instrument, newest price first. */
    var lists: map<string, seq<real>>
    /** Every price ever checked, newest first. */
    ghost var checked: map<string, seq<real>>

    ghost function Checked(instrument: string): seq<real>
      reads this
    {
      if instrument in checked then checked[instrument] else []
    }

    function Window(instrument: string): seq<real>
      reads this
    {
      if instrument in lists then lists[instrument] else []
    }

    /** Every window is the last anomalyWindowSize prices checked, newest first. */
    ghost predicate Valid()
      reads this
    {
      && config.anomalyWindowSize > 0
      && forall i :: Window(i) == Take(config.anomalyWindowSize, Checked(i))
    }

    constructor (config: Config, sqrt: real -> real)
      requires config.anomalyWindowSize > 0
      ensures Valid() && this.config == config && this.sqrt == sqrt && checked == map[]
    {
      this.config := config;
      this.sqrt := sqrt;
      lists := map[];
      checked := map[];
    }

    /** Judges the price by the window before it, then puts it in front of the window. */
    method Check(instrument: string, price: real) returns (r: AnomalyFilterResult)
      requires Valid()
      modifies this
      ensures Valid()
      ensures checked == old(checked)[instrument := [price] + old(Checked(instrument))]
      ensures r.anomalous == Anomalous(sqrt, config.anomalyStdDevMultiplier,
                                       Take(config.anomalyWindowSize, old(Checked(instrument))), price)
      ensures var w := Take(config.anomalyWindowSize, old(Checked(instrument)));
              && r.mean == (if w == [] then price else Mean(w))
              && r.stdDev == (if |w| < 2 then 0.0 else sqrt(Variance(w)))
              && r.deviations == (if |w| < 2 then 0.0 else Deviations(sqrt, w, price))
    {
      hide Sum, SquaredDeviations;
      var window := Window(instrument);
      if |window| < 2 {
        if |window| == 1 {
          MeanOfOne(window);
        }
        r := AnomalyFilterResult(false, if |window| == 1 then window[0] else price, 0.0, 0.0);
      } else {
        var mean := Sum(window) / |window| as real;
        var variance := SquaredDeviations(window, mean) / |window| as real;
        var stdDev := sqrt(variance);
        var deviations := if stdDev == 0.0 then 0.0 else Abs(price - mean) / stdDev;
        var anomalous := deviations > config.anomalyStdDevMultiplier;
        r := AnomalyFilterResult(anomalous, mean, stdDev, deviations);
      }
      lists := lists[instrument := [price] + window];
      lists := lists[instrument := Take(config.anomalyWindowSize, lists[instrument])];
      checked := checked[instrument := [price] + Checked(instrument)];
      assert forall i :: i != instrument ==> Window(i) == old(Window(i)) && Checked(i) == old(Checked(i));
    }
  }

  lemma MeanOfOne(w: seq<real>)
    requires |w| == 1
    ensures Mean(w) == w[0]
  {
    assert w[..0] == [];
    assert Sum(w) == w[0];
  }

  // ----- the statistics in figures

  ghost function Differences(w: seq<real>, m: real): real {
    if w == [] then 0.0 else Differences(w[..|w| - 1], m) + (w[|w| - 1] - m)
  }

  lemma {:induction false} DifferencesAre(w: seq<real>, m: real)
    ensures Differences(w, m) == Sum(w) - |w| as real * m
  {
    if w != [] {
      DifferencesAre(w[..|w| - 1], m);
      assert |w| as real == (|w| - 1) as real + 1.0;
      Distribute((|w| - 1) as real, 1.0, m);
    }
  }

  /** The mean is the one number from which the entries' differences cancel out. */
  lemma MeanBalancesIff(w: seq<real>, m: real)
    requires w != []
    ensures Differences(w, m) == 0.0 <==> m == Mean(w)
  {
    var n := |w| as real;
    DifferencesAre(w, m);
    QuotientTimes(Sum(w), n);
    hide Differences, Sum;
    if Differences(w, m) == 0.0 {
      QuotientIs(Sum(w), n, m);
    }
  }

  ghost function SumOfSquares(w: seq<real>): real {
    if w == [] then 0.0 else SumOfSquares(w[..|w| - 1]) + w[|w| - 1] * w[|w| - 1]
  }

  lemma SquareOfDifference(x: real, m: real)
    ensures Square(x - m) == x * x - 2.0 * Times(m, x) + Times(m, m)
  {
  }

  lemma {:induction false} DeviationsAre(w: seq<real>, m: real)
    ensures SquaredDeviations(w, m) == SumOfSquares(w) - 2.0 * Times(m, Sum(w)) + Times(|w| as real, Times(m, m))
  {
    hide Times, Square;
    if w == [] {
      TimesUnits(m);
      TimesOfNothing(Times(m, m));
    } else {
      var n, x := |w| - 1, w[|w| - 1];
      DeviationsAre(w[..n], m);
      SquareOfDifference(x, m);
      TimesAdds(m, Sum(w[..n]), x);
      OneMoreTimes(n as real, Times(m, m));
    }
  }

  lemma TimesOfNothing(x: real)
    ensures Times(0.0, x) == 0.0
  {
  }

  lemma OneMoreTimes(n: real, x: real)
    ensures Times(n + 1.0, x) == Times(n, x) + x
  {
  }

  lemma MeanTimes(mean: real, n: real, sum: real)
    requires mean * n == sum
    ensures Times(mean, sum) == Times(n, Times(mean, mean))
  {
    Associate(mean, mean, n);
  }

  /** The variance of n entries, times n, is the sum of their squares less n times the square of their mean. */
  lemma VarianceInFigures(w: seq<real>)
    requires w != []
    ensures Variance(w) * |w| as real == SumOfSquares(w) - Times(|w| as real, Times(Mean(w), Mean(w)))
  {
    hide *;
    VarianceNonNegative(w);
    MeanTimesSize(w);
    MeanTimes(Mean(w), |w| as real, Sum(w));
    DeviationsAre(w, Mean(w));
  }

  lemma MeanTimesSize(w: seq<real>)
    requires w != []
    ensures Mean(w) * |w| as real == Sum(w)
  {
    QuotientTimes(Sum(w), |w| as real);
  }

  /** Without the square root: a price is anomalous exactly if its squared distance from the mean passes that bound. */
  lemma VerdictInFigures(sqrt: real -> real, multiplier: real, w: seq<real>, price: real)
    requires IsSqrt(sqrt) && multiplier >= 0.0
    ensures Anomalous(sqrt, multiplier, w, price) <==>
            |w| >= 2 && Variance(w) > 0.0 && Square(price - Mean(w)) > Square(multiplier) * Variance(w)
  {
    if |w| >= 2 {
      StdDevSquares(sqrt, w);
      VarianceNonNegative(w);
      var sd, d := sqrt(Variance(w)), Abs(price - Mean(w));
      AbsSquare(price - Mean(w));
      SquareNonNegative(sd);
      hide Variance, Mean, Square;
      if sd > 0.0 {
        QuotientAbove(d, sd, multiplier);
        ProductOfSquares(multiplier, sd);
        ProductNonNegative(multiplier, sd);
        SquaresAbove(d, multiplier * sd);
      }
    }
  }

  lemma QuotientAbove(d: real, sd: real, k: real)
    requires sd > 0.0
    ensures d / sd > k <==> d > k * sd
  {
    QuotientTimes(d, sd);
    if d / sd > k {
      ProductStrict(k, d / sd, sd);
    } else {
      ProductMonotone(d / sd, k, sd);
    }
  }

  lemma SquaresAbove(a: real, b: real)
    requires a >= 0.0 && b >= 0.0
    ensures Square(a) > Square(b) <==> a > b
  {
    if a > b {
      OrderOfSquares(a, b);
    } else if b > a {
      OrderOfSquares(b, a);
    }
  }

  // ----- few entries are outliers

  /** How many entries lie more than `bound` from the mean. */
  ghost function Outliers(w: seq<real>, mean: real, bound: real): nat {
    if w == [] then 0
    else Outliers(w[..|w| - 1], mean, bound) + (if Abs(w[|w| - 1] - mean) > bound then 1 else 0)
  }

  lemma SquareGrows(x: real, bound: real)
    requires bound >= 0.0
    ensures Square(x) >= 0.0
    ensures Abs(x) > bound ==> Square(x) > Square(bound)
  {
    SquareNonNegative(x);
    AbsSquare(x);
    if Abs(x) > bound {
      OrderOfSquares(Abs(x), bound);
    }
  }

  lemma {:induction false} OutliersCostDeviation(w: seq<real>, mean: real, bound: real)
    requires bound >= 0.0
    ensures Outliers(w, mean, bound) as real * Square(bound) <= SquaredDeviations(w, mean)
    ensures Outliers(w, mean, bound) > 0 ==>
              Outliers(w, mean, bound) as real * Square(bound) < SquaredDeviations(w, mean)
  {
    hide Square;
    if w != [] {
      var front, x := w[..|w| - 1], w[|w| - 1] - mean;
      OutliersCostDeviation(front, mean, bound);
      SquareGrows(x, bound);
      Distribute(Outliers(front, mean, bound) as real, 1.0, Square(bound));
    }
  }

  lemma {:induction false} DeviationsNonNegative(w: seq<real>, mean: real)
    ensures SquaredDeviations(w, mean) >= 0.0
  {
    hide Square;
    if w != [] {
      DeviationsNonNegative(w[..|w| - 1], mean);
      SquareGrows(w[|w| - 1] - mean, 0.0);
    }
  }

  lemma VarianceNonNegative(w: seq<real>)
    requires w != []
    ensures Variance(w) >= 0.0 && SquaredDeviations(w, Mean(w)) == Variance(w) * |w| as real
  {
    DeviationsNonNegative(w, Mean(w));
    hide SquaredDeviations, Mean;
    QuotientNonNegative(SquaredDeviations(w, Mean(w)), |w| as real);
    QuotientTimes(SquaredDeviations(w, Mean(w)), |w| as real);
  }

  lemma StdDevSquares(sqrt: real -> real, w: seq<real>)
    requires IsSqrt(sqrt) && w != []
    ensures sqrt(Variance(w)) >= 0.0 && Square(sqrt(Variance(w))) == Variance(w)
  {
    VarianceNonNegative(w);
    hide Variance;
  }

  lemma CancelVariance(n: nat, k2: real, variance: real, size: real)
    requires variance >= 0.0 && size > 0.0
    requires n > 0 ==> n as real * (k2 * variance) < variance * size
    ensures n as real * k2 < size
  {
    if n > 0 {
      Associate(n as real, k2, variance);
      CancelStrict(n as real * k2, size, variance);
    } else {
      assert n as real * k2 == 0.0;
    }
  }

  /** k standard deviations. */
  ghost function Band(sqrt: real -> real, w: seq<real>, k: real): real
    requires w != []
  {
    k * sqrt(Variance(w))
  }

  lemma BandSquares(sqrt: real -> real, w: seq<real>, k: real)
    requires IsSqrt(sqrt) && w != [] && k > 0.0
    ensures Band(sqrt, w, k) >= 0.0 && Square(Band(sqrt, w, k)) == Square(k) * Variance(w)
  {
    StdDevSquares(sqrt, w);
    hide Variance, Square;
    ProductNonNegative(k, sqrt(Variance(w)));
    ProductOfSquares(k, sqrt(Variance(w)));
  }

  /** Chebyshev: strictly fewer than n / k^2 of the n entries lie more than k standard deviations from the mean. */
  lemma FewOutliers(sqrt: real -> real, w: seq<real>, k: real)
    requires IsSqrt(sqrt) && w != [] && k > 0.0
    ensures Outliers(w, Mean(w), Band(sqrt, w, k)) as real * Square(k) < |w| as real
  {
    hide *;
    VarianceNonNegative(w);
    BandSquares(sqrt, w, k);
    OutliersCostDeviation(w, Mean(w), Band(sqrt, w, k));
    CancelVariance(Outliers(w, Mean(w), Band(sqrt, w, k)), Square(k), Variance(w), |w| as real);
  }

  // ----- the unit of the prices does not matter

  /** The price in another unit, c > 0 to the old one, and from another zero. */
  ghost function Requoted(c: real, d: real, x: real): real {
    c * x + d
  }

  ghost function RequotedAll(c: real, d: real, w: seq<real>): (r: seq<real>)
    ensures |r| == |w| && forall i :: 0 <= i < |w| ==> r[i] == Requoted(c, d, w[i])
  {
    seq(|w|, i requires 0 <= i < |w| => Requoted(c, d, w[i]))
  }

  lemma RequotedSlice(c: real, d: real, w: seq<real>, i: nat, j: nat)
    requires i <= j <= |w|
    ensures RequotedAll(c, d, w)[i..j] == RequotedAll(c, d, w[i..j])
  {
    hide Requoted;
  }

  lemma RequotedIs(c: real, d: real, x: real)
    ensures Requoted(c, d, x) == Times(c, x) + d
  {
  }

  lemma {:induction false} RequotedSum(c: real, d: real, w: seq<real>)
    ensures Sum(RequotedAll(c, d, w)) == Times(c, Sum(w)) + Times(d, |w| as real)
  {
    hide Times, Requoted;
    TimesUnits(c);
    TimesUnits(d);
    if w != [] {
      var n, r := |w| - 1, RequotedAll(c, d, w);
      RequotedSlice(c, d, w, 0, n);
      RequotedSum(c, d, w[..n]);
      assert r[0..n] == r[..n] && w[0..n] == w[..n];
      RequotedIs(c, d, w[n]);
      TimesAdds(c, Sum(w[..n]), w[n]);
      TimesAdds(d, n as real, 1.0);
    }
  }

  lemma MeanStep(c: real, d: real, mean: real, n: real)
    ensures (c * mean + d) * n == Times(c, mean * n) + Times(d, n)
  {
    Associate(c, mean, n);
    Distribute(c * mean, d, n);
  }

  lemma RequotedMean(c: real, d: real, w: seq<real>)
    requires w != []
    ensures Mean(RequotedAll(c, d, w)) == Requoted(c, d, Mean(w))
  {
    RequotedSum(c, d, w);
    var n, mean := |w| as real, Mean(w);
    QuotientTimes(Sum(w), n);
    MeanStep(c, d, mean, n);
    hide Sum, Times, RequotedAll;
    QuotientIs(Sum(RequotedAll(c, d, w)), n, c * mean + d);
  }

  lemma RequotedDifference(c: real, d: real, x: real, y: real)
    ensures Requoted(c, d, x) - Requoted(c, d, y) == c * (x - y)
  {
    Distribute(x, y, c);
  }

  lemma RequotedSquare(c: real, d: real, x: real, y: real)
    ensures Square(Requoted(c, d, x) - Requoted(c, d, y)) == Square(c) * Square(x - y)
  {
    var u := x - y;
    RequotedDifference(c, d, x, y);
    ProductOfSquares(c, u);
  }

  lemma {:induction false} RequotedDeviations(c: real, d: real, w: seq<real>, mean: real)
    ensures SquaredDeviations(RequotedAll(c, d, w), Requoted(c, d, mean)) == Square(c) * SquaredDeviations(w, mean)
  {
    hide Square, Requoted;
    if w != [] {
      var n, r := |w| - 1, RequotedAll(c, d, w);
      RequotedDeviations(c, d, w[..n], mean);
      RequotedSlice(c, d, w, 0, n);
      assert r[0..n] == r[..n] && w[0..n] == w[..n];
      RequotedSquare(c, d, w[n], mean);
      OneMoreTerm(Square(c), SquaredDeviations(w[..n], mean), Square(w[n] - mean));
    }
  }

  lemma OneMoreTerm(c: real, sum: real, term: real)
    ensures c * sum + c * term == c * (sum + term)
  {
  }

  lemma RequotedVariance(c: real, d: real, w: seq<real>)
    requires w != []
    ensures Variance(RequotedAll(c, d, w)) == Square(c) * Variance(w)
  {
    hide SquaredDeviations, Square, Mean, Requoted, RequotedAll;
    RequotedMean(c, d, w);
    RequotedDeviations(c, d, w, Mean(w));
    ScaledQuotient(Square(c), SquaredDeviations(w, Mean(w)), |w| as real);
  }

  lemma RootIsUnique(x: real, y: real)
    requires x >= 0.0 && y >= 0.0 && Square(x) == Square(y)
    ensures x == y
  {
    SquareGrows(x, y);
    SquareGrows(y, x);
  }

  lemma RequotedStdDev(sqrt: real -> real, c: real, d: real, w: seq<real>)
    requires IsSqrt(sqrt) && w != [] && c > 0.0
    ensures sqrt(Variance(RequotedAll(c, d, w))) == c * sqrt(Variance(w))
  {
    RequotedVariance(c, d, w);
    StdDevSquares(sqrt, w);
    StdDevSquares(sqrt, RequotedAll(c, d, w));
    hide Variance, Square;
    var sd := sqrt(Variance(w));
    ProductOfSquares(c, sd);
    ProductNonNegative(c, sd);
    RootIsUnique(sqrt(Variance(RequotedAll(c, d, w))), c * sd);
  }

  lemma RequotedRatio(sqrt: real -> real, c: real, d: real, w: seq<real>, price: real)
    requires IsSqrt(sqrt) && c > 0.0 && w != []
    ensures Deviations(sqrt, RequotedAll(c, d, w), Requoted(c, d, price)) == Deviations(sqrt, w, price)
  {
    hide Variance, Mean, Requoted, Square, IsSqrt;
    RequotedMean(c, d, w);
    RequotedStdDev(sqrt, c, d, w);
    StdDevSquares(sqrt, w);
    RequotedDifference(c, d, price, Mean(w));
    var sd := sqrt(Variance(w));
    if sd > 0.0 {
      AbsOfProduct(c, price - Mean(w));
      RatioCancels(c, Abs(price - Mean(w)), sd);
    } else {
      assert c * 0.0 == 0.0;
    }
  }

  lemma RequotedVerdict(sqrt: real -> real, multiplier: real, c: real, d: real, w: seq<real>, price: real)
    requires IsSqrt(sqrt) && c > 0.0
    ensures Anomalous(sqrt, multiplier, RequotedAll(c, d, w), Requoted(c, d, price)) <==>
              Anomalous(sqrt, multiplier, w, price)
  {
    if |w| >= 2 {
      RequotedRatio(sqrt, c, d, w, price);
      hide Deviations, Requoted;
    }
  }

  /** The verdicts of a filter fed these prices, newest first. */
  ghost function Verdicts(sqrt: real -> real, config: Config, prices: seq<real>): seq<bool> {
    if prices == [] then []
    else
      [Anomalous(sqrt, config.anomalyStdDevMultiplier, Take(config.anomalyWindowSize, prices[1..]), prices[0])]
      + Verdicts(sqrt, config, prices[1..])
  }

  /** Over a whole run: quoting every price in another unit, or from another zero, changes no verdict. */
  lemma {:induction false} UnitDoesNotMatter(sqrt: real -> real, config: Config, c: real, d: real, prices: seq<real>)
    requires IsSqrt(sqrt) && c > 0.0
    ensures Verdicts(sqrt, config, RequotedAll(c, d, prices)) == Verdicts(sqrt, config, prices)
  {
    hide Anomalous, Requoted;
    if prices != [] {
      var before, n := prices[1..], config.anomalyWindowSize;
      UnitDoesNotMatter(sqrt, config, c, d, before);
      RequotedSlice(c, d, prices, 1, |prices|);
      assert RequotedAll(c, d, prices)[1..|prices|] == RequotedAll(c, d, prices)[1..] && prices[1..|prices|] == before;
      RequotedTake(c, d, before, n);
      RequotedVerdict(sqrt, config.anomalyStdDevMultiplier, c, d, Take(n, before), prices[0]);
    }
  }

  lemma RequotedTake(c: real, d: real, xs: seq<real>, n: nat)
    ensures Take(n, RequotedAll(c, d, xs)) == RequotedAll(c, d, Take(n, xs))
  {
    if |xs| > n {
      RequotedSlice(c, d, xs, 0, n);
      assert RequotedAll(c, d, xs)[0..n] == RequotedAll(c, d, xs)[..n] && xs[0..n] == xs[..n];
    }
  }
}

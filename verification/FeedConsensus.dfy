/** security/market-data/feed.consensus.ts: do the price feeds heard in the last 30 seconds agree. */
module FeedConsensus {
  import opened Basics
  import opened ColonKeys
  import opened RealFacts
  import opened TtlStores

  const PRICE_TTL_SECONDS: nat := 30

  datatype Report = Report(instrument: string, source: string, price: real, at: nat)

  datatype SourcePrice = SourcePrice(name: string, price: real)

  datatype ConsensusResult = ConsensusResult(consensus: bool, sources: seq<SourcePrice>, divergencePercent: real)

  function SourceKey(instrument: string, source: string): string {
    Joined(instrument, source)
  }

  // ----- what the reports say

  ghost function LastUnder(h: seq<Report>, key: string): Option<Report> {
    if h == [] then None
    else
      var last := h[|h| - 1];
      if SourceKey(last.instrument, last.source) == key then Some(last) else LastUnder(h[..|h| - 1], key)
  }

  ghost function LastFrom(h: seq<Report>, instrument: string, source: string): Option<Report> {
    if h == [] then None
    else
      var last := h[|h| - 1];
      if last.instrument == instrument && last.source == source then Some(last)
      else LastFrom(h[..|h| - 1], instrument, source)
  }

  ghost predicate Fresh(r: Option<Report>, now: nat) {
    r.Some? && now <= r.value.at + 1000 * PRICE_TTL_SECONDS
  }

  ghost predicate Timed(h: seq<Report>, clock: nat) {
    && (forall i, j :: 0 <= i < j < |h| ==> h[i].at <= h[j].at)
    && (forall i :: 0 <= i < |h| ==> h[i].at <= clock)
  }

  /** The entry under a key is the last report under it, whatever its source. */
  ghost predicate PriceStored(entries: map<string, Entry<real>>, h: seq<Report>, key: string) {
    var r := LastUnder(h, key);
    if r.None? then key !in entries
    else key in entries && entries[key] == Entry(r.value.price, Some(r.value.at + 1000 * PRICE_TTL_SECONDS))
  }

  ghost predicate PricesStored(entries: map<string, Entry<real>>, h: seq<Report>) {
    forall key :: PriceStored(entries, h, key)
  }

  function KnownFor(known: map<string, set<string>>, instrument: string): set<string> {
    if instrument in known then known[instrument] else {}
  }

  /** A source is known if it was heard less than 30 seconds ago, and only if it was ever heard. */
  ghost predicate Remembered(known: map<string, set<string>>, h: seq<Report>, clock: nat, instrument: string,
                             source: string) {
    && (Fresh(LastFrom(h, instrument, source), clock) ==> source in KnownFor(known, instrument))
    && (source in KnownFor(known, instrument) ==> LastFrom(h, instrument, source).Some?)
  }

  ghost predicate AllRemembered(known: map<string, set<string>>, h: seq<Report>, clock: nat) {
    forall instrument, source :: Remembered(known, h, clock, instrument, source)
  }

  /** Price and name of a source, as listed. */
  ghost predicate ListedFrom(s: SourcePrice, h: seq<Report>, instrument: string, now: nat) {
    var r := LastUnder(h, SourceKey(instrument, s.name));
    Fresh(r, now) && s.price == r.value.price && LastFrom(h, instrument, s.name).Some?
  }

  ghost predicate Names(sources: seq<SourcePrice>, name: string) {
    exists i :: 0 <= i < |sources| && sources[i].name == name
  }

  /** Each source once; every fresh one; none that is stale or was never heard. */
  ghost predicate LiveSources(sources: seq<SourcePrice>, h: seq<Report>, instrument: string, now: nat) {
    && (forall i, j :: 0 <= i < j < |sources| ==> sources[i].name != sources[j].name)
    && (forall i :: 0 <= i < |sources| ==> ListedFrom(sources[i], h, instrument, now))
    && (forall name :: Fresh(LastFrom(h, instrument, name), now) ==> Names(sources, name))
  }

  /** Exactly the listed sources stay known. */
  ghost predicate Remembers(known: map<string, set<string>>, instrument: string, sources: seq<SourcePrice>) {
    forall name :: name in KnownFor(known, instrument) <==> Names(sources, name)
  }

  /** Of the sources known before, exactly those whose key is fresh. */
  ghost predicate ListsLive(sources: seq<SourcePrice>, before: set<string>, h: seq<Report>, instrument: string,
                            now: nat) {
    forall name :: Names(sources, name) <==> name in before && Fresh(LastUnder(h, SourceKey(instrument, name)), now)
  }

  lemma NotNamed(sources: seq<SourcePrice>, name: string)
    requires forall i :: 0 <= i < |sources| ==> sources[i].name != name
    ensures !Names(sources, name)
  {
  }

  lemma NoNames()
    ensures forall name :: !Names([], name)
  {
  }

  // ----- instruments that do not share keys

  /** No other instrument reported can share a key with this one. */
  ghost predicate KeysApart(h: seq<Report>, instrument: string) {
    forall i :: 0 <= i < |h| ==> h[i].instrument == instrument || !Meet(h[i].instrument, instrument)
  }

  lemma {:induction false} LastUnderIsLastFrom(h: seq<Report>, instrument: string, source: string)
    requires KeysApart(h, instrument)
    ensures LastUnder(h, SourceKey(instrument, source)) == LastFrom(h, instrument, source)
  {
    hide Joined, Meet;
    if h != [] {
      var last := h[|h| - 1];
      JoinedApart(last.instrument, last.source, instrument, source);
      LastUnderIsLastFrom(h[..|h| - 1], instrument, source);
    }
  }

  /**
   When no other instrument can share its keys, the live sources are exactly those heard in the last 30 s, at their last
   price.
   */
  lemma LiveIffHeardRecently(sources: seq<SourcePrice>, h: seq<Report>, instrument: string, now: nat, name: string)
    requires KeysApart(h, instrument)
    requires LiveSources(sources, h, instrument, now)
    ensures Names(sources, name) <==> Fresh(LastFrom(h, instrument, name), now)
    ensures forall i :: 0 <= i < |sources| && sources[i].name == name ==>
              LastFrom(h, instrument, name).Some? && sources[i].price == LastFrom(h, instrument, name).value.price
  {
    hide LastUnder, LastFrom, KeysApart;
    LastUnderIsLastFrom(h, instrument, name);
    if Names(sources, name) {
      var i :| 0 <= i < |sources| && sources[i].name == name;
      assert ListedFrom(sources[i], h, instrument, now);
    }
  }

  /** Two instruments can share a key exactly if one goes on after the other and a colon. */
  lemma InstrumentsShareAKeyIff(i: string, j: string)
    requires i != j
    ensures (exists s, t :: SourceKey(i, s) == SourceKey(j, t)) <==> i + ":" <= j || j + ":" <= i
  {
    JoinedMeetIff(i, j);
    assert Meet(i, j) <==> i + ":" <= j || j + ":" <= i;
    hide Joined, Meet;
    if s, t :| Joined(i, s) == Joined(j, t) {
      assert SourceKey(i, s) == SourceKey(j, t);
    }
  }

  lemma KeysCanCollide()
    ensures SourceKey("FX:EUR", "a") == SourceKey("FX", "EUR:a")
  {
  }

  /** What a source that shares another instrument's key looks like from outside. */
  ghost predicate StaleIsListed(sources: seq<SourcePrice>, h: seq<Report>, instrument: string, name: string,
                                price: real, now: nat) {
    && (exists i :: 0 <= i < |sources| && sources[i] == SourcePrice(name, price))
    && !Fresh(LastFrom(h, instrument, name), now)
    && forall i :: 0 <= i < |h| && h[i].instrument == instrument && h[i].source == name ==> h[i].price != price
  }

  /**
   Any two instruments that do share a key fail: i's source s, not heard for 40 s, is listed for i at the price
   that j's source t reported. For example i is "FX", s "EUR:a", j "FX:EUR", t "a" and x "b".
   */
  method ListStaleSource(i: string, s: string, j: string, t: string, x: string, p: real, q: real)
    returns (r: ConsensusResult, ghost h: seq<Report>)
    requires i != j && SourceKey(i, s) == SourceKey(j, t) && x != s && p != q
    ensures h == [Report(i, s, p, 0), Report(j, t, q, 40000), Report(i, x, p, 40000)]
    ensures StaleIsListed(r.sources, h, i, s, q, 40000)
  {
    hide FeedConsensus.Valid, IsLowest, IsHighest, Percent, Joined;
    var feed := new FeedConsensus(1.5);
    var first := feed.Check(i, p, s, 0);
    assert s in KnownFor(feed.known, i);
    var second := feed.Check(j, q, t, 40000);
    r := feed.Check(i, p, x, 40000);
    h := feed.history;
    SharedKeyReports(i, s, j, t, x, p, q);
    assert Names(r.sources, s);
    var k :| 0 <= k < |r.sources| && r.sources[k].name == s;
    assert ListedFrom(r.sources[k], h, i, 40000);
  }

  lemma SharedKeyReports(i: string, s: string, j: string, t: string, x: string, p: real, q: real)
    requires i != j && SourceKey(i, s) == SourceKey(j, t) && x != s
    ensures var h := [Report(i, s, p, 0), Report(j, t, q, 40000), Report(i, x, p, 40000)];
            && LastUnder(h, SourceKey(i, s)) == Some(Report(j, t, q, 40000))
            && LastFrom(h, i, s) == Some(Report(i, s, p, 0))
            && LastFrom(h[..1], i, s) == Some(Report(i, s, p, 0))
  {
    var h := [Report(i, s, p, 0), Report(j, t, q, 40000), Report(i, x, p, 40000)];
    JoinedApart(i, s, i, x);
    hide Joined;
    assert h[..2] == [Report(i, s, p, 0), Report(j, t, q, 40000)];
    assert h[..2][..1] == [Report(i, s, p, 0)] == h[..1];
    assert LastFrom(h[..1], i, s) == Some(Report(i, s, p, 0));
    assert LastFrom(h[..2], i, s) == Some(Report(i, s, p, 0));
    assert LastUnder(h[..2], SourceKey(i, s)) == Some(Report(j, t, q, 40000));
  }

  // ----- divergence

  method Highest(sources: seq<SourcePrice>) returns (highest: real)
    requires sources != []
    ensures exists i :: 0 <= i < |sources| && sources[i].price == highest
    ensures forall i :: 0 <= i < |sources| ==> sources[i].price <= highest
  {
    highest := sources[0].price;
    for n := 1 to |sources|
      invariant exists i :: 0 <= i < n && sources[i].price == highest
      invariant forall i :: 0 <= i < n ==> sources[i].price <= highest
    {
      if sources[n].price > highest {
        highest := sources[n].price;
      }
    }
  }

  method Lowest(sources: seq<SourcePrice>) returns (lowest: real)
    requires sources != []
    ensures exists i :: 0 <= i < |sources| && sources[i].price == lowest
    ensures forall i :: 0 <= i < |sources| ==> sources[i].price >= lowest
  {
    lowest := sources[0].price;
    for n := 1 to |sources|
      invariant exists i :: 0 <= i < n && sources[i].price == lowest
      invariant forall i :: 0 <= i < n ==> sources[i].price >= lowest
    {
      if sources[n].price < lowest {
        lowest := sources[n].price;
      }
    }
  }

  /** By how many percent q lies above p. */
  function Percent(p: real, q: real): real {
    if p == 0.0 then 100.0 else Ratio(q - p, p) * 100.0
  }

  /** Some source lies more than threshold percent above another. */
  ghost predicate SomePairDiverges(sources: seq<SourcePrice>, threshold: real) {
    exists i, j :: 0 <= i < |sources| && 0 <= j < |sources| && i != j
                   && sources[i].price <= sources[j].price && Percent(sources[i].price, sources[j].price) > threshold
  }

  ghost predicate IsLowest(sources: seq<SourcePrice>, lowest: real) {
    && (exists i :: 0 <= i < |sources| && sources[i].price == lowest)
    && (forall i :: 0 <= i < |sources| ==> sources[i].price >= lowest)
  }

  ghost predicate IsHighest(sources: seq<SourcePrice>, highest: real) {
    && (exists i :: 0 <= i < |sources| && sources[i].price == highest)
    && (forall i :: 0 <= i < |sources| ==> sources[i].price <= highest)
  }

  lemma PercentMonotone(p: real, p': real, q': real, q: real)
    requires 0.0 < p <= p' <= q' <= q
    ensures 0.0 <= Percent(p', q') <= Percent(p, q)
  {
    var r', r := Ratio(q' - p', p'), Ratio(q - p, p);
    QuotientTimes(q' - p', p');
    QuotientTimes(q - p, p);
    QuotientNonNegative(q - p, p);
    QuotientNonNegative(q' - p', p');
    ProductMonotone(p, p', r');
    if r < r' {
      ProductStrict(r, r', p);
    }
  }

  lemma PercentOfNegative(p: real, q: real)
    requires p < 0.0 && p <= q
    ensures Percent(p, q) <= 0.0
  {
    var t := (q - p) / -p;
    QuotientNonNegative(q - p, -p);
    QuotientTimes(q - p, -p);
    QuotientIs(q - p, p, -t);
  }

  /**
   The value of the test on the extremes: for a positive lowest price it finds a divergence exactly if some pair of
   sources diverges; for a lowest price of 0 exactly if the threshold is below 100; for a negative one never.
   */
  lemma ExtremesDivergeIff(sources: seq<SourcePrice>, lowest: real, highest: real, threshold: real)
    requires |sources| >= 2 && threshold >= 0.0
    requires IsLowest(sources, lowest) && IsHighest(sources, highest)
    ensures Percent(lowest, highest) > threshold <==>
              if lowest > 0.0 then SomePairDiverges(sources, threshold) else lowest == 0.0 && threshold < 100.0
  {
    hide Percent;
    if lowest > 0.0 {
      PositivePricesDivergeIff(sources, lowest, highest, threshold);
    } else if lowest == 0.0 {
      PercentOfZero(highest);
    } else {
      PercentOfNegative(lowest, highest);
    }
  }

  lemma PositivePricesDivergeIff(sources: seq<SourcePrice>, lowest: real, highest: real, threshold: real)
    requires lowest > 0.0 && threshold >= 0.0
    requires IsLowest(sources, lowest) && IsHighest(sources, highest)
    ensures Percent(lowest, highest) > threshold <==> SomePairDiverges(sources, threshold)
  {
    hide Percent;
    var i :| 0 <= i < |sources| && sources[i].price == lowest;
    var j :| 0 <= j < |sources| && sources[j].price == highest;
    NoPercent(lowest);
    if SomePairDiverges(sources, threshold) {
      var i', j' :| 0 <= i' < |sources| && 0 <= j' < |sources| && i' != j'
                    && sources[i'].price <= sources[j'].price
                    && Percent(sources[i'].price, sources[j'].price) > threshold;
      PercentMonotone(lowest, sources[i'].price, sources[j'].price, highest);
    }
  }

  /** The test on the extremes and the pairwise test agree on this list, if its extremes are these. */
  ghost predicate TestsAgree(sources: seq<SourcePrice>, lowest: real, highest: real, threshold: real) {
    |sources| >= 2 && IsLowest(sources, lowest) && IsHighest(sources, highest) ==>
      (Percent(lowest, highest) > threshold <==> SomePairDiverges(sources, threshold))
  }

  /**
   The two tests agree on all lists with this lowest price, exactly if it is positive, or 0 under a threshold below 100.
   The guard that calls check validates prices as positive, so there they always agree; check itself takes any number.
   */
  lemma ExtremesTestIsPairwiseIff(lowest: real, threshold: real)
    requires threshold >= 0.0
    ensures (forall sources, highest :: TestsAgree(sources, lowest, highest, threshold)) <==>
            lowest > 0.0 || (lowest == 0.0 && threshold < 100.0)
  {
    hide Percent, SomePairDiverges, IsLowest, IsHighest;
    if lowest > 0.0 || (lowest == 0.0 && threshold < 100.0) {
      forall sources, highest | |sources| >= 2 && IsLowest(sources, lowest) && IsHighest(sources, highest)
        ensures TestsAgree(sources, lowest, highest, threshold)
      {
        ExtremesDivergeIff(sources, lowest, highest, threshold);
        if lowest == 0.0 {
          ZeroDiverges(sources, threshold);
        }
      }
    } else {
      LowPriceHidesDivergence(lowest, threshold);
    }
  }

  lemma ZeroDiverges(sources: seq<SourcePrice>, threshold: real)
    requires |sources| >= 2 && IsLowest(sources, 0.0) && threshold < 100.0
    ensures SomePairDiverges(sources, threshold)
  {
    var i :| 0 <= i < |sources| && sources[i].price == 0.0;
    var j := if i == 0 then 1 else 0;
    PercentOfZero(sources[j].price);
    assert Percent(sources[i].price, sources[j].price) > threshold;
  }

  /** A low price beside two others that diverge. */
  function WithLowPrice(lowest: real, threshold: real): seq<SourcePrice> {
    [SourcePrice("a", lowest), SourcePrice("b", 1.0), SourcePrice("c", threshold + 2.0)]
  }

  lemma LowPriceHidesDivergence(lowest: real, threshold: real)
    requires threshold >= 0.0 && (lowest < 0.0 || (lowest == 0.0 && threshold >= 100.0))
    ensures var sources := WithLowPrice(lowest, threshold);
            && IsLowest(sources, lowest) && IsHighest(sources, threshold + 2.0)
            && SomePairDiverges(sources, threshold) && Percent(lowest, threshold + 2.0) <= threshold
            && !TestsAgree(sources, lowest, threshold + 2.0, threshold)
  {
    var sources := WithLowPrice(lowest, threshold);
    assert sources[0].price == lowest && sources[2].price == threshold + 2.0;
    assert Percent(sources[1].price, sources[2].price) == (threshold + 1.0) * 100.0;
    ExtremesDivergeIff(sources, lowest, threshold + 2.0, threshold);
  }

  /** For example a price of 0 under the highest threshold the config admits. */
  lemma ZeroHidesDivergence()
    ensures !TestsAgree(WithLowPrice(0.0, 100.0), 0.0, 102.0, 100.0)
  {
    LowPriceHidesDivergence(0.0, 100.0);
  }

  lemma NoPercent(p: real)
    requires p != 0.0
    ensures Percent(p, p) == 0.0
  {
    QuotientIs(0.0, p, 0.0);
  }

  lemma PercentOfZero(q: real)
    ensures Percent(0.0, q) == 100.0
  {
  }

  // ----- in figures

  lemma PercentTimes(p: real, q: real)
    requires p != 0.0
    ensures Percent(p, q) * p == 100.0 * (q - p)
  {
    QuotientTimes(q - p, p);
    Associate(Ratio(q - p, p), 100.0, p);
    Associate(Ratio(q - p, p), p, 100.0);
  }

  /** Against a positive lowest price: more than threshold percent of it lie between the highest and the lowest. */
  lemma DivergenceInFigures(lowest: real, highest: real, threshold: real)
    ensures lowest > 0.0 ==> (Percent(lowest, highest) > threshold <==> 100.0 * (highest - lowest) > threshold * lowest)
    ensures lowest == 0.0 ==> Percent(lowest, highest) == 100.0
  {
    if lowest > 0.0 {
      PercentTimes(lowest, highest);
      var percent := Percent(lowest, highest);
      hide Percent;
      if percent > threshold {
        ProductStrict(threshold, percent, lowest);
      } else {
        ProductMonotone(percent, threshold, lowest);
      }
    }
  }

  /** A report is fresh for 30 seconds, the last millisecond included. */
  lemma FreshFor(r: Report, now: nat)
    ensures Fresh(Some(r), now) <==> now <= r.at + 30000
  {
  }

  // ----- the class

  class FeedConsensus {
    const threshold: real
    const prices: TtlStore<string, real>
    var known: map<string, set<string>>
    ghost var history: seq<Report>
    ghost var clock: nat

    ghost predicate Valid()
      reads this, prices
    {
      PricesStored(prices.entries, history) && AllRemembered(known, history, clock) && Timed(history, clock)
    }

    constructor (threshold: real)
      ensures Valid() && history == [] && clock == 0 && this.threshold == threshold && fresh(prices)
    {
      this.threshold := threshold;
      prices := new TtlStore();
      known := map[];
      history := [];
      clock := 0;
    }

    /** Files the report, then compares the highest with the lowest of the live prices. */
    method Check(instrument: string, price: real, source: string, now: nat) returns (result: ConsensusResult)
      requires Valid() && clock <= now
      modifies this, prices
      ensures Valid() && clock == now && history == old(history) + [Report(instrument, source, price, now)]
      ensures LiveSources(result.sources, history, instrument, now)
      ensures Remembers(known, instrument, result.sources)
      ensures ListsLive(result.sources, KnownFor(old(known), instrument) + {source}, history, instrument, now)
      ensures forall k :: k != instrument ==> KnownFor(known, k) == KnownFor(old(known), k)
      ensures |result.sources| < 2 ==> result.consensus && result.divergencePercent == 0.0
      ensures |result.sources| >= 2 ==>
                exists lowest, highest :: && IsLowest(result.sources, lowest) && IsHighest(result.sources, highest)
                                          && result.divergencePercent == Percent(lowest, highest)
                                          && (result.consensus <==> Percent(lowest, highest) <= threshold)
    {
      hide Percent, PricesStored, AllRemembered, LiveSources, IsLowest, IsHighest, Timed;
      prices.SetEx(SourceKey(instrument, source), PRICE_TTL_SECONDS, price, now);
      known := known[instrument := KnownFor(known, instrument) + {source}];
      ghost var was := history;
      history := history + [Report(instrument, source, price, now)];
      clock := now;
      FiledReport(old(prices.entries), old(known), was, old(clock), Report(instrument, source, price, now));

      var liveSources := Collect(instrument, now);
      if |liveSources| < 2 {
        return ConsensusResult(true, liveSources, 0.0);
      }
      var highest := Highest(liveSources);
      var lowest := Lowest(liveSources);
      AreExtremes(liveSources, lowest, highest);
      var divergencePercent := Percent(lowest, highest);
      if divergencePercent > threshold {
        return ConsensusResult(false, liveSources, divergencePercent);
      }
      return ConsensusResult(true, liveSources, divergencePercent);
    }

    /** Lists the known sources that are still live, and forgets exactly the others. */
    method Collect(instrument: string, now: nat) returns (liveSources: seq<SourcePrice>)
      requires Valid() && clock == now
      modifies this
      ensures Valid() && clock == now && history == old(history)
      ensures LiveSources(liveSources, history, instrument, now)
      ensures Remembers(known, instrument, liveSources)
      ensures ListsLive(liveSources, KnownFor(old(known), instrument), history, instrument, now)
      ensures forall k :: k != instrument ==> KnownFor(known, k) == KnownFor(old(known), k)
    {
      hide PricesStored, AllRemembered, LastUnder, LastFrom, SourceKey, Names, ListedFrom, Timed;
      var knownSources := KnownFor(known, instrument);
      liveSources := [];
      FreshIsKnown(known, history, now, instrument);
      NoNames();
      while knownSources != {}
        invariant PricesStored(prices.entries, history) && AllRemembered(known, history, clock) && Timed(history, clock)
        invariant prices.entries == old(prices.entries) && history == old(history) && clock == now
        invariant knownSources <= KnownFor(known, instrument)
        invariant forall i :: 0 <= i < |liveSources| ==> liveSources[i].name !in knownSources
        invariant forall i, j :: 0 <= i < j < |liveSources| ==> liveSources[i].name != liveSources[j].name
        invariant forall i :: 0 <= i < |liveSources| ==> ListedFrom(liveSources[i], history, instrument, now)
        invariant forall name :: name in KnownFor(known, instrument) <==>
                    name in knownSources || Names(liveSources, name)
        invariant forall k :: k != instrument ==> KnownFor(known, k) == KnownFor(old(known), k)
        invariant knownSources <= KnownFor(old(known), instrument)
        invariant forall name :: Names(liveSources, name) <==>
                    && name in KnownFor(old(known), instrument) - knownSources
                    && Fresh(LastUnder(history, SourceKey(instrument, name)), now)
        invariant forall name :: Fresh(LastFrom(history, instrument, name), now) ==>
                                   name in knownSources || Names(liveSources, name)
        decreases knownSources
      {
        var srcName :| srcName in knownSources;
        knownSources := knownSources - {srcName};
        var raw := prices.Get(SourceKey(instrument, srcName), now);
        ReadPrice(prices.entries, known, history, now, instrument, srcName);
        if raw.Some? {
          NamesAppend(liveSources, SourcePrice(srcName, raw.value));
          liveSources := liveSources + [SourcePrice(srcName, raw.value)];
        } else {
          ForgetStale(known, history, now, instrument, srcName);
          NotNamed(liveSources, srcName);
          known := known[instrument := KnownFor(known, instrument) - {srcName}];
        }
      }
    }
  }

  lemma AreExtremes(sources: seq<SourcePrice>, lowest: real, highest: real)
    requires exists i :: 0 <= i < |sources| && sources[i].price == lowest
    requires forall i :: 0 <= i < |sources| ==> sources[i].price >= lowest
    requires exists i :: 0 <= i < |sources| && sources[i].price == highest
    requires forall i :: 0 <= i < |sources| ==> sources[i].price <= highest
    ensures IsLowest(sources, lowest) && IsHighest(sources, highest)
  {
  }

  lemma NamesAppend(sources: seq<SourcePrice>, s: SourcePrice)
    ensures forall name :: Names(sources + [s], name) <==> Names(sources, name) || name == s.name
  {
    forall name | Names(sources, name) || name == s.name
      ensures Names(sources + [s], name)
    {
      if Names(sources, name) {
        var i :| 0 <= i < |sources| && sources[i].name == name;
        assert (sources + [s])[i].name == name;
      } else {
        assert (sources + [s])[|sources|].name == name;
      }
    }
  }

  lemma {:induction false} LastUnderIsNoEarlier(h: seq<Report>, clock: nat, instrument: string, source: string)
    requires Timed(h, clock) && LastFrom(h, instrument, source).Some?
    ensures var key := SourceKey(instrument, source);
            LastUnder(h, key).Some? && LastFrom(h, instrument, source).value.at <= LastUnder(h, key).value.at <= clock
  {
    var last := h[|h| - 1];
    if SourceKey(last.instrument, last.source) != SourceKey(instrument, source) {
      LastUnderIsNoEarlier(h[..|h| - 1], clock, instrument, source);
    } else if last.instrument != instrument || last.source != source {
      LastUnderIsNoEarlier(h[..|h| - 1], last.at, instrument, source);
    }
  }

  lemma FiledReport(entries: map<string, Entry<real>>, known: map<string, set<string>>, h: seq<Report>, clock: nat,
                    r: Report)
    requires PricesStored(entries, h) && AllRemembered(known, h, clock) && Timed(h, clock) && clock <= r.at
    ensures PricesStored(entries[SourceKey(r.instrument, r.source) :=
              Entry(r.price, Some(r.at + 1000 * PRICE_TTL_SECONDS))], h + [r])
    ensures AllRemembered(known[r.instrument := KnownFor(known, r.instrument) + {r.source}], h + [r], r.at)
    ensures Timed(h + [r], r.at)
  {
    hide SourceKey;
    var more := h + [r];
    assert more[..|h|] == h;
    var entries' := entries[SourceKey(r.instrument, r.source) := Entry(r.price, Some(r.at + 1000 * PRICE_TTL_SECONDS))];
    forall key
      ensures PriceStored(entries', more, key)
    {
      assert PriceStored(entries, h, key);
    }
    var known' := known[r.instrument := KnownFor(known, r.instrument) + {r.source}];
    forall instrument, source
      ensures Remembered(known', more, r.at, instrument, source)
    {
      assert Remembered(known, h, clock, instrument, source);
    }
  }

  lemma ReadPrice(entries: map<string, Entry<real>>, known: map<string, set<string>>, h: seq<Report>, now: nat,
                  instrument: string, name: string)
    requires PricesStored(entries, h) && AllRemembered(known, h, now) && Timed(h, now)
    requires name in KnownFor(known, instrument)
    ensures var raw := LookupIn(entries, SourceKey(instrument, name), now);
            && (raw.Some? <==> Fresh(LastUnder(h, SourceKey(instrument, name)), now))
            && if raw.Some? then ListedFrom(SourcePrice(name, raw.value), h, instrument, now)
               else !Fresh(LastFrom(h, instrument, name), now)
  {
    hide SourceKey, LastUnder, LastFrom;
    assert Remembered(known, h, now, instrument, name);
    assert PriceStored(entries, h, SourceKey(instrument, name));
    LastUnderIsNoEarlier(h, now, instrument, name);
  }

  lemma FreshIsKnown(known: map<string, set<string>>, h: seq<Report>, now: nat, instrument: string)
    requires AllRemembered(known, h, now)
    ensures forall name :: Fresh(LastFrom(h, instrument, name), now) ==> name in KnownFor(known, instrument)
  {
    hide LastFrom;
    forall name | Fresh(LastFrom(h, instrument, name), now)
      ensures name in KnownFor(known, instrument)
    {
      assert Remembered(known, h, now, instrument, name);
    }
  }

  lemma ForgetStale(known: map<string, set<string>>, h: seq<Report>, now: nat, instrument: string, name: string)
    requires AllRemembered(known, h, now) && !Fresh(LastFrom(h, instrument, name), now)
    ensures AllRemembered(known[instrument := KnownFor(known, instrument) - {name}], h, now)
  {
    hide LastFrom;
    var known' := known[instrument := KnownFor(known, instrument) - {name}];
    forall i, s
      ensures Remembered(known', h, now, i, s)
    {
      assert Remembered(known, h, now, i, s);
    }
  }
}

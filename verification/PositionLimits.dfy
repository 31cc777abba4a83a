/** security/risk/position.limits.ts: quantity, notional and short-sale limits of an order. */
module PositionLimits {
  import opened Basics
  import opened RealFacts

  datatype Side = BUY | SELL

  datatype PlaceOrder = PlaceOrder(instrument: string, side: Side, quantity: real, price: Option<real>)

  datatype Position = Position(instrument: string, quantity: real, currentPrice: real, notionalValue: real)

  datatype Portfolio = Portfolio(positions: seq<Position>, totalNotional: real, totalUnrealizedPnl: real)

  datatype Config = Config(positionLimitsPerInstrument: map<string, real>, portfolioNotionalLimit: real)

  datatype Limit = InstrumentQuantity | InstrumentNotional | PortfolioNotional | ShortSell

  datatype LimitBreach = LimitBreach(limit: Limit, current: real, maximum: real)

  /** The first position in the instrument, as Array.find returns it. */
  function Find(positions: seq<Position>, instrument: string): (p: Option<Position>)
    ensures p.Some? ==> p.value in positions && p.value.instrument == instrument
    ensures p.None? ==> forall q :: q in positions ==> q.instrument != instrument
  {
    if positions == [] then None
    else if positions[0].instrument == instrument then Some(positions[0])
    else Find(positions[1..], instrument)
  }

  function CurrentQuantity(instrument: string, portfolio: Portfolio): real {
    var p := Find(portfolio.positions, instrument);
    if p.Some? then p.value.quantity else 0.0
  }

  function CurrentNotional(instrument: string, portfolio: Portfolio): real {
    var p := Find(portfolio.positions, instrument);
    if p.Some? then p.value.notionalValue else 0.0
  }

  /** The limit price of the order, else the mark of the position held, else 0. */
  function EstimatedPrice(action: PlaceOrder, portfolio: Portfolio): real {
    if action.price.Some? && action.price.value > 0.0 then action.price.value
    else
      var p := Find(portfolio.positions, action.instrument);
      if p.Some? then p.value.currentPrice else 0.0
  }

  // ----- booking an order

  function Notional(quantity: real, price: real): real {
    quantity * price
  }

  /** The position list after `change` units, worth `worth`, are added to the first position in the instrument. */
  ghost function Adjusted(positions: seq<Position>, instrument: string, change: real, price: real,
                          worth: real): seq<Position> {
    if positions == [] then
      [Position(instrument, change, price, worth)]
    else if positions[0].instrument == instrument then
      [positions[0].(quantity := positions[0].quantity + change, notionalValue := positions[0].notionalValue + worth)]
      + positions[1..]
    else
      [positions[0]] + Adjusted(positions[1..], instrument, change, price, worth)
  }

  function Signed(action: PlaceOrder, x: real): real {
    if action.side == BUY then x else -x
  }

  /** The portfolio after the order is filled whole at its estimated price, with every mark unchanged. */
  ghost function Booked(action: PlaceOrder, portfolio: Portfolio): Portfolio {
    var price := EstimatedPrice(action, portfolio);
    var change, worth := Signed(action, action.quantity), Signed(action, Notional(action.quantity, price));
    portfolio.(positions := Adjusted(portfolio.positions, action.instrument, change, price, worth),
               totalNotional := portfolio.totalNotional + worth)
  }

  // ----- the checks, as conditions on the portfolio in which the order is booked

  ghost predicate QuantityWithin(c: Config, action: PlaceOrder, portfolio: Portfolio) {
    action.instrument in c.positionLimitsPerInstrument ==>
      QuantityBreach(c, action, portfolio).current <= QuantityBreach(c, action, portfolio).maximum
  }

  ghost predicate NotionalWithin(c: Config, action: PlaceOrder, portfolio: Portfolio) {
    EstimatedPrice(action, portfolio) > 0.0 && action.instrument in c.positionLimitsPerInstrument ==>
      NotionalBreach(c, action, portfolio).current <= NotionalBreach(c, action, portfolio).maximum
  }

  ghost predicate TotalWithin(c: Config, action: PlaceOrder, portfolio: Portfolio) {
    TotalBreach(c, action, portfolio).current <= c.portfolioNotionalLimit
  }

  ghost predicate NotShort(action: PlaceOrder, portfolio: Portfolio) {
    action.side == SELL ==> CurrentQuantity(action.instrument, Booked(action, portfolio)) >= 0.0
  }

  ghost predicate Passes(c: Config, action: PlaceOrder, portfolio: Portfolio) {
    && QuantityWithin(c, action, portfolio)
    && NotionalWithin(c, action, portfolio)
    && TotalWithin(c, action, portfolio)
    && NotShort(action, portfolio)
  }

  function LimitFor(c: Config, instrument: string): real {
    if instrument in c.positionLimitsPerInstrument then c.positionLimitsPerInstrument[instrument] else 0.0
  }

  ghost function QuantityBreach(c: Config, action: PlaceOrder, portfolio: Portfolio): LimitBreach {
    LimitBreach(InstrumentQuantity, Abs(CurrentQuantity(action.instrument, Booked(action, portfolio))),
                LimitFor(c, action.instrument))
  }

  ghost function NotionalBreach(c: Config, action: PlaceOrder, portfolio: Portfolio): LimitBreach {
    var booked := CurrentNotional(action.instrument, Booked(action, portfolio));
    LimitBreach(InstrumentNotional, if action.side == BUY then booked else Abs(booked),
                Notional(LimitFor(c, action.instrument), EstimatedPrice(action, portfolio)))
  }

  /** A sale is judged by the total before it. */
  ghost function TotalBreach(c: Config, action: PlaceOrder, portfolio: Portfolio): LimitBreach {
    LimitBreach(PortfolioNotional, (if action.side == BUY then Booked(action, portfolio) else portfolio).totalNotional,
                c.portfolioNotionalLimit)
  }

  ghost function ShortBreach(action: PlaceOrder, portfolio: Portfolio): LimitBreach {
    LimitBreach(ShortSell, -CurrentQuantity(action.instrument, Booked(action, portfolio)), 0.0)
  }

  ghost function OneIf(breached: bool, breach: LimitBreach): seq<LimitBreach> {
    if breached then [breach] else []
  }

  /** The limits the order would break, in the order of the checks. */
  ghost function BreachesOf(c: Config, action: PlaceOrder, portfolio: Portfolio): (breaches: seq<LimitBreach>)
    ensures breaches == [] <==> Passes(c, action, portfolio)
  {
    OneIf(!QuantityWithin(c, action, portfolio), QuantityBreach(c, action, portfolio))
    + OneIf(!NotionalWithin(c, action, portfolio), NotionalBreach(c, action, portfolio))
    + OneIf(!TotalWithin(c, action, portfolio), TotalBreach(c, action, portfolio))
    + OneIf(!NotShort(action, portfolio), ShortBreach(action, portfolio))
  }

  // ----- the four checks

  class PositionLimitsChecker {
    const config: Config

    constructor (config: Config)
      ensures this.config == config
    {
      this.config := config;
    }

    /**
     Passes if the booked portfolio is within every limit; otherwise names each limit it would break, and by what
     figure.
     */
    method Check(action: PlaceOrder, portfolio: Portfolio) returns (passed: bool, breaches: seq<LimitBreach>)
      ensures passed <==> breaches == []
      ensures passed <==> Passes(config, action, portfolio)
      ensures breaches == BreachesOf(config, action, portfolio)
    {
      hide QuantityWithin, NotionalWithin, TotalWithin, NotShort, QuantityBreach, NotionalBreach, TotalBreach,
          ShortBreach;
      breaches := [];
      breaches := CheckInstrumentQuantityLimit(action, portfolio, breaches);
      breaches := CheckInstrumentNotionalLimit(action, portfolio, breaches);
      breaches := CheckPortfolioNotionalLimit(action, portfolio, breaches);
      breaches := CheckShortSellingRules(action, portfolio, breaches);
      passed := |breaches| == 0;
    }

    method CheckInstrumentQuantityLimit(action: PlaceOrder, portfolio: Portfolio, breaches: seq<LimitBreach>)
      returns (r: seq<LimitBreach>)
      ensures r == breaches + OneIf(!QuantityWithin(config, action, portfolio),
                QuantityBreach(config, action, portfolio))
    {
      BookedPosition(action, portfolio);
      hide Booked, Find, Notional;
      if action.instrument !in config.positionLimitsPerInstrument {
        return breaches;
      }
      var maxQuantity := config.positionLimitsPerInstrument[action.instrument];
      var currentQty := CurrentQuantity(action.instrument, portfolio);
      var projectedQty := if action.side == BUY then currentQty + action.quantity else currentQty - action.quantity;
      r := breaches;
      if Abs(projectedQty) > maxQuantity {
        r := r + [LimitBreach(InstrumentQuantity, Abs(projectedQty), maxQuantity)];
      }
    }

    method CheckInstrumentNotionalLimit(action: PlaceOrder, portfolio: Portfolio, breaches: seq<LimitBreach>)
      returns (r: seq<LimitBreach>)
      ensures r == breaches + OneIf(!NotionalWithin(config, action, portfolio),
                NotionalBreach(config, action, portfolio))
    {
      BookedPosition(action, portfolio);
      hide Booked, Find, Notional;
      var price := EstimatedPrice(action, portfolio);
      if price <= 0.0 || action.instrument !in config.positionLimitsPerInstrument {
        return breaches;
      }
      var maxNotional := Notional(config.positionLimitsPerInstrument[action.instrument], price);
      var currentNotional := CurrentNotional(action.instrument, portfolio);
      var orderNotional := Notional(action.quantity, price);
      var projectedNotional :=
        if action.side == BUY then currentNotional + orderNotional else Abs(currentNotional - orderNotional);
      r := breaches;
      if projectedNotional > maxNotional {
        r := r + [LimitBreach(InstrumentNotional, projectedNotional, maxNotional)];
      }
    }

    method CheckPortfolioNotionalLimit(action: PlaceOrder, portfolio: Portfolio, breaches: seq<LimitBreach>)
      returns (r: seq<LimitBreach>)
      ensures r == breaches + OneIf(!TotalWithin(config, action, portfolio), TotalBreach(config, action, portfolio))
    {
      hide Notional;
      var orderNotional := Notional(action.quantity, EstimatedPrice(action, portfolio));
      var projectedTotal := if action.side == BUY then portfolio.totalNotional + orderNotional
          else portfolio.totalNotional;
      r := breaches;
      if projectedTotal > config.portfolioNotionalLimit {
        r := r + [LimitBreach(PortfolioNotional, projectedTotal, config.portfolioNotionalLimit)];
      }
    }

    method CheckShortSellingRules(action: PlaceOrder, portfolio: Portfolio, breaches: seq<LimitBreach>)
      returns (r: seq<LimitBreach>)
      ensures r == breaches + OneIf(!NotShort(action, portfolio), ShortBreach(action, portfolio))
    {
      BookedPosition(action, portfolio);
      hide Booked, Find, Notional;
      r := breaches;
      if action.side != SELL {
        return;
      }
      var currentQty := CurrentQuantity(action.instrument, portfolio);
      if action.quantity > currentQty {
        r := r + [LimitBreach(ShortSell, action.quantity - currentQty, 0.0)];
      }
    }
  }

  // ----- the checks in figures

  ghost predicate FirstIn(positions: seq<Position>, instrument: string, i: nat) {
    && i < |positions| && positions[i].instrument == instrument
    && forall j :: 0 <= j < i ==> positions[j].instrument != instrument
  }

  lemma {:induction false} FindIsFirst(positions: seq<Position>, instrument: string, i: nat)
    requires FirstIn(positions, instrument, i)
    ensures Find(positions, instrument) == Some(positions[i])
  {
    if i > 0 {
      FindIsFirst(positions[1..], instrument, i - 1);
    }
  }

  /** The order's own price if positive, else the mark of the first position in the instrument, else 0. */
  lemma PriceInFigures(action: PlaceOrder, portfolio: Portfolio)
    ensures action.price.Some? && action.price.value > 0.0 ==> EstimatedPrice(action, portfolio) == action.price.value
    ensures action.price.None? || action.price.value <= 0.0 ==>
              && (forall i: nat :: FirstIn(portfolio.positions, action.instrument, i) ==>
                    EstimatedPrice(action, portfolio) == portfolio.positions[i].currentPrice)
              && ((forall p :: p in portfolio.positions ==> p.instrument != action.instrument) ==>
                    EstimatedPrice(action, portfolio) == 0.0)
  {
    hide Find;
    forall i: nat | FirstIn(portfolio.positions, action.instrument, i)
      ensures Find(portfolio.positions, action.instrument) == Some(portfolio.positions[i])
    {
      FindIsFirst(portfolio.positions, action.instrument, i);
    }
  }

  /** What the four checks compare, with q the quantity, p the estimated price, held and worth what is held already. */
  lemma QuantityInFigures(c: Config, action: PlaceOrder, portfolio: Portfolio)
    requires action.instrument in c.positionLimitsPerInstrument
    ensures var held := CurrentQuantity(action.instrument, portfolio);
            var most := c.positionLimitsPerInstrument[action.instrument];
            var projected := if action.side == BUY then held + action.quantity else held - action.quantity;
            QuantityWithin(c, action, portfolio) <==> -most <= projected <= most
  {
    BookedPosition(action, portfolio);
    hide Booked, CurrentQuantity;
  }

  lemma NotionalInFigures(c: Config, action: PlaceOrder, portfolio: Portfolio)
    requires action.instrument in c.positionLimitsPerInstrument
    ensures var p, worth := EstimatedPrice(action, portfolio), CurrentNotional(action.instrument, portfolio);
            var order, most := action.quantity * p, c.positionLimitsPerInstrument[action.instrument] * p;
            NotionalWithin(c, action, portfolio) <==>
            p <= 0.0 || (if action.side == BUY then worth + order <= most else -most <= worth - order <= most)
  {
    BookedPosition(action, portfolio);
    hide Booked, CurrentNotional, EstimatedPrice;
    var p := EstimatedPrice(action, portfolio);
    assert Notional(action.quantity, p) == action.quantity * p;
    assert Notional(LimitFor(c, action.instrument), p) == c.positionLimitsPerInstrument[action.instrument] * p;
    hide Notional;
  }

  lemma TotalInFigures(c: Config, action: PlaceOrder, portfolio: Portfolio)
    ensures var order := action.quantity * EstimatedPrice(action, portfolio);
            TotalWithin(c, action, portfolio) <==>
            portfolio.totalNotional + (if action.side == BUY then order else 0.0) <= c.portfolioNotionalLimit
  {
    hide EstimatedPrice, Adjusted;
    var p := EstimatedPrice(action, portfolio);
    assert Notional(action.quantity, p) == action.quantity * p;
    hide Notional;
  }

  lemma ShortInFigures(action: PlaceOrder, portfolio: Portfolio)
    ensures NotShort(action, portfolio) <==>
            action.side == BUY || action.quantity <= CurrentQuantity(action.instrument, portfolio)
  {
    BookedPosition(action, portfolio);
    hide Booked, CurrentQuantity;
  }

  // ----- booking the orders that passed

  lemma {:induction false} AdjustedPosition(positions: seq<Position>, instrument: string, change: real, price: real,
                                            worth: real, other: string)
    ensures var before, after := Find(positions, other),
              Find(Adjusted(positions, instrument, change, price, worth), other);
            if other == instrument
            then after.Some?
              && after.value.quantity == (if before.Some? then before.value.quantity else 0.0) + change
              && after.value.notionalValue == (if before.Some? then before.value.notionalValue else 0.0) + worth
            else after == before
  {
    var adjusted := Adjusted(positions, instrument, change, price, worth);
    if positions == [] {
      assert adjusted[1..] == [];
    } else if positions[0].instrument == instrument {
      assert adjusted[1..] == positions[1..];
    } else {
      assert adjusted[1..] == Adjusted(positions[1..], instrument, change, price, worth);
      AdjustedPosition(positions[1..], instrument, change, price, worth, other);
    }
  }

  lemma BookedPosition(action: PlaceOrder, portfolio: Portfolio)
    ensures CurrentQuantity(action.instrument, Booked(action, portfolio)) ==
            CurrentQuantity(action.instrument, portfolio) + Signed(action, action.quantity)
    ensures CurrentNotional(action.instrument, Booked(action, portfolio)) ==
            CurrentNotional(action.instrument, portfolio)
            + Signed(action, Notional(action.quantity, EstimatedPrice(action, portfolio)))
  {
    hide Notional;
    var price := EstimatedPrice(action, portfolio);
    AdjustedPosition(portfolio.positions, action.instrument, Signed(action, action.quantity), price,
                     Signed(action, Notional(action.quantity, price)), action.instrument);
  }

  lemma OtherPositions(action: PlaceOrder, portfolio: Portfolio, i: string)
    requires i != action.instrument
    ensures CurrentQuantity(i, Booked(action, portfolio)) == CurrentQuantity(i, portfolio)
  {
    hide Notional;
    var price := EstimatedPrice(action, portfolio);
    AdjustedPosition(portfolio.positions, action.instrument, Signed(action, action.quantity), price,
                     Signed(action, Notional(action.quantity, price)), i);
  }

  lemma BookedTotal(action: PlaceOrder, portfolio: Portfolio)
    requires action.side == SELL && action.quantity > 0.0 && EstimatedPrice(action, portfolio) > 0.0
    ensures Booked(action, portfolio).totalNotional < portfolio.totalNotional
  {
    assert Notional(action.quantity, EstimatedPrice(action, portfolio)) > 0.0;
  }

  /** No position is short, limited ones are within their limits, and so is the total. */
  ghost predicate WithinLimits(c: Config, portfolio: Portfolio) {
    && (forall i :: CurrentQuantity(i, portfolio) >= 0.0)
    && (forall i :: i in c.positionLimitsPerInstrument ==>
        CurrentQuantity(i, portfolio) <= c.positionLimitsPerInstrument[i])
    && portfolio.totalNotional <= c.portfolioNotionalLimit
  }

  /**
   Orders each of which passes the check, has a positive quantity and estimated price, and is booked before the next.
   */
  ghost predicate PassedRun(c: Config, start: Portfolio, actions: seq<PlaceOrder>)
    decreases |actions|
  {
    actions == [] ||
    (&& Passes(c, actions[0], start)
     && actions[0].quantity > 0.0 && EstimatedPrice(actions[0], start) > 0.0
     && PassedRun(c, Booked(actions[0], start), actions[1..]))
  }

  ghost function BookedAll(start: Portfolio, actions: seq<PlaceOrder>): Portfolio
    decreases |actions|
  {
    if actions == [] then start else BookedAll(Booked(actions[0], start), actions[1..])
  }

  lemma BookingKeepsLimits(c: Config, action: PlaceOrder, portfolio: Portfolio)
    requires WithinLimits(c, portfolio) && Passes(c, action, portfolio)
    requires action.quantity > 0.0 && EstimatedPrice(action, portfolio) > 0.0
    ensures WithinLimits(c, Booked(action, portfolio))
  {
    BookedPosition(action, portfolio);
    forall i | i != action.instrument {
      OtherPositions(action, portfolio, i);
    }
    if action.side == SELL {
      BookedTotal(action, portfolio);
    }
    hide Booked, EstimatedPrice, CurrentQuantity;
  }

  /** However many orders pass and are booked, the portfolio never leaves its limits. */
  lemma {:induction false} PassedRunKeepsLimits(c: Config, start: Portfolio, actions: seq<PlaceOrder>)
    requires WithinLimits(c, start) && PassedRun(c, start, actions)
    ensures WithinLimits(c, BookedAll(start, actions))
    decreases |actions|
  {
    if actions != [] {
      BookingKeepsLimits(c, actions[0], start);
      PassedRunKeepsLimits(c, Booked(actions[0], start), actions[1..]);
    }
  }

  /** A buy that every notional limit admitting it would still admit when valued at this mark. */
  ghost predicate SafeAtMark(action: PlaceOrder, portfolio: Portfolio, mark: real) {
    forall c :: TotalWithin(c, action, portfolio) ==>
      portfolio.totalNotional + Notional(action.quantity, mark) <= c.portfolioNotionalLimit
  }

  /**
   The total is checked at the estimated price. Revalued at the market, a passed buy is sure to stay
   within the limit exactly when its estimated price is not below the mark.
   */
  lemma SafeAtMarkIff(action: PlaceOrder, portfolio: Portfolio, mark: real)
    requires action.side == BUY && action.quantity > 0.0
    ensures SafeAtMark(action, portfolio, mark) <==> mark <= EstimatedPrice(action, portfolio)
  {
    var price, q := EstimatedPrice(action, portfolio), action.quantity;
    NotionalGrows(q, mark, price);
    hide Notional;
    var tight := Config(map[], portfolio.totalNotional + Notional(q, price));
    assert TotalWithin(tight, action, portfolio);
  }

  lemma NotionalGrows(quantity: real, a: real, b: real)
    requires quantity > 0.0
    ensures Notional(quantity, a) <= Notional(quantity, b) <==> a <= b
  {
    assert quantity * (b - a) == Notional(quantity, b) - Notional(quantity, a);
    assert b > a ==> quantity * (b - a) > 0.0;
    assert b < a ==> quantity * (a - b) > 0.0;
  }
}

/** security/risk/risk.engine.ts: one verdict from the kill switch, three breakers, the limits and the loss monitor. */
module RiskEngines {
  import opened Basics
  import opened KillSwitches
  import opened LossMonitors
  import CB = CircuitBreakers
  import PL = PositionLimits

  datatype RiskLevel = LOW | MEDIUM | HIGH | CRITICAL

  datatype Action =
    | PlaceOrder(order: PL.PlaceOrder)
    | CancelOrder
    | ModifyOrder
    | ClosePosition
    | RequestHumanReview
    | NoAction

  datatype RiskContext = RiskContext(userId: string, strategyId: string, portfolio: PL.Portfolio)

  datatype BlockReason =
    KillSwitchActive | VelocityOpen | ErrorRateOpen | LossOpen | PositionLimit(breach: PL.LimitBreach)

  datatype RiskEvaluation = RiskEvaluation(approved: bool, riskLevel: RiskLevel, blockReasons: seq<BlockReason>)

  function Severity(r: RiskLevel): nat {
    match r case LOW => 0 case MEDIUM => 1 case HIGH => 2 case CRITICAL => 3
  }

  function ElevateRisk(current: RiskLevel, candidate: RiskLevel): (r: RiskLevel)
    ensures Severity(r) >= Severity(current) && Severity(r) >= Severity(candidate) && r in {current, candidate}
  {
    if Severity(candidate) > Severity(current) then candidate else current
  }

  /** The levels in their order, so that elevating never lowers a level and CRITICAL stays. */
  lemma LevelsAscend(r: RiskLevel)
    ensures Severity(LOW) < Severity(MEDIUM) < Severity(HIGH) < Severity(CRITICAL)
    ensures ElevateRisk(CRITICAL, r) == CRITICAL && ElevateRisk(r, CRITICAL) == CRITICAL
    ensures ElevateRisk(LOW, r) == r && ElevateRisk(r, LOW) == r
    ensures r != CRITICAL ==> ElevateRisk(r, HIGH) == HIGH
  {
  }

  function BaseRiskLevel(action: Action): RiskLevel {
    match action
    case PlaceOrder(_) => MEDIUM
    case CancelOrder => LOW
    case ModifyOrder => MEDIUM
    case ClosePosition => MEDIUM
    case RequestHumanReview => LOW
    case NoAction => LOW
  }

  ghost function OpenReasons(velocity: bool, errorRate: bool, loss: bool): (reasons: seq<BlockReason>)
    ensures reasons == [] <==> !velocity && !errorRate && !loss
    ensures KillSwitchActive !in reasons
  {
    (if velocity then [VelocityOpen] else [])
    + (if errorRate then [ErrorRateOpen] else [])
    + (if loss then [LossOpen] else [])
  }

  lemma OpenReasonsAre(velocity: bool, errorRate: bool, loss: bool, reasons: seq<BlockReason>)
    requires reasons == ([] + if velocity then [VelocityOpen] else [])
                        + (if errorRate then [ErrorRateOpen] else []) + (if loss then [LossOpen] else [])
    ensures reasons == OpenReasons(velocity, errorRate, loss)
  {
  }

  /** Each open breaker is named, once, in this order. */
  lemma OpenReasonsNamed(velocity: bool, errorRate: bool, loss: bool)
    ensures var reasons := OpenReasons(velocity, errorRate, loss);
            && (VelocityOpen in reasons <==> velocity) && (ErrorRateOpen in reasons <==> errorRate)
            && (LossOpen in reasons <==> loss)
            && (velocity && errorRate && loss ==> reasons == [VelocityOpen, ErrorRateOpen, LossOpen])
            && (velocity && errorRate && !loss ==> reasons == [VelocityOpen, ErrorRateOpen])
            && (velocity && !errorRate && loss ==> reasons == [VelocityOpen, LossOpen])
            && (!velocity && errorRate && loss ==> reasons == [ErrorRateOpen, LossOpen])
            && forall r :: r in reasons ==> r in {VelocityOpen, ErrorRateOpen, LossOpen}
  {
  }

  /** The level of each action: orders, changes to them and closing a position are MEDIUM, everything else LOW. */
  lemma BaseRiskLevels(action: Action)
    ensures BaseRiskLevel(action) == MEDIUM <==> action.PlaceOrder? || action.ModifyOrder? || action.ClosePosition?
    ensures BaseRiskLevel(action) == LOW <==> action.CancelOrder? || action.RequestHumanReview? || action.NoAction?
  {
  }

  function LimitReasons(breaches: seq<PL.LimitBreach>): (reasons: seq<BlockReason>)
    ensures |reasons| == |breaches|
    ensures forall i :: 0 <= i < |breaches| ==> reasons[i] == PositionLimit(breaches[i])
    ensures KillSwitchActive !in reasons
  {
    seq(|breaches|, i requires 0 <= i < |breaches| => PositionLimit(breaches[i]))
  }

  // ----- the machine the engine, the kill switch and the loss monitor form together

  datatype RiskState = RiskState(halted: set<Scope>, values: Values)

  datatype Config = Config(adminUserId: string, thresholdPercent: real)

  /** Everything that moves the machine. othersPass: the breakers and the position limits raise nothing. */
  datatype Event =
    | Evaluated(userId: string, strategyId: string, value: real, othersPass: bool)
    | Triggered(scope: Scope)
    | ResetTried(scope: Scope, resetBy: string)
    | WatermarkCleared(userId: string)

  ghost predicate KillActive(s: RiskState, userId: string, strategyId: string) {
    GLOBAL in s.halted || USER(userId) in s.halted || STRATEGY(strategyId) in s.halted
  }

  /** The verdict on an Evaluated event, from the state before it. */
  ghost predicate Approves(s: RiskState, e: Event)
    requires e.Evaluated?
  {
    !KillActive(s, e.userId, e.strategyId) && e.othersPass
  }

  ghost function After(c: Config, s: RiskState, e: Event): RiskState {
    match e
    case Evaluated(u, _, x, _) =>
      var before := ValuesOf(s.values, u);
      RiskState(s.halted + (if Breaches(c.thresholdPercent, before, x) then {USER(u)} else {}),
          s.values[u := before + [x]])
    case Triggered(scope) => s.(halted := s.halted + {scope})
    case ResetTried(scope, resetBy) => if resetBy == c.adminUserId then s.(halted := s.halted - {scope}) else s
    case WatermarkCleared(u) => s.(values := s.values[u := []])
  }

  ghost function StateAfter(c: Config, events: seq<Event>): RiskState {
    if events == [] then RiskState({}, map[])
    else After(c, StateAfter(c, events[..|events| - 1]), events[|events| - 1])
  }

  // ----- the engine

  class RiskEngine {
    const killSwitch: KillSwitch
    const positionLimitsChecker: PL.PositionLimitsChecker
    const lossMonitor: LossMonitor
    const velocityBreaker: CB.CircuitBreaker
    const errorRateBreaker: CB.CircuitBreaker
    const lossBreaker: CB.CircuitBreaker

    ghost predicate MonitorsValid()
      reads killSwitch.store, lossMonitor, lossMonitor.watermarks, lossMonitor.drawdowns
    {
      killSwitch.Valid() && lossMonitor.Valid() && lossMonitor.killSwitch == killSwitch
    }

    /** Objects of different classes are distinct by type; the breakers must also be distinct from one another. */
    ghost predicate BreakersValid()
      reads velocityBreaker, velocityBreaker.phases, velocityBreaker.failCounts, velocityBreaker.openedAts
      reads errorRateBreaker, errorRateBreaker.phases, errorRateBreaker.failCounts, errorRateBreaker.openedAts
      reads lossBreaker, lossBreaker.phases, lossBreaker.failCounts, lossBreaker.openedAts
    {
      && velocityBreaker.Valid() && errorRateBreaker.Valid() && lossBreaker.Valid()
      && velocityBreaker != errorRateBreaker && velocityBreaker != lossBreaker && errorRateBreaker != lossBreaker
      && velocityBreaker.phases != errorRateBreaker.phases
      && velocityBreaker.phases != lossBreaker.phases
      && errorRateBreaker.phases != lossBreaker.phases
    }

    ghost predicate Valid()
      reads killSwitch.store, lossMonitor, lossMonitor.watermarks, lossMonitor.drawdowns
      reads velocityBreaker, velocityBreaker.phases, velocityBreaker.failCounts, velocityBreaker.openedAts
      reads errorRateBreaker, errorRateBreaker.phases, errorRateBreaker.failCounts, errorRateBreaker.openedAts
      reads lossBreaker, lossBreaker.phases, lossBreaker.failCounts, lossBreaker.openedAts
    {
      MonitorsValid() && BreakersValid()
    }

    ghost function State(): RiskState
      reads killSwitch.store, lossMonitor
    {
      RiskState(killSwitch.Halted(), lossMonitor.values)
    }

    constructor (killSwitch: KillSwitch, positionLimitsChecker: PL.PositionLimitsChecker, lossMonitor: LossMonitor,
                 velocityBreaker: CB.CircuitBreaker, errorRateBreaker: CB.CircuitBreaker,
                 lossBreaker: CB.CircuitBreaker)
      requires killSwitch.Valid() && lossMonitor.Valid() && lossMonitor.killSwitch == killSwitch
      requires velocityBreaker.Valid() && errorRateBreaker.Valid() && lossBreaker.Valid()
      requires velocityBreaker != errorRateBreaker && velocityBreaker != lossBreaker && errorRateBreaker != lossBreaker
      requires velocityBreaker.phases != errorRateBreaker.phases
      requires velocityBreaker.phases != lossBreaker.phases
      requires errorRateBreaker.phases != lossBreaker.phases
      ensures Valid() && State() == RiskState(killSwitch.Halted(), lossMonitor.values)
      ensures this.killSwitch == killSwitch && this.lossMonitor == lossMonitor
    {
      hide CB.CircuitBreaker.Valid, LossMonitor.Valid, KillSwitch.Valid;
      this.killSwitch := killSwitch;
      this.positionLimitsChecker := positionLimitsChecker;
      this.lossMonitor := lossMonitor;
      this.velocityBreaker := velocityBreaker;
      this.errorRateBreaker := errorRateBreaker;
      this.lossBreaker := lossBreaker;
    }

    method CheckKillSwitch(context: RiskContext, now: nat) returns (active: bool)
      requires MonitorsValid()
      ensures active <==> KillActive(State(), context.userId, context.strategyId)
    {
      var scopes := [GLOBAL, USER(context.userId), STRATEGY(context.strategyId)];
      for i := 0 to |scopes|
        invariant forall j :: 0 <= j < i ==> GLOBAL !in killSwitch.Halted() && scopes[j] !in killSwitch.Halted()
      {
        var scopeActive := killSwitch.IsActive(scopes[i], now);
        if scopeActive {
          return true;
        }
      }
      assert scopes[0] == GLOBAL && scopes[1] == USER(context.userId) && scopes[2] == STRATEGY(context.strategyId);
      return false;
    }

    /** Reads the breakers, which may move an open one to half-open. */
    method CheckCircuitBreakers(now: nat) returns (reasons: seq<BlockReason>)
      requires BreakersValid()
      modifies velocityBreaker, velocityBreaker.phases, errorRateBreaker, errorRateBreaker.phases
      modifies lossBreaker, lossBreaker.phases
      ensures BreakersValid()
      ensures BreakersQueried(now)
      ensures reasons == OpenReasons(velocityBreaker.machine.phase == CB.Open,
                                     errorRateBreaker.machine.phase == CB.Open,
                                     lossBreaker.machine.phase == CB.Open)
    {
      hide CB.CircuitBreaker.Valid, CB.After, OpenReasons;
      reasons := [];
      var velocityOpen := velocityBreaker.IsOpen(now);
      if velocityOpen {
        reasons := reasons + [VelocityOpen];
      }
      var errorRateOpen := errorRateBreaker.IsOpen(now);
      if errorRateOpen {
        reasons := reasons + [ErrorRateOpen];
      }
      var lossOpen := lossBreaker.IsOpen(now);
      if lossOpen {
        reasons := reasons + [LossOpen];
      }
      OpenReasonsAre(velocityOpen, errorRateOpen, lossOpen, reasons);
    }

    /** The breakers are not open and an order is within its limits. */
    ghost predicate OthersPass(action: Action, context: RiskContext)
      reads velocityBreaker, errorRateBreaker, lossBreaker
    {
      && velocityBreaker.machine.phase != CB.Open
      && errorRateBreaker.machine.phase != CB.Open
      && lossBreaker.machine.phase != CB.Open
      && (action.PlaceOrder? ==> PL.Passes(positionLimitsChecker.config, action.order, context.portfolio))
    }

    /** Every reason for a block, from the kill switch, the breakers as they now are, and the limits, in that order. */
    ghost function Reasons(killActive: bool, action: Action, context: RiskContext): (reasons: seq<BlockReason>)
      reads velocityBreaker, errorRateBreaker, lossBreaker
      ensures reasons == [] <==> !killActive && OthersPass(action, context)
      ensures KillSwitchActive in reasons <==> killActive
    {
      (if killActive then [KillSwitchActive] else [])
      + OpenReasons(velocityBreaker.machine.phase == CB.Open, errorRateBreaker.machine.phase == CB.Open,
                    lossBreaker.machine.phase == CB.Open)
      + if action.PlaceOrder?
        then LimitReasons(PL.BreachesOf(positionLimitsChecker.config, action.order, context.portfolio))
        else []
    }

    /** Each breaker was queried once. */
    twostate predicate BreakersQueried(now: nat)
      reads velocityBreaker, errorRateBreaker, lossBreaker
    {
      && velocityBreaker.machine == CB.After(old(velocityBreaker.machine), velocityBreaker.config, CB.Query(now))
      && errorRateBreaker.machine == CB.After(old(errorRateBreaker.machine), errorRateBreaker.config, CB.Query(now))
      && lossBreaker.machine == CB.After(old(lossBreaker.machine), lossBreaker.config, CB.Query(now))
    }

    method Evaluate(action: Action, context: RiskContext, now: nat) returns (r: RiskEvaluation)
      requires Valid()
      modifies velocityBreaker, velocityBreaker.phases, errorRateBreaker, errorRateBreaker.phases
      modifies lossBreaker, lossBreaker.phases
      modifies killSwitch.store, lossMonitor, lossMonitor.watermarks, lossMonitor.drawdowns
      ensures Valid()
      ensures BreakersQueried(now)
      ensures var e := Evaluated(context.userId, context.strategyId,
                                 context.portfolio.totalNotional + context.portfolio.totalUnrealizedPnl,
                                 OthersPass(action, context));
              && r.approved == Approves(old(State()), e)
              && State() == After(Config(killSwitch.adminUserId, lossMonitor.thresholdPercent), old(State()), e)
      ensures r.blockReasons == Reasons(KillActive(old(State()), context.userId, context.strategyId), action, context)
      ensures r.riskLevel ==
              if r.approved then BaseRiskLevel(action)
              else if KillSwitchActive in r.blockReasons then CRITICAL else HIGH
    {
      hide RiskEngine.BreakersValid, LossMonitor.Valid, KillSwitch.Valid, RiskEngine.OthersPass, RiskEngine.Reasons;
      hide Breaches, ValuesOf, CB.After;
      var blockReasons, highestRisk := CollectBlockReasons(action, context, now);
      lossMonitor.Update(context.portfolio.totalNotional, context.portfolio.totalUnrealizedPnl, context.userId, now);
      if |blockReasons| == 0 {
        highestRisk := BaseRiskLevel(action);
      }
      r := RiskEvaluation(|blockReasons| == 0, highestRisk, blockReasons);
    }

    /** The checks that block, before the loss monitor sees the new portfolio value. */
    method CollectBlockReasons(action: Action, context: RiskContext, now: nat)
      returns (blockReasons: seq<BlockReason>, highestRisk: RiskLevel)
      requires Valid()
      modifies velocityBreaker, velocityBreaker.phases, errorRateBreaker, errorRateBreaker.phases
      modifies lossBreaker, lossBreaker.phases
      ensures Valid() && State() == old(State())
      ensures BreakersQueried(now)
      ensures blockReasons == Reasons(KillActive(State(), context.userId, context.strategyId), action, context)
      ensures highestRisk ==
              if KillSwitchActive in blockReasons then CRITICAL else if blockReasons != [] then HIGH else LOW
    {
      hide RiskEngine.MonitorsValid, RiskEngine.BreakersValid, CB.After, PL.Passes, OpenReasons, LimitReasons;
      hide PL.BreachesOf;
      blockReasons := [];
      highestRisk := LOW;
      var killSwitchActive := CheckKillSwitch(context, now);
      if killSwitchActive {
        blockReasons := blockReasons + [KillSwitchActive];
        highestRisk := CRITICAL;
      }
      var breakerReasons := CheckCircuitBreakers(now);
      if |breakerReasons| > 0 {
        blockReasons := blockReasons + breakerReasons;
        highestRisk := ElevateRisk(highestRisk, HIGH);
      }
      if action.PlaceOrder? {
        var passed, breaches := positionLimitsChecker.Check(action.order, context.portfolio);
        if !passed {
          blockReasons := blockReasons + LimitReasons(breaches);
          highestRisk := ElevateRisk(highestRisk, HIGH);
        }
      }
    }

    /** What operators may do between evaluations; each moves the machine by one event. */
    method TriggerKillSwitch(scope: Scope, reason: string, triggeredBy: string, now: nat)
      requires Valid()
      modifies killSwitch.store
      ensures Valid()
      ensures State() == After(Config(killSwitch.adminUserId, lossMonitor.thresholdPercent), old(State()),
                Triggered(scope))
    {
      hide RiskEngine.BreakersValid, LossMonitor.Valid, KillSwitch.Valid;
      killSwitch.Trigger(scope, reason, triggeredBy, now);
    }

    method ResetKillSwitch(scope: Scope, resetBy: string) returns (r: Result<(), KillSwitches.Error>)
      requires Valid()
      modifies killSwitch.store
      ensures Valid()
      ensures State() == After(Config(killSwitch.adminUserId, lossMonitor.thresholdPercent), old(State()),
                ResetTried(scope, resetBy))
    {
      hide RiskEngine.BreakersValid, LossMonitor.Valid, KillSwitch.Valid;
      r := killSwitch.Reset(scope, resetBy);
    }

    method ResetWatermark(userId: string)
      requires Valid()
      modifies lossMonitor, lossMonitor.watermarks, lossMonitor.drawdowns
      ensures Valid()
      ensures State() == After(Config(killSwitch.adminUserId, lossMonitor.thresholdPercent), old(State()),
                WatermarkCleared(userId))
    {
      hide RiskEngine.BreakersValid, LossMonitor.Valid, KillSwitch.Valid;
      lossMonitor.ResetWatermark(userId);
    }
  }

  // ----- what every run keeps

  /** The admin reset the user's switch at some event in [from, to). */
  ghost predicate ResetBetween(c: Config, events: seq<Event>, from: nat, to: nat, userId: string)
    requires to <= |events|
  {
    exists k :: from <= k < to && events[k] == ResetTried(USER(userId), c.adminUserId)
  }

  lemma {:induction false} HaltPersists(c: Config, events: seq<Event>, i: nat, j: nat, userId: string)
    requires i <= j <= |events|
    requires USER(userId) in StateAfter(c, events[..i]).halted && !ResetBetween(c, events, i, j, userId)
    ensures USER(userId) in StateAfter(c, events[..j]).halted
    decreases j
  {
    if i < j {
      HaltPersists(c, events, i, j - 1, userId);
      hide Breaches, ValuesOf;
      assert events[..j][..j - 1] == events[..j - 1];
    }
  }

  /** If event i leaves its user's drawdown at or above the threshold and no reset follows, event j is not approved. */
  ghost predicate StaysBlocked(c: Config, events: seq<Event>, i: nat, j: nat) {
    i < j < |events| && events[i].Evaluated? && events[j].Evaluated? && events[j].userId == events[i].userId
    && Drawdown(ValuesOf(StateAfter(c, events[..i + 1]).values, events[i].userId)) >= c.thresholdPercent
    && !ResetBetween(c, events, i + 1, j, events[i].userId)
    ==> !Approves(StateAfter(c, events[..j]), events[j])
  }

  /**
   With a positive threshold, once an evaluation leaves a user's drawdown at or above it, no later evaluation
   for that user is approved until the admin resets the user's switch, whatever happens in between.
   */
  lemma BreachBlocksUntilReset(c: Config, events: seq<Event>, i: nat, j: nat)
    requires c.thresholdPercent > 0.0
    ensures StaysBlocked(c, events, i, j)
  {
    if i < j < |events| && events[i].Evaluated? && events[j].Evaluated? && events[j].userId == events[i].userId
       && Drawdown(ValuesOf(StateAfter(c, events[..i + 1]).values, events[i].userId)) >= c.thresholdPercent
       && !ResetBetween(c, events, i + 1, j, events[i].userId)
    {
      BreachHalts(c, events, i);
      HaltPersists(c, events, i + 1, j, events[i].userId);
    }
  }

  lemma BreachHalts(c: Config, events: seq<Event>, i: nat)
    requires c.thresholdPercent > 0.0 && i < |events| && events[i].Evaluated?
    requires Drawdown(ValuesOf(StateAfter(c, events[..i + 1]).values, events[i].userId)) >= c.thresholdPercent
    ensures USER(events[i].userId) in StateAfter(c, events[..i + 1]).halted
  {
    hide Drawdown, Breaches;
    assert events[..i + 1][..i] == events[..i];
    PositiveThresholdBreaches(c.thresholdPercent, ValuesOf(StateAfter(c, events[..i]).values, events[i].userId),
        events[i].value);
  }

  /** The config admits a threshold of 0, and then a first value leaves a drawdown of 0 and halts nobody. */
  lemma BreachBlocksIff(c: Config)
    ensures (forall events: seq<Event>, i: nat, j: nat :: StaysBlocked(c, events, i, j)) <==> c.thresholdPercent > 0.0
  {
    if c.thresholdPercent > 0.0 {
      forall events: seq<Event>, i: nat, j: nat {
        BreachBlocksUntilReset(c, events, i, j);
      }
    } else {
      var e := Evaluated("user", "strategy", 1.0, true);
      FirstValue(c, e);
      assert !StaysBlocked(c, [e, e], 0, 1);
    }
  }

  lemma FirstValue(c: Config, e: Event)
    requires e.Evaluated?
    ensures StateAfter(c, [e, e][..1]) == RiskState({}, map[e.userId := [e.value]])
    ensures Drawdown([e.value]) == 0.0
  {
    assert [e, e][..1] == [e] && [e][..0] == [];
    OneMoreValue([], e.value);
    assert [] + [e.value] == [e.value];
    assert StateAfter(c, []) == RiskState({}, map[]);
  }

  /** The portfolio values evaluated for the user since the watermark was last cleared. */
  ghost function EvaluatedSinceCleared(events: seq<Event>, userId: string): seq<real> {
    if events == [] then []
    else
      var e := events[|events| - 1];
      if e == WatermarkCleared(userId) then []
      else
        var before := EvaluatedSinceCleared(events[..|events| - 1], userId);
        if e.Evaluated? && e.userId == userId then before + [e.value] else before
  }

  /** The watermark ranges over exactly the values since it was last cleared; halts and resets leave it alone. */
  lemma {:induction false} ValuesAreThoseSinceCleared(c: Config, events: seq<Event>, userId: string)
    ensures ValuesOf(StateAfter(c, events).values, userId) == EvaluatedSinceCleared(events, userId)
  {
    if events != [] {
      ValuesAreThoseSinceCleared(c, events[..|events| - 1], userId);
    }
  }

  /** A user nobody halted by hand is blocked by the user's own switch only after a breach of the threshold. */
  lemma {:induction false} HaltHasCause(c: Config, events: seq<Event>, userId: string)
    requires USER(userId) in StateAfter(c, events).halted
    ensures exists i :: 0 <= i < |events| && HaltsUser(c, events, i, userId)
  {
    var front := events[..|events| - 1];
    if USER(userId) in StateAfter(c, front).halted {
      HaltHasCause(c, front, userId);
      var i :| 0 <= i < |front| && HaltsUser(c, front, i, userId);
      assert events[..i] == front[..i] && events[i] == front[i];
      assert HaltsUser(c, events, i, userId);
    } else {
      assert HaltsUser(c, events, |events| - 1, userId);
    }
  }

  ghost predicate HaltsUser(c: Config, events: seq<Event>, i: nat, userId: string)
    requires i < |events|
  {
    || events[i] == Triggered(USER(userId))
    || (events[i].Evaluated? && events[i].userId == userId
        && Breaches(c.thresholdPercent, ValuesOf(StateAfter(c, events[..i]).values, userId), events[i].value))
  }

  lemma AfterEvaluation(c: Config, events: seq<Event>, e: Event)
    requires e.Evaluated?
    ensures var s := StateAfter(c, events);
            var breached := Breaches(c.thresholdPercent, ValuesOf(s.values, e.userId), e.value);
            StateAfter(c, events + [e]).halted == s.halted + if breached then {USER(e.userId)} else {}
  {
    hide Breaches, ValuesOf;
    assert (events + [e])[..|events|] == events;
  }

  /** A value at or below a user's positive peak halts the user exactly if threshold percent of the peak are missing. */
  lemma HaltInFigures(c: Config, events: seq<Event>, e: Event, p: real)
    requires e.Evaluated? && ValuesOf(StateAfter(c, events).values, e.userId) != []
    requires p == Largest(ValuesOf(StateAfter(c, events).values, e.userId)) && e.value <= p && p > 0.0
    ensures USER(e.userId) in StateAfter(c, events + [e]).halted <==>
            USER(e.userId) in StateAfter(c, events).halted || MissingAtLeast(p, e.value, c.thresholdPercent)
  {
    hide *;
    BreachInFigures(c.thresholdPercent, ValuesOf(StateAfter(c, events).values, e.userId), e.value);
    AfterEvaluation(c, events, e);
  }

  /** A first value, a new high and a peak that is not positive halt nobody, for a positive threshold. */
  lemma NoHaltOtherwise(c: Config, events: seq<Event>, e: Event)
    requires e.Evaluated? && c.thresholdPercent > 0.0
    requires var before := ValuesOf(StateAfter(c, events).values, e.userId);
             before == [] || e.value > Largest(before) || Largest(before) <= 0.0
    ensures StateAfter(c, events + [e]).halted == StateAfter(c, events).halted
  {
    hide *;
    NoBreachOtherwise(c.thresholdPercent, ValuesOf(StateAfter(c, events).values, e.userId), e.value);
    AfterEvaluation(c, events, e);
  }

  lemma NoBreachOtherwise(thresholdPercent: real, before: seq<real>, x: real)
    requires thresholdPercent > 0.0 && (before == [] || x > Largest(before) || Largest(before) <= 0.0)
    ensures !Breaches(thresholdPercent, before, x)
  {
    hide Largest, Drawdown;
    OneMoreValue(before, x);
    DrawdownInFigures(before + [x], thresholdPercent);
  }
}

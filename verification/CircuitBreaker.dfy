/** security/risk/circuit.breaker.ts: a breaker that opens on repeated failures and probes before closing. */
module CircuitBreakers {
  import opened Basics
  import opened TtlStores
  import opened FixedWindow

  datatype Phase = Closed | Open | HalfOpen

  datatype Config = Config(threshold: nat, windowMs: nat, resetTimeoutMs: nat) {
    /** The failure counter's TTL: the window rounded up to whole seconds. */
    function TtlMs(): nat { 1000 * CeilSeconds(windowMs) }

    /** The most failures a counter window can hold without opening the breaker. */
    ghost function Tolerated(): nat { if threshold == 0 then 0 else threshold - 1 }
  }

  /** Why the phase changed; a reached threshold carries the failures of the CLOSED phase it ended. */
  datatype Cause =
    | ResetElapsed
    | ProbeSucceeded
    | ProbeFailed
    | ThresholdReached(failures: seq<nat>)
    | Forced

  datatype Transition = Transition(at: nat, to: Phase, cause: Cause)

  /**
   A breaker as its callers can know it: the phase, when it last opened, the failures recorded
   since the CLOSED phase began, and every transition so far.
   */
  datatype Machine = Machine(phase: Phase, openedAt: nat, failures: seq<nat>, log: seq<Transition>) {
    ghost function Move(to: Phase, at: nat, cause: Cause): Machine {
      this.(phase := to, log := log + [Transition(at, to, cause)])
    }

    ghost function OpenedBy(at: nat, cause: Cause): Machine {
      Move(Open, at, cause).(openedAt := at, failures := [])
    }
  }

  const FRESH := Machine(Closed, 0, [], [])

  datatype Call = Query(at: nat) | Success(at: nat) | Failure(at: nat) | ForceOpen(at: nat)

  ghost function Observed(m: Machine, c: Config, now: nat): Machine {
    if m.phase == Open && now - m.openedAt >= c.resetTimeoutMs then m.Move(HalfOpen, now, ResetElapsed) else m
  }

  /** What one call does to the machine. */
  ghost function After(m: Machine, c: Config, call: Call): Machine {
    var o := Observed(m, c, call.at);
    match call
    case Query(_) => o
    case ForceOpen(at) => m.OpenedBy(at, Forced)
    case Success(at) =>
      if o.phase == HalfOpen then o.Move(Closed, at, ProbeSucceeded).(failures := []) else o
    case Failure(at) =>
      match o.phase
      case Open => o
      case HalfOpen => o.OpenedBy(at, ProbeFailed)
      case Closed =>
        var failures := o.failures + [at];
        if Current(failures, c.TtlMs()).count >= c.threshold
        then o.OpenedBy(at, ThresholdReached(failures))
        else o.(failures := failures)
  }

  ghost function Run(c: Config, calls: seq<Call>): Machine {
    if calls == [] then FRESH else After(Run(c, calls[..|calls| - 1]), c, calls[|calls| - 1])
  }

  ghost predicate InTimeOrder(calls: seq<Call>) {
    forall i, j :: 0 <= i <= j < |calls| ==> calls[i].at <= calls[j].at
  }

  ghost function LastAt(calls: seq<Call>): nat {
    if calls == [] then 0 else calls[|calls| - 1].at
  }

  // ----- the breaker

  class CircuitBreaker {
    const name: string
    const config: Config
    const phases: TtlStore<string, Phase>
    const failCounts: TtlStore<string, nat>
    const openedAts: TtlStore<string, nat>
    ghost var machine: Machine

    ghost predicate Valid()
      reads this, phases, failCounts, openedAts
    {
      && failCounts != openedAts
      && config.windowMs > 0
      && (if name in phases.entries
          then phases.entries[name] == Entry(machine.phase, None)
          else machine.phase == Closed)
      && Reflects(failCounts.entries, name, machine.failures, config.TtlMs())
      && (machine.phase != Closed ==> machine.failures == [])
      && (machine.phase == Open ==>
            name in openedAts.entries && openedAts.entries[name] == Entry(machine.openedAt, None))
    }

    constructor (name: string, config: Config)
      requires config.windowMs > 0
      ensures Valid() && machine == FRESH && this.config == config && this.name == name
      ensures fresh(phases) && fresh(failCounts) && fresh(openedAts)
    {
      this.name := name;
      this.config := config;
      phases := new TtlStore();
      failCounts := new TtlStore();
      openedAts := new TtlStore();
      machine := FRESH;
    }

    method GetState(now: nat) returns (phase: Phase)
      requires Valid()
      modifies this, phases
      ensures Valid()
      ensures machine == After(old(machine), config, Query(now))
      ensures phase == machine.phase
      ensures machine == old(machine) ==> phases.entries == old(phases.entries)
    {
      var stored := phases.Get(name, now);
      if stored == Some(Open) {
        var openedAt := openedAts.Get(name, now);
        if openedAt.Some? {
          var elapsed := now - openedAt.value;
          if elapsed >= config.resetTimeoutMs {
            TransitionTo(HalfOpen, now, ResetElapsed);
            return HalfOpen;
          }
        }
        return Open;
      }
      if stored == Some(HalfOpen) {
        return HalfOpen;
      }
      return Closed;
    }

    method IsOpen(now: nat) returns (open: bool)
      requires Valid()
      modifies this, phases
      ensures Valid()
      ensures machine == After(old(machine), config, Query(now))
      ensures open <==> machine.phase == Open
    {
      var state := GetState(now);
      open := state == Open;
    }

    method RecordSuccess(now: nat)
      requires Valid()
      modifies this, phases, failCounts, openedAts
      ensures Valid()
      ensures machine == After(old(machine), config, Success(now))
      ensures old(machine).phase == HalfOpen ==>
                machine.phase == Closed && phases.entries == old(phases.entries)[name := Entry(Closed, None)]
                && failCounts.entries == old(failCounts.entries) - {name}
                && openedAts.entries == old(openedAts.entries) - {name}
    {
      var state := GetState(now);
      if state == HalfOpen {
        TransitionTo(Closed, now, ProbeSucceeded);
        failCounts.Del(name);
        openedAts.Del(name);
        machine := machine.(failures := []);
      }
    }

    method RecordFailure(now: nat)
      requires Valid()
      modifies this, phases, failCounts, openedAts
      ensures Valid()
      ensures machine == After(old(machine), config, Failure(now))
    {
      hide Current;
      var state := GetState(now);
      if state == Open {
        return;
      }
      if state == HalfOpen {
        OpenBreaker(now, ProbeFailed);
        return;
      }
      ghost var failures := machine.failures + [now];
      var count := Hit(failCounts, name, CeilSeconds(config.windowMs), now, machine.failures);
      machine := machine.(failures := failures);
      if count >= config.threshold {
        ghost var before := machine.(failures := old(machine.failures));
        OpenBreaker(now, ThresholdReached(failures));
        assert before.OpenedBy(now, ThresholdReached(failures)) == machine;
      }
    }

    method ForceOpened(now: nat)
      requires Valid()
      modifies this, phases, failCounts, openedAts
      ensures Valid()
      ensures machine == After(old(machine), config, ForceOpen(now))
    {
      OpenBreaker(now, Forced);
    }

    method OpenBreaker(now: nat, ghost cause: Cause)
      requires Valid()
      modifies this, phases, failCounts, openedAts
      ensures Valid()
      ensures machine == old(machine).OpenedBy(now, cause)
    {
      phases.Set(name, Open);
      openedAts.Set(name, now);
      failCounts.Del(name);
      machine := machine.OpenedBy(now, cause);
    }

    /** The state key takes the new phase; nothing else is written. */
    method TransitionTo(to: Phase, now: nat, ghost cause: Cause)
      modifies this`machine, phases
      ensures phases.entries == old(phases.entries)[name := Entry(to, None)]
      ensures machine == old(machine).Move(to, now, cause)
    {
      phases.Set(name, to);
      machine := machine.Move(to, now, cause);
    }
  }

  // ----- what every run keeps

  ghost function PhaseBefore(log: seq<Transition>, i: nat): Phase
    requires i <= |log|
  {
    if i == 0 then Closed else log[i - 1].to
  }

  /**
   The reasons a breaker may change phase. OPEN is left only for HALF_OPEN and only once the reset
   timeout has passed; CLOSED is reached only from HALF_OPEN; and CLOSED is left, unless by force,
   only when the last `threshold` failures, all of this CLOSED phase, lie within one counter window.
   */
  ghost predicate Justified(c: Config, log: seq<Transition>, i: nat)
    requires i < |log|
  {
    var from, t := PhaseBefore(log, i), log[i];
    match t.cause
    case ResetElapsed => from == Open && t.to == HalfOpen && t.at >= log[i - 1].at + c.resetTimeoutMs
    case ProbeSucceeded => from == HalfOpen && t.to == Closed
    case ProbeFailed => from == HalfOpen && t.to == Open
    case Forced => t.to == Open
    case ThresholdReached(failures) =>
      && from == Closed && t.to == Open
      && |failures| >= c.threshold && Sorted(failures) && failures != [] && failures[|failures| - 1] == t.at
      && (i > 0 ==> forall k :: 0 <= k < |failures| ==> failures[k] >= log[i - 1].at)
      && (c.threshold > 0 ==> failures[|failures| - c.threshold] + c.TtlMs() >= t.at)
      && Capped(failures[..|failures| - 1], c.TtlMs(), c.Tolerated())
  }

  ghost predicate Consistent(c: Config, m: Machine, clock: nat) {
    && m.phase == PhaseBefore(m.log, |m.log|)
    && (m.phase == Open ==> m.log != [] && m.openedAt == m.log[|m.log| - 1].at)
    && (m.log != [] ==> m.log[|m.log| - 1].at <= clock)
    && Sorted(m.failures)
    && (forall k :: 0 <= k < |m.failures| ==>
          m.failures[k] <= clock && (m.log != [] ==> m.failures[k] >= m.log[|m.log| - 1].at))
    && (m.phase != Closed ==> m.failures == [])
    && Capped(m.failures, c.TtlMs(), c.Tolerated())
  }

  ghost predicate AllJustified(c: Config, log: seq<Transition>) {
    forall i :: 0 <= i < |log| ==> Justified(c, log, i)
  }

  /** A justified transition, after which no failure of the phase it ended is kept, preserves everything. */
  lemma MoveKeeps(c: Config, m: Machine, t: Transition)
    requires Consistent(c, m, t.at) && AllJustified(c, m.log) && Justified(c, m.log + [t], |m.log|)
    ensures AllJustified(c, m.log + [t])
    ensures forall openedAt :: (t.to == Open ==> openedAt == t.at) ==>
              Consistent(c, Machine(t.to, openedAt, [], m.log + [t]), t.at)
  {
    forall i | 0 <= i < |m.log|
      ensures Justified(c, m.log + [t], i)
    {
      assert Justified(c, m.log, i);
    }
    NoHits(c);
  }

  lemma NoHits(c: Config)
    ensures Capped([], c.TtlMs(), c.Tolerated())
  {
    var none: seq<nat> := [];
    assert none[..0] == none;
  }

  /** A counter that reads n has seen its last n hits within one TTL. */
  lemma CountedWithinTtl(hits: seq<nat>, ttlMs: nat, n: nat)
    requires Sorted(hits) && hits != [] && Current(hits, ttlMs).count >= n
    ensures n <= |hits|
    ensures n > 0 ==> hits[|hits| - n] + ttlMs >= hits[|hits| - 1]
  {
    WindowHits(hits, ttlMs);
    hide Current;
  }

  lemma ThresholdIsJustified(c: Config, m: Machine, at: nat)
    requires Consistent(c, m, at) && m.phase == Closed
    requires Current(m.failures + [at], c.TtlMs()).count >= c.threshold
    ensures var t := Transition(at, Open, ThresholdReached(m.failures + [at]));
            Justified(c, m.log + [t], |m.log|)
  {
    hide Current, Capped;
    var failures := m.failures + [at];
    assert failures[..|failures| - 1] == m.failures;
    CountedWithinTtl(failures, c.TtlMs(), c.threshold);
  }

  lemma ObservedKeeps(c: Config, m: Machine, at: nat)
    requires Consistent(c, m, at) && AllJustified(c, m.log)
    ensures Consistent(c, Observed(m, c, at), at) && AllJustified(c, Observed(m, c, at).log)
  {
    if Observed(m, c, at) != m {
      MoveKeeps(c, m, Transition(at, HalfOpen, ResetElapsed));
    }
  }

  lemma FailureKeeps(c: Config, o: Machine, at: nat)
    requires Consistent(c, o, at) && AllJustified(c, o.log) && Observed(o, c, at) == o
    ensures Consistent(c, After(o, c, Failure(at)), at) && AllJustified(c, After(o, c, Failure(at)).log)
  {
    hide Consistent, AllJustified, Justified, Current;
    var failures := o.failures + [at];
    if o.phase == HalfOpen {
      ProbeFailureIsJustified(c, o, at);
      MoveKeeps(c, o, Transition(at, Open, ProbeFailed));
    } else if o.phase == Closed && Current(failures, c.TtlMs()).count >= c.threshold {
      ThresholdIsJustified(c, o, at);
      MoveKeeps(c, o, Transition(at, Open, ThresholdReached(failures)));
    } else if o.phase == Closed {
      FailureKeptKeeps(c, o, at);
    }
  }

  lemma ProbeFailureIsJustified(c: Config, m: Machine, at: nat)
    requires Consistent(c, m, at) && m.phase == HalfOpen
    ensures Justified(c, m.log + [Transition(at, Open, ProbeFailed)], |m.log|)
  {
    hide Capped;
  }

  lemma FailureKeptKeeps(c: Config, m: Machine, at: nat)
    requires Consistent(c, m, at) && m.phase == Closed
    requires Current(m.failures + [at], c.TtlMs()).count < c.threshold
    ensures Consistent(c, m.(failures := m.failures + [at]), at)
  {
    CapKept(c, m.failures, at);
    hide Capped, Current;
  }

  lemma AfterKeeps(c: Config, m: Machine, call: Call)
    requires Consistent(c, m, call.at) && AllJustified(c, m.log)
    ensures Consistent(c, After(m, c, call), call.at) && AllJustified(c, After(m, c, call).log)
  {
    var o, at := Observed(m, c, call.at), call.at;
    ObservedKeeps(c, m, at);
    match call {
      case Query(_) =>
      case ForceOpen(_) => MoveKeeps(c, m, Transition(at, Open, Forced));
      case Success(_) =>
        if o.phase == HalfOpen {
          MoveKeeps(c, o, Transition(at, Closed, ProbeSucceeded));
        }
      case Failure(_) => FailureKeeps(c, o, at);
    }
  }

  lemma CapKept(c: Config, failures: seq<nat>, at: nat)
    requires Capped(failures, c.TtlMs(), c.Tolerated())
    requires Current(failures + [at], c.TtlMs()).count < c.threshold
    ensures Capped(failures + [at], c.TtlMs(), c.Tolerated())
  {
    var more := failures + [at];
    assert more[..|more|] == more;
    assert forall i :: 0 <= i <= |failures| ==> more[..i] == failures[..i];
  }

  lemma {:induction false} RunIsSafe(c: Config, calls: seq<Call>, clock: nat)
    requires InTimeOrder(calls)
    requires forall i :: 0 <= i < |calls| ==> calls[i].at <= clock
    ensures Consistent(c, Run(c, calls), clock)
    ensures AllJustified(c, Run(c, calls).log)
    decreases |calls|
  {
    NoHits(c);
    if calls != [] {
      var last := calls[|calls| - 1];
      RunIsSafe(c, calls[..|calls| - 1], last.at);
      AfterKeeps(c, Run(c, calls[..|calls| - 1]), last);
    }
  }

  lemma RunEndsSafe(c: Config, calls: seq<Call>)
    requires InTimeOrder(calls)
    ensures Consistent(c, Run(c, calls), LastAt(calls)) && AllJustified(c, Run(c, calls).log)
  {
    RunIsSafe(c, calls, LastAt(calls));
  }

  /**
   While a CLOSED phase lasts, no interval of the rounded-up window holds more than 2 * threshold - 3 of its
   failures, and together with the failure that ends the phase no more than 2 * threshold - 2.
   */
  lemma ClosedPhaseFailureBound(c: Config, calls: seq<Call>, a: int)
    requires InTimeOrder(calls) && c.threshold >= 2
    ensures Within(Run(c, calls).failures, a, a + c.TtlMs()) <= 2 * c.threshold - 3
    ensures forall i :: 0 <= i < |Run(c, calls).log| && Run(c, calls).log[i].cause.ThresholdReached? ==>
              EndedPhaseWithin(c, Run(c, calls).log[i].cause.failures, a)
  {
    hide *;
    RunEndsSafe(c, calls);
    FailuresAreCapped(c, Run(c, calls), LastAt(calls));
    IntervalBound(Run(c, calls).failures, c.TtlMs(), c.Tolerated(), a);
    var log := Run(c, calls).log;
    forall i | 0 <= i < |log| && log[i].cause.ThresholdReached?
      ensures EndedPhaseWithin(c, log[i].cause.failures, a)
    {
      JustifiedAt(c, log, i);
      EndedPhaseBound(c, log, i, a);
    }
  }

  /** The bounds for the failures of a CLOSED phase that the last of them ended. */
  ghost predicate EndedPhaseWithin(c: Config, failures: seq<nat>, a: int) {
    && failures != []
    && Within(failures[..|failures| - 1], a, a + c.TtlMs()) <= 2 * c.threshold - 3
    && Within(failures, a, a + c.TtlMs()) <= 2 * c.threshold - 2
  }

  lemma JustifiedAt(c: Config, log: seq<Transition>, i: nat)
    requires AllJustified(c, log) && i < |log|
    ensures Justified(c, log, i)
  {
  }

  lemma EndedPhaseBound(c: Config, log: seq<Transition>, i: nat, a: int)
    requires i < |log| && Justified(c, log, i) && log[i].cause.ThresholdReached? && c.threshold >= 2
    ensures EndedPhaseWithin(c, log[i].cause.failures, a)
  {
    hide Within, Capped, Current;
    var failures := log[i].cause.failures;
    var front, last := failures[..|failures| - 1], failures[|failures| - 1];
    IntervalBound(front, c.TtlMs(), c.Tolerated(), a);
    assert failures == front + [last];
    WithinAppend(front, last, a, a + c.TtlMs());
  }

  /** Both bounds are met: for every threshold some run opens on the 2 * threshold - 2nd failure of one interval. */
  lemma EndedPhaseBoundIsMet(c: Config) returns (calls: seq<Call>, failures: seq<nat>, t: nat)
    requires c.windowMs > 0 && c.threshold >= 2
    ensures InTimeOrder(calls) && Run(c, calls).log == [Transition(t, Open, ThresholdReached(failures))]
    ensures Within(failures, c.TtlMs(), c.TtlMs() + c.TtlMs()) == 2 * c.threshold - 2
  {
    var hits: seq<nat>;
    hits, t := AlmostOpen(c);
    failures := hits + [t];
    calls := FailureCalls(failures);
    hide *;
    OneMoreFailure(c, hits, t);
    WithinAppend(hits, t, c.TtlMs(), c.TtlMs() + c.TtlMs());
  }

  /** A CLOSED phase full to its bound, which one more failure at t ends. */
  lemma AlmostOpen(c: Config) returns (hits: seq<nat>, t: nat)
    requires c.windowMs > 0 && c.threshold >= 2
    ensures c.TtlMs() + 1 == t < c.TtlMs() + c.TtlMs() && hits != [] && hits[|hits| - 1] == t && Sorted(hits)
    ensures Capped(hits, c.TtlMs(), c.Tolerated()) && Current(hits, c.TtlMs()).count == c.threshold - 1
    ensures Within(hits, c.TtlMs(), c.TtlMs() + c.TtlMs()) == 2 * c.threshold - 3
  {
    hide Within, Current, Capped;
    hits := BoundIsMet(c.TtlMs(), c.Tolerated());
    t := c.TtlMs() + 1;
  }

  lemma OneMoreFailure(c: Config, hits: seq<nat>, t: nat)
    requires hits != [] && hits[|hits| - 1] == t && Sorted(hits) && Capped(hits, c.TtlMs(), c.Tolerated())
    requires c.threshold >= 2 && Current(hits, c.TtlMs()).count == c.threshold - 1
    ensures InTimeOrder(FailureCalls(hits + [t]))
    ensures Run(c, FailureCalls(hits + [t])).log == [Transition(t, Open, ThresholdReached(hits + [t]))]
  {
    hide Run, After, FailureCalls, Current, Capped, InTimeOrder;
    FailuresStayClosed(c, hits);
    WindowHits(hits, c.TtlMs());
    CurrentAppend(hits, t, c.TtlMs());
    CallsInOrder(hits + [t]);
    OneMoreCall(hits, t);
    RunOneMore(c, FailureCalls(hits), Failure(t));
    FailureWhileClosed(c, hits, t);
  }

  lemma CurrentAppend(hits: seq<nat>, t: nat, ttlMs: nat)
    requires hits != [] && t <= Current(hits, ttlMs).start + ttlMs
    ensures Current(hits + [t], ttlMs).count == Current(hits, ttlMs).count + 1
  {
    assert (hits + [t])[..|hits|] == hits;
  }

  lemma FailuresAreCapped(c: Config, m: Machine, clock: nat)
    requires Consistent(c, m, clock) && c.threshold >= 2
    ensures Sorted(m.failures) && Capped(m.failures, c.TtlMs(), c.Tolerated())
    ensures c.Tolerated() == c.threshold - 1
  {
  }

  /** Failures only, one call each. */
  ghost function FailureCalls(hits: seq<nat>): seq<Call> {
    seq(|hits|, i requires 0 <= i < |hits| => Failure(hits[i]))
  }

  lemma OneMoreCall(hits: seq<nat>, t: nat)
    ensures FailureCalls(hits + [t]) == FailureCalls(hits) + [Failure(t)]
  {
  }

  lemma CallsInOrder(hits: seq<nat>)
    requires Sorted(hits)
    ensures InTimeOrder(FailureCalls(hits))
  {
  }

  lemma NoCalls(c: Config)
    ensures Run(c, FailureCalls([])) == FRESH
  {
    assert FailureCalls([]) == [];
  }

  lemma RunOneMore(c: Config, calls: seq<Call>, call: Call)
    ensures Run(c, calls + [call]) == After(Run(c, calls), c, call)
  {
    assert (calls + [call])[..|calls|] == calls;
  }

  /** One failure after others that left the breaker closed. */
  lemma FailureWhileClosed(c: Config, hits: seq<nat>, t: nat)
    ensures After(FRESH.(failures := hits), c, Failure(t)) ==
            if Current(hits + [t], c.TtlMs()).count >= c.threshold
            then Machine(Open, t, [], [Transition(t, Open, ThresholdReached(hits + [t]))])
            else FRESH.(failures := hits + [t])
  {
    hide Current;
  }

  lemma {:induction false} FailuresStayClosed(c: Config, hits: seq<nat>)
    requires c.threshold >= 1 && Sorted(hits) && Capped(hits, c.TtlMs(), c.Tolerated())
    ensures InTimeOrder(FailureCalls(hits))
    ensures Run(c, FailureCalls(hits)) == FRESH.(failures := hits)
    decreases |hits|
  {
    hide Run, After, FailureCalls, Current, Capped, InTimeOrder;
    CallsInOrder(hits);
    if hits == [] {
      NoCalls(c);
    } else {
      var front, t := hits[..|hits| - 1], hits[|hits| - 1];
      assert hits == front + [t];
      CappedFront(hits, c.TtlMs(), c.Tolerated());
      FailuresStayClosed(c, front);
      OneMoreCall(front, t);
      RunOneMore(c, FailureCalls(front), Failure(t));
      FailureWhileClosed(c, front, t);
    }
  }

  /** The run leaves fewer than `threshold` failures of the current CLOSED phase in [a, a + span). */
  ghost predicate StaysUnder(c: Config, span: nat, calls: seq<Call>, a: int) {
    InTimeOrder(calls) ==> Within(Run(c, calls).failures, a, a + span) < c.threshold
  }

  /** No `threshold` failures in any interval of this length leave a breaker closed. */
  ghost predicate TripsInEverySlidingWindow(c: Config, span: nat) {
    forall calls, a :: StaysUnder(c, span, calls, a)
  }

  /** From threshold 3 on, failures on both sides of a counter's expiry stay unnoticed. */
  lemma UnnoticedFailures(c: Config, span: nat) returns (calls: seq<Call>)
    requires c.windowMs > 0 && c.threshold >= 3 && 2 <= span <= c.TtlMs()
    ensures InTimeOrder(calls) && Run(c, calls).phase == Closed
    ensures Within(Run(c, calls).failures, c.TtlMs(), c.TtlMs() + span) == 2 * c.threshold - 3
  {
    hide Run, Within, Current, Capped, FailureCalls, InTimeOrder, Sorted;
    var hits, t := AlmostOpen(c);
    FailuresStayClosed(c, hits);
    WithinUpTo(hits, c.TtlMs(), c.TtlMs() + span, c.TtlMs() + c.TtlMs());
    calls := FailureCalls(hits);
  }

  /** Where the last hit is before hi, an interval that ends later holds no more. */
  lemma {:induction false} WithinUpTo(hits: seq<nat>, lo: int, hi: int, later: int)
    requires Sorted(hits) && (hits != [] ==> hits[|hits| - 1] < hi) && hi <= later
    ensures Within(hits, lo, hi) == Within(hits, lo, later)
  {
    if hits != [] {
      WithinUpTo(hits[..|hits| - 1], lo, hi, later);
    }
  }

  /** All failures of one instant are in one counter window. */
  lemma {:induction false} OneInstant(hits: seq<nat>, ttlMs: nat, a: int)
    requires Sorted(hits)
    ensures hits != [] && hits[|hits| - 1] == a ==> Within(hits, a, a + 1) <= Current(hits, ttlMs).count
    ensures hits != [] && hits[|hits| - 1] < a ==> Within(hits, a, a + 1) == 0
  {
    if hits != [] {
      OneInstant(hits[..|hits| - 1], ttlMs, a);
      WindowHits(hits[..|hits| - 1], ttlMs);
    }
  }

  lemma {:induction false} InstantIsCapped(hits: seq<nat>, ttlMs: nat, n: nat, a: int)
    requires Sorted(hits) && Capped(hits, ttlMs, n)
    ensures Within(hits, a, a + 1) <= n
  {
    if hits != [] {
      CappedFront(hits, ttlMs, n);
      InstantIsCapped(hits[..|hits| - 1], ttlMs, n, a);
      OneInstant(hits, ttlMs, a);
    }
  }

  lemma NoFailureKeptAtThresholdOne(c: Config, calls: seq<Call>)
    requires InTimeOrder(calls) && c.threshold == 1
    ensures Run(c, calls).failures == []
  {
    RunEndsSafe(c, calls);
    hide Run, Current;
    var failures := Run(c, calls).failures;
    assert failures[..|failures|] == failures;
  }

  lemma {:induction false} WithinLonger(hits: seq<nat>, lo: int, hi: int, later: int)
    requires hi <= later
    ensures Within(hits, lo, hi) <= Within(hits, lo, later)
  {
    if hits != [] {
      WithinLonger(hits[..|hits| - 1], lo, hi, later);
    }
  }

  /** What a threshold of at most 2, or an interval of one instant, does hold. */
  lemma FewStayUnder(c: Config, span: nat, calls: seq<Call>, a: int)
    requires c.threshold >= 1 && 1 <= span <= c.TtlMs() && (c.threshold <= 2 || span == 1)
    ensures StaysUnder(c, span, calls, a)
  {
    hide Run, Within, Capped, Current;
    if InTimeOrder(calls) {
      var failures := Run(c, calls).failures;
      if c.threshold == 1 {
        NoFailureKeptAtThresholdOne(c, calls);
        WithinOutside(failures, a, a + span);
      } else if c.threshold == 2 {
        ClosedPhaseFailureBound(c, calls, a);
        WithinLonger(failures, a, a + span, a + c.TtlMs());
      } else {
        RunEndsSafe(c, calls);
        FailuresAreCapped(c, Run(c, calls), LastAt(calls));
        InstantIsCapped(failures, c.TtlMs(), c.Tolerated(), a);
      }
    }
  }

  /**
   Over any interval up to the window rounded up to seconds, windowMs itself among them: "threshold failures within it
   open the breaker" holds exactly for thresholds 1 and 2, and for an interval of a single instant.
   */
  lemma SlidingReadingHoldsIff(c: Config, span: nat)
    requires c.windowMs > 0 && c.threshold >= 1 && 1 <= span <= c.TtlMs()
    ensures TripsInEverySlidingWindow(c, span) <==> c.threshold <= 2 || span == 1
  {
    hide Run, Within;
    if c.threshold <= 2 || span == 1 {
      forall calls, a
        ensures StaysUnder(c, span, calls, a)
      {
        FewStayUnder(c, span, calls, a);
      }
    } else {
      var calls := UnnoticedFailures(c, span);
      assert !StaysUnder(c, span, calls, c.TtlMs());
    }
  }

  /** In particular over the configured window. */
  lemma ConfiguredWindowHoldsIff(c: Config)
    requires c.windowMs > 0 && c.threshold >= 1
    ensures TripsInEverySlidingWindow(c, c.windowMs) <==> c.threshold <= 2 || c.windowMs == 1
  {
    hide TripsInEverySlidingWindow;
    SlidingReadingHoldsIff(c, c.windowMs);
  }

  // ----- how a breaker moves

  /** The timeout has passed for a breaker open since openedAt. */
  ghost predicate Elapsed(c: Config, m: Machine, t: nat) {
    m.phase == Open && t >= m.openedAt + c.resetTimeoutMs
  }

  /** Open is since the last change of phase, which opened it. */
  lemma OpenSince(c: Config, calls: seq<Call>)
    requires InTimeOrder(calls) && Run(c, calls).phase == Open
    ensures var m := Run(c, calls);
            m.log != [] && m.log[|m.log| - 1].to == Open && m.log[|m.log| - 1].at == m.openedAt
  {
    RunEndsSafe(c, calls);
    hide Run;
  }

  /** A query makes an open breaker half-open once the timeout has passed, and changes nothing else. */
  lemma QueryMoves(c: Config, calls: seq<Call>, t: nat)
    ensures var before, after := Run(c, calls), Run(c, calls + [Query(t)]);
            && after.openedAt == before.openedAt && after.failures == before.failures
            && after.phase == if Elapsed(c, before, t) then HalfOpen else before.phase
  {
    RunOneMore(c, calls, Query(t));
    hide Run;
  }

  /** A success closes a half-open breaker, or one whose timeout has passed, and forgets every failure. */
  lemma SuccessMoves(c: Config, calls: seq<Call>, t: nat)
    ensures var before, after := Run(c, calls), Run(c, calls + [Success(t)]);
            if before.phase == HalfOpen || Elapsed(c, before, t)
            then after.phase == Closed && after.failures == []
            else after == before
  {
    RunOneMore(c, calls, Success(t));
    hide Run;
  }

  /** A failure opens such a breaker again, at its own time; a closed one exactly if it is the threshold-th counted. */
  lemma FailureMoves(c: Config, calls: seq<Call>, t: nat)
    ensures var before, after := Run(c, calls), Run(c, calls + [Failure(t)]);
            var tripped := Current(before.failures + [t], c.TtlMs()).count >= c.threshold;
            if before.phase == HalfOpen || Elapsed(c, before, t) || (before.phase == Closed && tripped)
            then after.phase == Open && after.openedAt == t && after.failures == []
            else if before.phase == Closed
            then after.phase == Closed && after.failures == before.failures + [t]
            else after == before
  {
    RunOneMore(c, calls, Failure(t));
    hide Run, Current;
  }

  /** Force opens from every phase. */
  lemma ForceMoves(c: Config, calls: seq<Call>, t: nat)
    ensures var after := Run(c, calls + [ForceOpen(t)]);
            after.phase == Open && after.openedAt == t && after.failures == []
  {
    RunOneMore(c, calls, ForceOpen(t));
    hide Run;
  }

  /**
   Recovery: whatever opened it, a breaker queried after its timeout and then told of a success is closed, and the
   next failure does not open it again unless the threshold is 1 or less.
   */
  lemma Recovers(c: Config, calls: seq<Call>, t: nat, u: nat, v: nat)
    requires Run(c, calls).phase == Open && t >= Run(c, calls).openedAt + c.resetTimeoutMs
    ensures Run(c, calls + [Query(t)]).phase == HalfOpen
    ensures Run(c, calls + [Query(t)] + [Success(u)]).phase == Closed
    ensures Run(c, calls + [Query(t)] + [Success(u)]).failures == []
    ensures Run(c, calls + [Query(t)] + [Success(u)] + [Failure(v)]).phase == if c.threshold >= 2 then Closed else Open
  {
    hide Run;
    QueryMoves(c, calls, t);
    SuccessMoves(c, calls + [Query(t)], u);
    FailureMoves(c, calls + [Query(t)] + [Success(u)], v);
    FirstCounts(v, c.TtlMs());
  }

  lemma FirstCounts(v: nat, ttlMs: nat)
    ensures Current([] + [v], ttlMs).count == 1
  {
    assert ([] + [v])[..0] == [];
  }
}

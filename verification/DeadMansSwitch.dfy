/** security/secrets/dead.mans.switch.ts: halts all trading when the heartbeats stop. */
module DeadMansSwitches {
  import opened Basics
  import opened TtlStores
  import opened KillSwitches

  datatype HeartbeatKey = Heartbeat

  /**
   setInterval is modelled by the time of its next tick: while it runs, no operation happens later than that,
   and CheckHeartbeat happens at it. Times are milliseconds.
   */
  class DeadMansSwitch {
    const timeoutSeconds: nat
    const killSwitch: KillSwitch
    const store: TtlStore<HeartbeatKey, nat>
    var intervalHandle: Option<nat>
    var lastHeartbeatAt: Option<nat>

    ghost var clock: nat
    ghost var startedAt: nat
    ghost var failedReads: nat

    /** setInterval's period: half the timeout. */
    function Period(): nat {
      500 * timeoutSeconds
    }

    /** Two timeouts after the last heartbeat, or the start where there was none. */
    ghost function Lapse(): nat
      reads this
    {
      if lastHeartbeatAt.Some? then lastHeartbeatAt.value + 2000 * timeoutSeconds else 0
    }

    ghost function Running(): bool
      reads this
    {
      intervalHandle.Some?
    }

    /** From here on a tick finds no heartbeat. */
    ghost function SilentFrom(): nat
      reads this
    {
      if Lapse() > startedAt then Lapse() else startedAt
    }

    ghost predicate Valid()
      reads this, store, killSwitch, killSwitch.store
    {
      && timeoutSeconds > 0
      && killSwitch.Valid()
      && (lastHeartbeatAt.Some? ==> lastHeartbeatAt.value <= clock)
      && store.entries == (if lastHeartbeatAt.Some? then map[Heartbeat := Entry(lastHeartbeatAt.value, Some(Lapse()))]
          else map[])
      && (Running() ==> startedAt <= clock <= intervalHandle.value
                        && startedAt < intervalHandle.value <= SilentFrom() + Period() * (1 + failedReads))
    }

    constructor (timeoutSeconds: nat, killSwitch: KillSwitch, now: nat)
      requires timeoutSeconds > 0 && killSwitch.Valid()
      ensures Valid() && !Running() && lastHeartbeatAt == None && clock == now
      ensures this.timeoutSeconds == timeoutSeconds && this.killSwitch == killSwitch && fresh(store)
    {
      this.timeoutSeconds := timeoutSeconds;
      this.killSwitch := killSwitch;
      store := new TtlStore();
      intervalHandle := None;
      lastHeartbeatAt := None;
      clock := now;
      startedAt := 0;
      failedReads := 0;
    }

    /** Time does not run past the next tick. */
    ghost predicate InTime(now: nat)
      reads this
    {
      clock <= now && (Running() ==> now <= intervalHandle.value)
    }

    method RecordHeartbeat(now: nat)
      requires Valid() && InTime(now)
      modifies this, store
      ensures Valid() && clock == now && lastHeartbeatAt == Some(now)
      ensures intervalHandle == old(intervalHandle) && startedAt == old(startedAt) && failedReads == old(failedReads)
    {
      store.SetEx(Heartbeat, timeoutSeconds * 2, now, now);
      lastHeartbeatAt := Some(now);
      clock := now;
    }

    /** A second start is ignored. */
    method Start(now: nat)
      requires Valid() && InTime(now)
      modifies this
      ensures Valid() && clock == now && Running() && lastHeartbeatAt == old(lastHeartbeatAt)
      ensures old(Running()) ==>
                intervalHandle == old(intervalHandle) && startedAt == old(startedAt) && failedReads == old(failedReads)
      ensures !old(Running()) ==>
                startedAt == now && intervalHandle == Some(now + 500 * timeoutSeconds) && failedReads == 0
    {
      clock := now;
      if intervalHandle.Some? {
        return;
      }
      var checkIntervalMs := timeoutSeconds * 1000 / 2;
      intervalHandle := Some(now + checkIntervalMs);
      startedAt := now;
      failedReads := 0;
    }

    method Stop()
      requires Valid()
      modifies this
      ensures Valid() && !Running() && clock == old(clock) && lastHeartbeatAt == old(lastHeartbeatAt)
    {
      if intervalHandle.Some? {
        intervalHandle := None;
      }
    }

    /**
     One tick of the interval. It triggers the global switch, and stops, exactly if the store answers and the last
     heartbeat is more than two timeouts ago or never was. With no failed read that is at most two and a half
     timeouts after it, or half a timeout after the start.
     */
    method CheckHeartbeat(now: nat, readFails: bool) returns (triggered: bool)
      requires Valid() && Running() && now == intervalHandle.value
      modifies this, killSwitch.store
      ensures Valid() && clock == now && lastHeartbeatAt == old(lastHeartbeatAt)
      ensures triggered <==> !readFails && (lastHeartbeatAt.Some? ==>
                now > lastHeartbeatAt.value + 2000 * timeoutSeconds)
      ensures triggered ==> old(SilentFrom()) < now <= old(SilentFrom()) + 500 * timeoutSeconds * (1 + old(failedReads))
      ensures killSwitch.Halted() == old(killSwitch.Halted()) + if triggered then {GLOBAL} else {}
      ensures if triggered then !Running()
              else intervalHandle == Some(now + 500 * timeoutSeconds) && startedAt == old(startedAt)
                   && failedReads == if readFails then old(failedReads) + 1 else 0
    {
      hide KillSwitch.Valid;
      clock := now;
      if !readFails {
        var heartbeatValue := store.Get(Heartbeat, now);
        if heartbeatValue.None? {
          TriggerSwitch(now);
          return true;
        }
      }
      failedReads := if readFails then failedReads + 1 else 0;
      intervalHandle := Some(now + Period());
      triggered := false;
    }

    method TriggerSwitch(now: nat)
      requires Valid() && clock == now
      modifies this, killSwitch.store
      ensures Valid() && !Running() && clock == now && lastHeartbeatAt == old(lastHeartbeatAt)
      ensures killSwitch.Halted() == old(killSwitch.Halted()) + {GLOBAL}
    {
      killSwitch.Trigger(GLOBAL, "DEAD_MANS_SWITCH_TRIGGERED", "DeadMansSwitch", now);
      Stop();
    }
  }
}

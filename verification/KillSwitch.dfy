/** security/risk/kill.switch.ts: halts trading globally, for a user or for a strategy until an admin resets it. */
module KillSwitches {
  import opened Basics
  import opened TtlStores

  datatype Scope = GLOBAL | USER(userId: string) | STRATEGY(strategyId: string)

  datatype KillSwitchState = KillSwitchState(active: bool, reason: string, triggeredBy: string, triggeredAt: nat)

  datatype Error = Unauthorized(resetBy: string)

  class KillSwitch {
    const adminUserId: string
    const store: TtlStore<Scope, KillSwitchState>

    /** The scopes triggered and not reset since. */
    ghost function Halted(): set<Scope>
      reads store
    {
      store.entries.Keys
    }

    ghost predicate Valid()
      reads store
    {
      forall s :: s in store.entries ==> store.entries[s].expiresAt == None && store.entries[s].value.active
    }

    constructor (adminUserId: string)
      ensures Valid() && Halted() == {} && this.adminUserId == adminUserId && fresh(store)
    {
      this.adminUserId := adminUserId;
      store := new TtlStore();
    }

    method Trigger(scope: Scope, reason: string, triggeredBy: string, now: nat)
      requires Valid()
      modifies store
      ensures Valid() && Halted() == old(Halted()) + {scope}
      ensures store.entries[scope].value == KillSwitchState(true, reason, triggeredBy, now)
      ensures forall s :: s in old(Halted()) && s != scope ==> store.entries[s] == old(store.entries)[s]
    {
      store.Set(scope, KillSwitchState(true, reason, triggeredBy, now));
    }

    /** A scope is halted by its own entry or by the global one. */
    method IsActive(scope: Scope, now: nat) returns (active: bool)
      requires Valid()
      ensures active <==> GLOBAL in Halted() || scope in Halted()
    {
      var globalState := store.Get(GLOBAL, now);
      if globalState.Some? && globalState.value.active {
        return true;
      }
      if scope == GLOBAL {
        return false;
      }
      var state := store.Get(scope, now);
      if state.None? {
        return false;
      }
      return state.value.active;
    }

    /** Only the admin can lift a halt. */
    method Reset(scope: Scope, resetBy: string) returns (r: Result<(), Error>)
      requires Valid()
      modifies store
      ensures Valid()
      ensures r.Ok? <==> resetBy == adminUserId
      ensures Halted() == if r.Ok? then old(Halted()) - {scope} else old(Halted())
      ensures forall s :: s in Halted() ==> store.entries[s] == old(store.entries)[s]
    {
      if resetBy != adminUserId {
        return Err(Unauthorized(resetBy));
      }
      store.Del(scope);
      r := Ok(());
    }

    /** The request filter; absent and empty headers name no user or strategy. */
    method Middleware(userId: string, strategyId: string, now: nat) returns (passes: bool)
      requires Valid()
      ensures passes <==>
              && GLOBAL !in Halted()
              && (userId != "" ==> USER(userId) !in Halted())
              && (strategyId != "" ==> STRATEGY(strategyId) !in Halted())
    {
      var globalActive := IsActive(GLOBAL, now);
      if globalActive {
        return false;
      }
      if userId != "" {
        var userActive := IsActive(USER(userId), now);
        if userActive {
          return false;
        }
      }
      if strategyId != "" {
        var strategyActive := IsActive(STRATEGY(strategyId), now);
        if strategyActive {
          return false;
        }
      }
      return true;
    }
  }
}

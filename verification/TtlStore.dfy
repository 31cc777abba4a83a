/**
 The part of Redis that the components rely on: string keys holding a value and an optional
 expiry, read at a time `now` in integer milliseconds. Every key family has its own typed store;
 the families' key prefixes are disjoint, so separate stores behave as one shared keyspace does.
 */
module TtlStores {
  import opened Basics

  datatype Entry<+V> = Entry(value: V, expiresAt: Option<nat>)

  /** A key dies strictly after its expiry. */
  predicate LiveAt<V>(e: Entry<V>, now: nat) {
    e.expiresAt.None? || now <= e.expiresAt.value
  }

  function LookupIn<K(==), V>(entries: map<K, Entry<V>>, k: K, now: nat): Option<V> {
    if k in entries && LiveAt(entries[k], now) then Some(entries[k].value) else None
  }

  class TtlStore<K(==), V> {
    var entries: map<K, Entry<V>>

    constructor ()
      ensures entries == map[]
    {
      entries := map[];
    }

    function Lookup(k: K, now: nat): Option<V>
      reads this
    {
      LookupIn(entries, k, now)
    }

    method Get(k: K, now: nat) returns (r: Option<V>)
      ensures r == Lookup(k, now)
    {
      r := Lookup(k, now);
    }

    method Set(k: K, v: V)
      modifies this
      ensures entries == old(entries)[k := Entry(v, None)]
    {
      entries := entries[k := Entry(v, None)];
    }

    method SetEx(k: K, ttlSeconds: nat, v: V, now: nat)
      requires ttlSeconds > 0
      modifies this
      ensures entries == old(entries)[k := Entry(v, Some(now + 1000 * ttlSeconds))]
    {
      entries := entries[k := Entry(v, Some(now + 1000 * ttlSeconds))];
    }

    method Del(k: K)
      modifies this
      ensures entries == old(entries) - {k}
    {
      entries := entries - {k};
    }

    /** EXPIRE replaces the expiry of a live key and ignores a dead one. */
    method Expire(k: K, ttlSeconds: nat, now: nat)
      requires ttlSeconds > 0
      modifies this
      ensures old(Lookup(k, now)).Some? ==>
                entries == old(entries)[k := Entry(old(Lookup(k, now)).value, Some(now + 1000 * ttlSeconds))]
      ensures old(Lookup(k, now)).None? ==> entries == old(entries)
    {
      if k in entries && LiveAt(entries[k], now) {
        entries := entries[k := entries[k].(expiresAt := Some(now + 1000 * ttlSeconds))];
      }
    }
  }

  /** INCR keeps the expiry of a live counter and starts a dead one again at 1 without any. */
  method Incr<K>(store: TtlStore<K, nat>, k: K, now: nat) returns (n: nat)
    modifies store
    ensures n == (if old(store.Lookup(k, now)).Some? then old(store.Lookup(k, now)).value + 1 else 1)
    ensures store.entries ==
            old(store.entries)[k := Entry(n, if old(store.Lookup(k, now)).Some?
                                             then old(store.entries)[k].expiresAt
                                             else None)]
  {
    if k in store.entries && LiveAt(store.entries[k], now) {
      n := store.entries[k].value + 1;
      store.entries := store.entries[k := store.entries[k].(value := n)];
    } else {
      n := 1;
      store.entries := store.entries[k := Entry(1, None)];
    }
  }

  /** LPUSH puts x in front of a live list, keeping its expiry, and starts a dead list afresh. */
  method PushFront<K, T>(store: TtlStore<K, seq<T>>, k: K, x: T, now: nat)
    modifies store
    ensures store.entries ==
            old(store.entries)[k := if old(store.Lookup(k, now)).Some?
                                    then Entry([x] + old(store.Lookup(k, now)).value, old(store.entries)[k].expiresAt)
                                    else Entry([x], None)]
  {
    if k in store.entries && LiveAt(store.entries[k], now) {
      store.entries := store.entries[k := store.entries[k].(value := [x] + store.entries[k].value)];
    } else {
      store.entries := store.entries[k := Entry([x], None)];
    }
  }
}

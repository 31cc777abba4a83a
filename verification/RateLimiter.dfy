/** security/rate-limit/rate.limiter.ts: a sliding-window limiter on a sorted set whose key expires. */
module RateLimiters {
  import opened Basics
  import opened TtlStores

  /** A Redis sorted set: members with their scores. */
  type SortedSet = map<string, nat>

  datatype RateLimitResult = RateLimitResult(allowed: bool, remaining: int, resetAt: nat)

  datatype Identifier = Identifier(key: string, limit: int, windowMs: nat)

  /** One finished check; member is the random identifier under which an allowed request is stored. */
  datatype Call = Call(id: Identifier, at: nat, member: string, allowed: bool)

  // ----- sorted-set commands

  /** The members present at time now. */
  function Stored(entries: map<string, Entry<SortedSet>>, key: string, now: nat): SortedSet {
    if LookupIn(entries, key, now).Some? then LookupIn(entries, key, now).value else map[]
  }

  /** The members with a score above max. */
  function After(s: SortedSet, max: int): SortedSet {
    map m | m in s && s[m] > max :: s[m]
  }

  /** ZREMRANGEBYSCORE key 0 max; Redis deletes a sorted set that becomes empty. */
  function Purged(entries: map<string, Entry<SortedSet>>, key: string, max: int, now: nat)
    : map<string, Entry<SortedSet>>
  {
    if key in entries && LiveAt(entries[key], now) then
      var left := After(entries[key].value, max);
      if left == map[] then entries - {key} else entries[key := entries[key].(value := left)]
    else
      entries
  }

  method RemoveUpTo(store: TtlStore<string, SortedSet>, key: string, max: int, now: nat)
    modifies store
    ensures store.entries == Purged(old(store.entries), key, max, now)
  {
    store.entries := Purged(store.entries, key, max, now);
  }

  method CountMembers(store: TtlStore<string, SortedSet>, key: string, now: nat) returns (n: nat)
    ensures n == |Stored(store.entries, key, now)|
  {
    var live := store.Get(key, now);
    n := if live.Some? then |live.value| else 0;
  }

  /** ZADD keeps the expiry of a live set and starts a dead one afresh. */
  function Added(entries: map<string, Entry<SortedSet>>, key: string, score: nat, member: string, now: nat)
    : map<string, Entry<SortedSet>>
  {
    if key in entries && LiveAt(entries[key], now)
    then entries[key := entries[key].(value := entries[key].value[member := score])]
    else entries[key := Entry(map[member := score], None)]
  }

  method AddMember(store: TtlStore<string, SortedSet>, key: string, score: nat, member: string, now: nat)
    modifies store
    ensures store.entries == Added(old(store.entries), key, score, member, now)
  {
    store.entries := Added(store.entries, key, score, member, now);
  }

  lemma PurgedIsFiltered(entries: map<string, Entry<SortedSet>>, key: string, max: int, now: nat)
    ensures Stored(Purged(entries, key, max, now), key, now) == After(Stored(entries, key, now), max)
  {
  }

  lemma AddedIsLive(entries: map<string, Entry<SortedSet>>, key: string, score: nat, member: string, now: nat,
                    e: Entry<SortedSet>)
    ensures LookupIn(Added(entries, key, score, member, now), key, now) ==
              Some(Stored(entries, key, now)[member := score])
    ensures Added(entries, key, score, member, now)[key := e] == entries[key := e]
  {
  }

  // ----- what a history of calls means

  /** The requests allowed on the key so far, in a log that never expires. */
  ghost function AllowedLog(h: seq<Call>, key: string): SortedSet {
    if h == [] then map[]
    else
      var c := h[|h| - 1];
      var before := AllowedLog(h[..|h| - 1], key);
      if c.allowed && c.id.key == key then before[c.member := c.at] else before
  }

  /** Every call on the key used this window length. */
  ghost predicate UsesWindow(h: seq<Call>, key: string, windowMs: nat) {
    forall i :: 0 <= i < |h| && h[i].id.key == key ==> h[i].id.windowMs == windowMs
  }

  ghost predicate UsesLimit(h: seq<Call>, key: string, limit: int) {
    forall i :: 0 <= i < |h| && h[i].id.key == key ==> h[i].id.limit == limit
  }

  /** Times never decrease, and no member is drawn twice. */
  ghost predicate WellFormed(h: seq<Call>, clock: nat) {
    && (forall i, j :: 0 <= i <= j < |h| ==> h[i].at <= h[j].at)
    && (forall i :: 0 <= i < |h| ==> h[i].at <= clock && h[i].id.windowMs > 0)
    && (forall i, j :: 0 <= i < j < |h| ==> h[i].member != h[j].member)
  }

  /** The answer the never-expiring log gives: fewer than limit requests allowed in (at - window, at]. */
  ghost predicate Admits(log: SortedSet, id: Identifier, at: nat) {
    |After(log, at - id.windowMs)| < id.limit
  }

  /** The i-th answer is the never-expiring log's, if its key had only seen one window length. */
  ghost predicate Answered(h: seq<Call>, i: nat)
    requires i < |h|
  {
    UsesWindow(h[..i], h[i].id.key, h[i].id.windowMs) ==>
      h[i].allowed == Admits(AllowedLog(h[..i], h[i].id.key), h[i].id, h[i].at)
  }

  ghost predicate Truthful(h: seq<Call>) {
    forall i :: 0 <= i < |h| ==> Answered(h, i)
  }

  /**
   What the stored set of a key knows about the log: it holds only logged requests, at least those
   still inside the window, and it expires no sooner than the last of them leaves the window.
   */
  ghost predicate Covers(entries: map<string, Entry<SortedSet>>, key: string, log: SortedSet, windowMs: nat,
                         clock: nat) {
    && (key in entries ==>
          && (forall m :: m in entries[key].value ==> m in log && log[m] == entries[key].value[m])
          && entries[key].expiresAt.Some?
          && (forall m :: m in log ==> log[m] + windowMs <= entries[key].expiresAt.value))
    && (forall m :: m in log && log[m] > clock - windowMs ==> key in entries && m in entries[key].value)
  }

  /** At a later time a covering set, after dropping what left the window, is the log's window. */
  lemma CoveringSetIsExact(entries: map<string, Entry<SortedSet>>, key: string, log: SortedSet, windowMs: nat,
                           clock: nat, now: nat)
    requires Covers(entries, key, log, windowMs, clock) && clock <= now
    ensures After(Stored(entries, key, now), now - windowMs) == After(log, now - windowMs)
  {
  }

  /**
   The store after a whole check: what left the window is gone, and an allowed request is added under a new expiry.
   */
  ghost function Checked(entries: map<string, Entry<SortedSet>>, c: Call): map<string, Entry<SortedSet>> {
    var purged := Purged(entries, c.id.key, c.at - c.id.windowMs, c.at);
    if c.allowed
    then purged[c.id.key := Entry(Stored(purged, c.id.key, c.at)[c.member := c.at],
                                  Some(c.at + 1000 * CeilSeconds(c.id.windowMs)))]
    else purged
  }

  lemma PurgeKeepsCover(entries: map<string, Entry<SortedSet>>, key: string, log: SortedSet, windowMs: nat, clock: nat,
                        now: nat)
    requires Covers(entries, key, log, windowMs, clock) && clock <= now
    ensures var purged := Purged(entries, key, now - windowMs, now);
            Covers(purged, key, log, windowMs, now) && Stored(purged, key, now) == After(log, now - windowMs)
  {
    CoveringSetIsExact(entries, key, log, windowMs, clock, now);
    assert forall m :: m in log && log[m] > now - windowMs ==> m in After(log, now - windowMs);
  }

  lemma AddKeepsCover(entries: map<string, Entry<SortedSet>>, key: string, log: SortedSet, windowMs: nat, now: nat,
                      member: string)
    requires Stored(entries, key, now) == After(log, now - windowMs)
    requires forall m :: m in log ==> log[m] <= now && m != member
    ensures Covers(entries[key := Entry(Stored(entries, key, now)[member := now],
              Some(now + 1000 * CeilSeconds(windowMs)))],
                   key, log[member := now], windowMs, now)
  {
    assert forall m :: m in log && log[m] > now - windowMs ==> m in After(log, now - windowMs);
  }

  lemma CheckKeepsOwnCover(entries: map<string, Entry<SortedSet>>, log: SortedSet, clock: nat, c: Call)
    requires Covers(entries, c.id.key, log, c.id.windowMs, clock) && clock <= c.at
    requires forall m :: m in log ==> log[m] <= clock && m != c.member
    ensures Covers(Checked(entries, c), c.id.key, if c.allowed then log[c.member := c.at] else log, c.id.windowMs, c.at)
  {
    hide Covers, Purged, Stored, After;
    var key, windowMs := c.id.key, c.id.windowMs;
    PurgeKeepsCover(entries, key, log, windowMs, clock, c.at);
    AddKeepsCover(Purged(entries, key, c.at - windowMs, c.at), key, log, windowMs, c.at, c.member);
  }

  lemma CheckKeepsOtherCover(entries: map<string, Entry<SortedSet>>, key: string, log: SortedSet, windowMs: nat,
                             clock: nat, c: Call)
    requires Covers(entries, key, log, windowMs, clock) && clock <= c.at && key != c.id.key
    ensures Covers(Checked(entries, c), key, log, windowMs, c.at)
  {
    assert key in Checked(entries, c) <==> key in entries;
  }

  /** The cover of every key, which the limiter keeps. */
  ghost predicate AllCovered(entries: map<string, Entry<SortedSet>>, h: seq<Call>, clock: nat) {
    forall key, windowMs {:trigger UsesWindow(h, key, windowMs)} ::
      UsesWindow(h, key, windowMs) ==> Covers(entries, key, AllowedLog(h, key), windowMs, clock)
  }

  lemma KeyIsCovered(entries: map<string, Entry<SortedSet>>, h: seq<Call>, clock: nat, key: string, windowMs: nat)
    requires AllCovered(entries, h, clock) && UsesWindow(h, key, windowMs)
    ensures Covers(entries, key, AllowedLog(h, key), windowMs, clock)
  {
  }

  lemma CheckKeepsAllCovers(entries: map<string, Entry<SortedSet>>, h: seq<Call>, clock: nat, c: Call)
    requires WellFormed(h, clock) && AllCovered(entries, h, clock) && clock <= c.at
    requires forall i :: 0 <= i < |h| ==> h[i].member != c.member
    ensures AllCovered(Checked(entries, c), h + [c], c.at)
  {
    assert (h + [c])[..|h|] == h;
    forall key, windowMs {:trigger UsesWindow(h + [c], key, windowMs)} | UsesWindow(h + [c], key, windowMs)
      ensures Covers(Checked(entries, c), key, AllowedLog(h + [c], key), windowMs, c.at)
    {
      assert forall i :: 0 <= i < |h| ==> h[i] == (h + [c])[i];
      assert UsesWindow(h, key, windowMs);
      if key == c.id.key {
        assert (h + [c])[|h|].id.windowMs == windowMs;
        LogTimes(h, clock, key);
        CheckKeepsOwnCover(entries, AllowedLog(h, key), clock, c);
      } else {
        CheckKeepsOtherCover(entries, key, AllowedLog(h, key), windowMs, clock, c);
      }
    }
  }

  // ----- the limiter

  class RateLimiter {
    const store: TtlStore<string, SortedSet>
    ghost var history: seq<Call>
    ghost var clock: nat

    ghost predicate Valid()
      reads this, store
    {
      && WellFormed(history, clock)
      && Truthful(history)
      && AllCovered(store.entries, history, clock)
    }

    constructor ()
      ensures Valid() && history == [] && clock == 0 && fresh(store)
    {
      store := new TtlStore();
      history := [];
      clock := 0;
    }

    method Check(key: string, limit: int, windowMs: nat, now: nat, member: string) returns (r: RateLimitResult)
      requires Valid() && clock <= now && windowMs > 0
      requires forall i :: 0 <= i < |history| ==> history[i].member != member
      modifies this, store
      ensures Valid() && clock == now
      ensures history == old(history) + [Call(Identifier(key, limit, windowMs), now, member, r.allowed)]
      ensures r.resetAt == now + windowMs && (!r.allowed ==> r.remaining == 0)
      ensures UsesWindow(old(history), key, windowMs) ==>
                var log := After(AllowedLog(old(history), key), now - windowMs);
                && r.allowed == (|log| < limit)
                && (r.allowed ==> r.remaining == limit - |log| - 1)
    {
      hide AllCovered, WellFormed, Truthful, AllowedLog, UsesWindow, Covers, After, Stored, Purged, Added;
      ghost var log, entries := AllowedLog(history, key), store.entries;
      if UsesWindow(history, key, windowMs) {
        KeyIsCovered(entries, history, clock, key, windowMs);
        CoveringSetIsExact(entries, key, log, windowMs, clock, now);
      }
      PurgedIsFiltered(entries, key, now - windowMs, now);
      RemoveUpTo(store, key, now - windowMs, now);
      var currentCount := CountMembers(store, key, now);
      if currentCount >= limit {
        r := RateLimitResult(false, 0, now + windowMs);
      } else {
        AddedIsLive(store.entries, key, now, member, now,
                    Entry(Stored(store.entries, key, now)[member := now], Some(now + 1000 * CeilSeconds(windowMs))));
        AddMember(store, key, now, member, now);
        store.Expire(key, CeilSeconds(windowMs), now);
        r := RateLimitResult(true, limit - currentCount - 1, now + windowMs);
      }
      ghost var call := Call(Identifier(key, limit, windowMs), now, member, r.allowed);
      assert store.entries == Checked(entries, call);
      CheckKeepsAllCovers(entries, history, clock, call);
      HistoryGrows(history, call, clock);
      clock := now;
      history := history + [call];
    }

    method CheckAll(identifiers: seq<Identifier>, now: nat, members: seq<string>)
      returns (results: seq<RateLimitResult>)
      requires Valid() && clock <= now
      requires forall i :: 0 <= i < |identifiers| ==> identifiers[i].windowMs > 0
      requires |members| == |identifiers|
      requires forall i, j :: 0 <= i < j < |members| ==> members[i] != members[j]
      requires forall i, j :: 0 <= i < |history| && 0 <= j < |members| ==> history[i].member != members[j]
      modifies this, store
      ensures Valid()
      ensures |results| == |identifiers|
      ensures history == old(history) + seq(|identifiers|, i requires 0 <= i < |identifiers| =>
                           Call(identifiers[i], now, members[i], results[i].allowed))
    {
      results := [];
      ghost var n := |identifiers|;
      for i := 0 to |identifiers|
        invariant Valid() && clock <= now && |results| == i
        invariant history == old(history)
                             + seq(i, j requires 0 <= j < i =>
                                 Call(identifiers[j], now, members[j], results[j].allowed))
      {
        var id := identifiers[i];
        var result := Check(id.key, id.limit, id.windowMs, now, members[i]);
        results := results + [result];
      }
    }
  }

  lemma LogTimes(h: seq<Call>, clock: nat, key: string)
    requires WellFormed(h, clock)
    ensures forall m :: m in AllowedLog(h, key) ==>
              && AllowedLog(h, key)[m] <= clock
              && exists i :: 0 <= i < |h| && h[i].member == m
  {
    if h != [] {
      LogTimes(h[..|h| - 1], clock, key);
    }
  }

  lemma HistoryGrows(h: seq<Call>, c: Call, clock: nat)
    requires WellFormed(h, clock) && Truthful(h) && clock <= c.at && c.id.windowMs > 0
    requires forall i :: 0 <= i < |h| ==> h[i].member != c.member
    requires UsesWindow(h, c.id.key, c.id.windowMs) ==> c.allowed == Admits(AllowedLog(h, c.id.key), c.id, c.at)
    ensures WellFormed(h + [c], c.at) && Truthful(h + [c])
    ensures forall key :: AllowedLog(h + [c], key) ==
                          if c.allowed && c.id.key == key
                          then AllowedLog(h, key)[c.member := c.at]
                          else AllowedLog(h, key)
  {
    var more := h + [c];
    assert more[..|h|] == h;
    forall i | 0 <= i < |more|
      ensures Answered(more, i)
    {
      if i < |h| {
        assert Answered(h, i) && more[i] == h[i] && more[..i] == h[..i];
      }
    }
  }

  // ----- the guarantee

  /** The requests allowed in the window (t - windowMs, t]. */
  ghost function AllowedIn(log: SortedSet, t: int, windowMs: nat): set<string> {
    set m | m in log && t - windowMs < log[m] <= t
  }

  /** A further allowed request fits into every window, because its own window had room. */
  lemma AllowedFits(log: SortedSet, c: Call, t: int)
    requires forall m :: m in log ==> log[m] <= c.at
    requires Admits(log, c.id, c.at) && |AllowedIn(log, t, c.id.windowMs)| <= c.id.limit
    ensures |AllowedIn(log[c.member := c.at], t, c.id.windowMs)| <= c.id.limit
  {
    var more := AllowedIn(log[c.member := c.at], t, c.id.windowMs);
    if c.at <= t {
      SubsetSize(more, After(log, c.at - c.id.windowMs).Keys + {c.member});
    } else {
      SubsetSize(more, AllowedIn(log, t, c.id.windowMs));
    }
  }

  /**
   With one limit and one window length on a key, every window of that length, ending at any time, holds at most limit
   allowed requests.
   */
  lemma {:induction false} WindowBound(h: seq<Call>, clock: nat, key: string, limit: nat, windowMs: nat, t: int)
    requires WellFormed(h, clock) && Truthful(h)
    requires UsesWindow(h, key, windowMs) && UsesLimit(h, key, limit)
    ensures |AllowedIn(AllowedLog(h, key), t, windowMs)| <= limit
  {
    if h != [] {
      var front, c := h[..|h| - 1], h[|h| - 1];
      PrefixIsSound(h, clock, |h| - 1);
      WindowBound(front, c.at, key, limit, windowMs, t);
      if c.allowed && c.id.key == key {
        LogTimes(front, c.at, key);
        AllowedFits(AllowedLog(front, key), c, t);
      }
    }
  }

  lemma PrefixIsSound(h: seq<Call>, clock: nat, i: nat)
    requires i < |h| && WellFormed(h, clock) && Truthful(h)
    ensures WellFormed(h[..i], h[i].at) && Truthful(h[..i])
    ensures Answered(h, i)
  {
    var before := h[..i];
    forall j | 0 <= j < i
      ensures Answered(before, j)
    {
      assert Answered(h, j) && before[j] == h[j] && before[..j] == h[..j];
    }
  }

  /** A window holding at most limit requests is full exactly when the next request is not admitted. */
  lemma FullIffNotAdmitted(log: SortedSet, id: Identifier, at: nat)
    requires forall m :: m in log ==> log[m] <= at
    requires |AllowedIn(log, at, id.windowMs)| <= id.limit
    ensures Admits(log, id, at) <==> |AllowedIn(log, at, id.windowMs)| != id.limit
  {
    assert AllowedIn(log, at, id.windowMs) == After(log, at - id.windowMs).Keys;
  }

  /** A request is refused exactly when limit requests were allowed in the window ending at it. */
  lemma {:induction false} RefusedIffWindowFull(h: seq<Call>, clock: nat, i: nat, limit: nat, windowMs: nat)
    requires WellFormed(h, clock) && Truthful(h) && i < |h|
    requires UsesWindow(h, h[i].id.key, windowMs) && UsesLimit(h, h[i].id.key, limit)
    ensures !h[i].allowed <==>
            |AllowedIn(AllowedLog(h[..i], h[i].id.key), h[i].at, windowMs)| == limit
  {
    var c, before := h[i], h[..i];
    PrefixIsSound(h, clock, i);
    assert UsesWindow(before, c.id.key, windowMs) && UsesLimit(before, c.id.key, limit);
    LogTimes(before, c.at, c.id.key);
    WindowBound(before, c.at, c.id.key, limit, windowMs, c.at);
    FullIffNotAdmitted(AllowedLog(before, c.id.key), c.id, c.at);
    hide Admits, AllowedIn, AllowedLog, WellFormed;
  }
}

/** security/confirmation/approval.flow.ts: human approval of an action by a single-use challenge. */
module Approvals {
  import opened Basics
  import opened TtlStores

  const CHALLENGE_TTL_SECONDS := 300
  const CONSUMED_MARKER_TTL_SECONDS := 3600

  datatype Challenge<A> = Challenge(
    challengeId: string, userId: string, sessionId: string, action: A, signature: string, createdAt: nat,
        expiresAt: nat)

  datatype ApprovedAction<A> = ApprovedAction(challengeId: string, userId: string, action: A, approvedAt: nat)

  datatype Error = Replay | Expired | Ownership | BadSignature

  datatype Key = ChallengeKey(id: string) | ConsumedKey(id: string)

  datatype Value<A> = Pending(challenge: Challenge<A>) | Consumed

  /** What the stored keys know about the challenges created and approved so far. */
  ghost predicate Stores<A>(entries: map<Key, Entry<Value<A>>>, created: map<string, Challenge<A>>,
                            approvals: seq<ApprovedAction<A>>, honoursTtl: bool, clock: nat) {
    && (forall id :: ChallengeKey(id) in entries ==>
          && id in created && !Approved(approvals, id)
          && entries[ChallengeKey(id)] ==
             Entry(Pending(created[id]), if honoursTtl then Some(created[id].expiresAt) else None))
    && (forall id :: id in created && !Approved(approvals, id) && clock <= created[id].expiresAt ==>
          ChallengeKey(id) in entries)
    && (forall id :: ConsumedKey(id) in entries ==> Approved(approvals, id))
    && (forall i :: 0 <= i < |approvals| ==>
          && ConsumedKey(approvals[i].challengeId) in entries
          && entries[ConsumedKey(approvals[i].challengeId)]
             == Entry(Consumed, if honoursTtl then Some(approvals[i].approvedAt + 1000 * CONSUMED_MARKER_TTL_SECONDS)
                 else None))
  }

  ghost predicate Approved<A>(approvals: seq<ApprovedAction<A>>, id: string) {
    exists i :: 0 <= i < |approvals| && approvals[i].challengeId == id
  }

  /**
   Every approval is of a created challenge, by its user, for its action, no later than its expiry,
   and no challenge is approved twice.
   */
  ghost predicate ApprovedSoundly<A>(approvals: seq<ApprovedAction<A>>, created: map<string, Challenge<A>>) {
    && (forall i :: 0 <= i < |approvals| ==>
          var a := approvals[i];
          && a.challengeId in created
          && a.userId == created[a.challengeId].userId
          && a.action == created[a.challengeId].action
          && created[a.challengeId].createdAt <= a.approvedAt
          && a.approvedAt <= created[a.challengeId].createdAt + 1000 * CHALLENGE_TTL_SECONDS)
    && (forall i, j :: 0 <= i < j < |approvals| ==> approvals[i].challengeId != approvals[j].challengeId)
  }

  ghost predicate CreatedSoundly<A>(created: map<string, Challenge<A>>, clock: nat) {
    forall id :: id in created ==>
      && created[id].challengeId == id
      && created[id].createdAt <= clock
      && created[id].expiresAt == created[id].createdAt + 1000 * CHALLENGE_TTL_SECONDS
  }

  /** A new challenge under an unused id is stored and approvable. */
  lemma CreatingKeeps<A>(entries: map<Key, Entry<Value<A>>>, created: map<string, Challenge<A>>,
                         approvals: seq<ApprovedAction<A>>, honoursTtl: bool, clock: nat, c: Challenge<A>)
    requires Stores(entries, created, approvals, honoursTtl, clock) && ApprovedSoundly(approvals, created)
    requires CreatedSoundly(created, clock) && c.challengeId !in created
    requires clock <= c.createdAt && c.expiresAt == c.createdAt + 1000 * CHALLENGE_TTL_SECONDS
    ensures var entry :=
              Entry(Pending(c), if honoursTtl then Some(c.createdAt + 1000 * CHALLENGE_TTL_SECONDS) else None);
            && Stores(entries[ChallengeKey(c.challengeId) := entry], created[c.challengeId := c], approvals, honoursTtl,
                c.createdAt)
            && ApprovedSoundly(approvals, created[c.challengeId := c])
            && CreatedSoundly(created[c.challengeId := c], c.createdAt)
  {
    assert !Approved(approvals, c.challengeId);
  }

  /** The approvals whose consumed marker is still visible at time now. */
  ghost predicate MarkerLives<A>(approvals: seq<ApprovedAction<A>>, id: string, honoursTtl: bool, now: nat) {
    exists i :: 0 <= i < |approvals| && approvals[i].challengeId == id
                && (honoursTtl ==> now <= approvals[i].approvedAt + 1000 * CONSUMED_MARKER_TTL_SECONDS)
  }

  /** A submission may be approved. */
  ghost predicate Open<A>(created: map<string, Challenge<A>>, approvals: seq<ApprovedAction<A>>, id: string, now: nat) {
    id in created && !Approved(approvals, id) && now <= created[id].expiresAt
  }

  lemma MarkerReadsTrue<A>(entries: map<Key, Entry<Value<A>>>, created: map<string, Challenge<A>>,
                           approvals: seq<ApprovedAction<A>>, honoursTtl: bool, clock: nat, id: string, now: nat)
    requires Stores(entries, created, approvals, honoursTtl, clock) && ApprovedSoundly(approvals, created)
    ensures LookupIn(entries, ConsumedKey(id), now).Some? <==> MarkerLives(approvals, id, honoursTtl, now)
    ensures MarkerLives(approvals, id, honoursTtl, now) ==> Approved(approvals, id)
  {
    if Approved(approvals, id) {
      var i :| 0 <= i < |approvals| && approvals[i].challengeId == id;
      assert ConsumedKey(approvals[i].challengeId) in entries;
    }
  }

  /** Even when the marker has lapsed, a used or expired challenge reads as absent or as expired. */
  lemma ChallengeReadsTrue<A>(entries: map<Key, Entry<Value<A>>>, created: map<string, Challenge<A>>,
                              approvals: seq<ApprovedAction<A>>, honoursTtl: bool, clock: nat, id: string, now: nat)
    requires Stores(entries, created, approvals, honoursTtl, clock) && clock <= now
    ensures var raw := LookupIn(entries, ChallengeKey(id), now);
            && (raw.Some? ==> id in created && !Approved(approvals, id) && raw.value == Pending(created[id]))
            && (Open(created, approvals, id, now) <==> raw.Some? && now <= created[id].expiresAt)
  {
  }

  lemma TimePassing<A>(entries: map<Key, Entry<Value<A>>>, created: map<string, Challenge<A>>,
                       approvals: seq<ApprovedAction<A>>, honoursTtl: bool, clock: nat, now: nat)
    requires Stores(entries, created, approvals, honoursTtl, clock) && CreatedSoundly(created, clock) && clock <= now
    ensures Stores(entries, created, approvals, honoursTtl, now) && CreatedSoundly(created, now)
  {
  }

  lemma DroppingExpiredKeeps<A>(entries: map<Key, Entry<Value<A>>>, created: map<string, Challenge<A>>,
                                approvals: seq<ApprovedAction<A>>, honoursTtl: bool, clock: nat, id: string)
    requires Stores(entries, created, approvals, honoursTtl, clock)
    requires id in created && created[id].expiresAt < clock
    ensures Stores(entries - {ChallengeKey(id)}, created, approvals, honoursTtl, clock)
  {
  }

  lemma ApprovedAppend<A>(approvals: seq<ApprovedAction<A>>, a: ApprovedAction<A>, id: string)
    ensures Approved(approvals + [a], id) <==> id == a.challengeId || Approved(approvals, id)
  {
    var more := approvals + [a];
    assert more[|approvals|] == a;
    if Approved(approvals, id) {
      var i :| 0 <= i < |approvals| && approvals[i].challengeId == id;
      assert more[i].challengeId == id;
    }
  }

  /** Approving an open challenge removes it for good. */
  lemma ApprovingKeepsStore<A>(entries: map<Key, Entry<Value<A>>>, created: map<string, Challenge<A>>,
                               approvals: seq<ApprovedAction<A>>, honoursTtl: bool, clock: nat, a: ApprovedAction<A>)
    requires Stores(entries, created, approvals, honoursTtl, clock)
    requires Open(created, approvals, a.challengeId, clock) && a.approvedAt == clock
    ensures var marker :=
              Entry(Consumed, if honoursTtl then Some(clock + 1000 * CONSUMED_MARKER_TTL_SECONDS) else None);
            Stores((entries - {ChallengeKey(a.challengeId)})[ConsumedKey(a.challengeId) := marker],
                   created, approvals + [a], honoursTtl, clock)
  {
    forall k {
      ApprovedAppend(approvals, a, k);
    }
    hide Approved;
  }

  lemma ApprovingKeepsSoundness<A>(created: map<string, Challenge<A>>, approvals: seq<ApprovedAction<A>>, clock: nat,
                                   a: ApprovedAction<A>)
    requires CreatedSoundly(created, clock) && ApprovedSoundly(approvals, created)
    requires Open(created, approvals, a.challengeId, clock) && a.approvedAt == clock
    requires a.userId == created[a.challengeId].userId && a.action == created[a.challengeId].action
    ensures ApprovedSoundly(approvals + [a], created)
  {
    assert forall i :: 0 <= i < |approvals| ==> (approvals + [a])[i] == approvals[i];
  }

  /** An approval is at most five minutes after its challenge, over every run; its marker lives for an hour. */
  lemma ApprovedInTime<A>(approvals: seq<ApprovedAction<A>>, created: map<string, Challenge<A>>, i: nat, now: nat)
    requires ApprovedSoundly(approvals, created) && i < |approvals|
    ensures var a := approvals[i];
            && a.challengeId in created && a.approvedAt <= created[a.challengeId].createdAt + 300000
            && (MarkerLives(approvals, a.challengeId, true, now) <==> now <= a.approvedAt + 3600000)
            && MarkerLives(approvals, a.challengeId, false, now)
  {
    assert approvals[i].challengeId == approvals[i].challengeId;
  }

  class ApprovalFlow<A> {
    /** HMAC-SHA256 under the configured secret. */
    const hmac: string -> string
    /** JSON.stringify; parsing its result gives the action back, so actions are stored as they are. */
    const stringify: A -> string
    /** Whether the store's SET obeys the TTL it is passed; the Redis adapter of this system ignores it. */
    const honoursTtl: bool
    const redis: TtlStore<Key, Value<A>>
    ghost var created: map<string, Challenge<A>>
    ghost var approvals: seq<ApprovedAction<A>>
    ghost var clock: nat

    ghost predicate Valid()
      reads this, redis
    {
      && CreatedSoundly(created, clock)
      && Stores(redis.entries, created, approvals, honoursTtl, clock)
      && ApprovedSoundly(approvals, created)
    }

    constructor (hmac: string -> string, stringify: A -> string, honoursTtl: bool)
      ensures Valid() && created == map[] && approvals == [] && clock == 0 && fresh(redis)
      ensures this.hmac == hmac && this.stringify == stringify && this.honoursTtl == honoursTtl
    {
      this.hmac := hmac;
      this.stringify := stringify;
      this.honoursTtl := honoursTtl;
      redis := new TtlStore();
      created := map[];
      approvals := [];
      clock := 0;
    }

    function ApprovalSignature(challengeId: string, userId: string): string {
      hmac("approve:" + challengeId + ":" + userId)
    }

    /** SET with a TTL argument. */
    method SetWithTtl(k: Key, v: Value<A>, ttlSeconds: nat, now: nat)
      requires ttlSeconds > 0
      modifies redis
      ensures redis.entries ==
              old(redis.entries)[k := Entry(v, if honoursTtl then Some(now + 1000 * ttlSeconds) else None)]
    {
      if honoursTtl {
        redis.SetEx(k, ttlSeconds, v, now);
      } else {
        redis.Set(k, v);
      }
    }

    method CreateChallenge(action: A, userId: string, sessionId: string, now: nat, challengeId: string)
      returns (c: Challenge<A>)
      requires Valid() && clock <= now && challengeId !in created
      modifies this, redis
      ensures Valid() && clock == now
      ensures c == Challenge(challengeId, userId, sessionId, action,
                             hmac(challengeId + ":" + userId + ":" + sessionId + ":" + stringify(action)),
                             now, now + 300000)
      ensures created == old(created)[challengeId := c] && approvals == old(approvals)
    {
      hide Stores, ApprovedSoundly, CreatedSoundly, Approved;
      var signature := hmac(challengeId + ":" + userId + ":" + sessionId + ":" + stringify(action));
      c := Challenge(challengeId, userId, sessionId, action, signature, now, now + 1000 * CHALLENGE_TTL_SECONDS);
      SetWithTtl(ChallengeKey(challengeId), Pending(c), CHALLENGE_TTL_SECONDS, now);
      CreatingKeeps(old(redis.entries), created, approvals, honoursTtl, clock, c);
      created := created[challengeId := c];
      clock := now;
    }

    /** Deletes the challenge and leaves the consumed marker. */
    method MarkConsumed(challengeId: string, userId: string, action: A, now: nat) returns (approved: ApprovedAction<A>)
      requires Valid() && clock == now && Open(created, approvals, challengeId, now)
      requires userId == created[challengeId].userId && action == created[challengeId].action
      modifies this, redis
      ensures Valid() && clock == now && created == old(created)
      ensures approved == ApprovedAction(challengeId, userId, action, now)
      ensures approvals == old(approvals) + [approved]
    {
      hide Stores, ApprovedSoundly, CreatedSoundly, Open;
      approved := ApprovedAction(challengeId, userId, action, now);
      ApprovingKeepsStore(redis.entries, created, approvals, honoursTtl, clock, approved);
      ApprovingKeepsSoundness(created, approvals, clock, approved);
      redis.Del(ChallengeKey(challengeId));
      SetWithTtl(ConsumedKey(challengeId), Consumed, CONSUMED_MARKER_TTL_SECONDS, now);
      approvals := approvals + [approved];
    }

    /**
     Approves exactly an unapproved challenge of this user, not past its expiry, with the right
     signature. A second submission is reported as a replay while the consumed marker lives and as
     expired afterwards, but is never approved.
     */
    method SubmitApproval(challengeId: string, userId: string, signedApproval: string, now: nat)
      returns (r: Result<ApprovedAction<A>, Error>)
      requires Valid() && clock <= now
      modifies this, redis
      ensures Valid() && clock == now && created == old(created)
      ensures r.Ok? <==>
              && Open(created, old(approvals), challengeId, now)
              && created[challengeId].userId == userId
              && signedApproval == hmac("approve:" + challengeId + ":" + userId)
      ensures r.Ok? ==>
                && r.value == ApprovedAction(challengeId, userId, created[challengeId].action, now)
                && approvals == old(approvals) + [r.value]
      ensures r.Err? ==> approvals == old(approvals)
      ensures r == Err(Replay) <==> MarkerLives(old(approvals), challengeId, honoursTtl, now)
      ensures r == Err(Ownership) <==>
              Open(created, old(approvals), challengeId, now) && created[challengeId].userId != userId
      ensures r == Err(BadSignature) <==>
              && Open(created, old(approvals), challengeId, now) && created[challengeId].userId == userId
              && signedApproval != hmac("approve:" + challengeId + ":" + userId)
      ensures r == Err(Expired) <==>
              && !Open(created, old(approvals), challengeId, now)
              && !MarkerLives(old(approvals), challengeId, honoursTtl, now)
    {
      hide Stores, ApprovedSoundly, CreatedSoundly, Approved, MarkerLives;
      ghost var entries := redis.entries;
      MarkerReadsTrue(entries, created, approvals, honoursTtl, clock, challengeId, now);
      ChallengeReadsTrue(entries, created, approvals, honoursTtl, clock, challengeId, now);
      TimePassing(entries, created, approvals, honoursTtl, clock, now);
      clock := now;
      var consumed := redis.Get(ConsumedKey(challengeId), now);
      if consumed.Some? {
        return Err(Replay);
      }
      var raw := redis.Get(ChallengeKey(challengeId), now);
      if raw.None? {
        return Err(Expired);
      }
      var challenge := raw.value.challenge;
      if challenge.expiresAt < now {
        DroppingExpiredKeeps(entries, created, approvals, honoursTtl, clock, challengeId);
        redis.Del(ChallengeKey(challengeId));
        return Err(Expired);
      }
      if challenge.userId != userId {
        return Err(Ownership);
      }
      if signedApproval != ApprovalSignature(challengeId, userId) {
        return Err(BadSignature);
      }
      var approved := MarkConsumed(challengeId, userId, challenge.action, now);
      r := Ok(approved);
    }
  }
}

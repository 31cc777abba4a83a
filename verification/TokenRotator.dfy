/**
 security/auth/token.rotator.ts with the token construction of security/auth/jwt.validator.ts:
 refresh tokens that may be exchanged once for a new pair.
 */
module TokenRotation {
  import opened Basics
  import opened TtlStores

  datatype Config = Config(accessTokenExpirySeconds: nat, refreshTokenExpirySeconds: nat)

  /** The claims of a signed token; only refresh tokens carry a jti. Times are in whole seconds. */
  datatype Token = Token(sub: string, sid: string, dfp: string, scope: seq<string>, jti: Option<string>, iat: nat,
      exp: nat)

  datatype TokenPair = TokenPair(accessToken: Token, refreshToken: Token)

  datatype Error = InvalidToken | MissingJti | Replay | MalformedClaims

  datatype RedisKey = Used(jti: string) | Family(id: string)

  /** The one scope of every refresh token. */
  const REFRESH_SCOPE: seq<string> := ["refresh"]

  /** One successful rotation. */
  datatype Rotation = Rotation(parent: Token, at: nat, pair: TokenPair)

  /** ValidatedTokenSchema. */
  predicate WellFormedClaims(t: Token) {
    t.sub != "" && t.sid != "" && t.dfp != "" && t.iat > 0 && t.exp > 0
  }

  predicate SameHolder(a: Token, b: Token) {
    a.sub == b.sub && a.sid == b.sid && a.dfp == b.dfp
  }

  /** The pair belongs to the token's holder, and its access token has the token's scope. */
  predicate HandedOn(parent: Token, pair: TokenPair) {
    && SameHolder(parent, pair.refreshToken) && SameHolder(parent, pair.accessToken)
    && pair.accessToken.scope == parent.scope
  }

  /** The access token of the pair was issued at the rotation. */
  predicate IssuedAt(c: Config, r: Rotation) {
    && r.pair.accessToken.jti.None? && r.pair.accessToken.iat == r.at / 1000
    && r.pair.accessToken.exp == r.at / 1000 + c.accessTokenExpirySeconds
  }

  /** Signs tokens. A signature check passes exactly for the tokens signed with this key. */
  class JwtValidator {
    const config: Config
    var issued: set<Token>

    constructor (config: Config)
      ensures this.config == config && issued == {}
    {
      this.config := config;
      issued := {};
    }

    /** RS256 signature and the exp claim: a token is no longer accepted at its expiration time. */
    predicate Verifies(t: Token, now: nat)
      reads this
    {
      t in issued && now / 1000 < t.exp
    }

    method GenerateAccessToken(userId: string, sessionId: string, scope: seq<string>, deviceFingerprint: string,
                               now: nat)
      returns (t: Token)
      modifies this
      ensures issued == old(issued) + {t}
      ensures t == AccessToken(config, userId, sessionId, scope, deviceFingerprint, now)
    {
      t := Token(userId, sessionId, deviceFingerprint, scope, None, now / 1000,
          now / 1000 + config.accessTokenExpirySeconds);
      issued := issued + {t};
    }

    /** jti is the random identifier drawn for the token. */
    method GenerateRefreshToken(userId: string, sessionId: string, deviceFingerprint: string, now: nat, jti: string)
      returns (t: Token)
      modifies this
      ensures issued == old(issued) + {t}
      ensures t == RefreshToken(config, userId, sessionId, deviceFingerprint, now, jti)
    {
      t := Token(userId, sessionId, deviceFingerprint, REFRESH_SCOPE, Some(jti), now / 1000,
          now / 1000 + config.refreshTokenExpirySeconds);
      issued := issued + {t};
    }
  }

  ghost function AccessToken(c: Config, user: string, session: string, scope: seq<string>, device: string,
                             now: nat): Token {
    Token(user, session, device, scope, None, now / 1000, now / 1000 + c.accessTokenExpirySeconds)
  }

  ghost function RefreshToken(c: Config, user: string, session: string, device: string, now: nat, jti: string): Token {
    Token(user, session, device, REFRESH_SCOPE, Some(jti), now / 1000, now / 1000 + c.refreshTokenExpirySeconds)
  }

  // ----- what every run keeps

  /** Tokens were issued in the past with the lifetime of their kind, refresh tokens each under its own nonempty jti. */
  ghost predicate IssuedSoundly(c: Config, issued: set<Token>, clock: nat) {
    && (forall t :: t in issued && t.jti.Some? ==>
          && t.jti.value != "" && t.scope == REFRESH_SCOPE
          && 1000 * t.iat <= clock && t.exp == t.iat + c.refreshTokenExpirySeconds)
    && (forall t :: t in issued && t.jti.None? ==> 1000 * t.iat <= clock && t.exp == t.iat + c.accessTokenExpirySeconds)
    && (forall t, u :: t in issued && u in issued && t.jti.Some? && t.jti == u.jti ==> t == u)
  }

  /** The markers in the store are those of the spent tokens, with the lifetime they were given. */
  ghost predicate Marks(c: Config, entries: map<RedisKey, Entry<nat>>, issued: set<Token>, spent: map<string, nat>) {
    && (forall j :: Used(j) in entries <==> j in spent)
    && (forall j :: j in spent ==>
          entries[Used(j)] == Entry(spent[j], Some(spent[j] + 1000 * c.refreshTokenExpirySeconds)))
    && (forall t :: t in issued && t.jti.Some? && t.jti.value in spent ==> 1000 * t.iat <= spent[t.jti.value])
  }

  /** Each pair was made from an accepted, by now spent token and belongs to the same user, session and device. */
  ghost predicate RotatedSoundly(rotations: seq<Rotation>, issued: set<Token>, spent: map<string, nat>) {
    && (forall i :: 0 <= i < |rotations| ==>
          var r := rotations[i];
          && r.parent in issued && r.parent.jti.Some? && r.parent.jti.value in spent
          && r.pair.refreshToken in issued && r.pair.refreshToken.jti.Some?
          && HandedOn(r.parent, r.pair)
          && r.pair.accessToken in issued && r.pair.accessToken.jti.None? && r.pair.accessToken.iat == r.at / 1000)
    && AtMostOnePairEach(rotations)
  }

  /** No refresh token was rotated twice. */
  ghost predicate AtMostOnePairEach(rotations: seq<Rotation>) {
    forall i, j :: 0 <= i < j < |rotations| ==> rotations[i].parent.jti != rotations[j].parent.jti
  }

  /** A lapsed marker is harmless: its token no longer verifies. */
  lemma MarkerOutlivesToken(c: Config, entries: map<RedisKey, Entry<nat>>, issued: set<Token>, spent: map<string, nat>,
                            rotations: seq<Rotation>, clock: nat, t: Token, now: nat)
    requires Sound(c, entries, issued, spent, rotations, clock)
    requires t in issued && t.jti.Some? && now / 1000 < t.exp
    ensures LookupIn(entries, Used(t.jti.value), now).Some? <==> t.jti.value in spent
  {
  }

  lemma SpendingKeepsMarks(c: Config, entries: map<RedisKey, Entry<nat>>, issued: set<Token>, spent: map<string, nat>,
                           clock: nat, t: Token, now: nat)
    requires IssuedSoundly(c, issued, clock) && Marks(c, entries, issued, spent)
    requires t in issued && t.jti.Some? && clock <= now
    ensures Marks(c, entries[Used(t.jti.value) := Entry(now, Some(now + 1000 * c.refreshTokenExpirySeconds))],
                  issued, spent[t.jti.value := now])
  {
  }

  /** Every spent identifier is that of an issued token. */
  ghost predicate SpentWereIssued(spent: map<string, nat>, issued: set<Token>) {
    forall j :: j in spent ==> exists t :: t in issued && t.jti == Some(j)
  }

  ghost predicate Sound(c: Config, entries: map<RedisKey, Entry<nat>>, issued: set<Token>, spent: map<string, nat>,
                        rotations: seq<Rotation>, clock: nat) {
    && IssuedSoundly(c, issued, clock)
    && Marks(c, entries, issued, spent)
    && SpentWereIssued(spent, issued)
    && RotatedSoundly(rotations, issued, spent)
  }

  /** Issuing a token, with a fresh jti if it is a refresh token, keeps everything. */
  lemma IssuingKeeps(c: Config, entries: map<RedisKey, Entry<nat>>, issued: set<Token>, spent: map<string, nat>,
                     rotations: seq<Rotation>, clock: nat, t: Token, now: nat)
    requires Sound(c, entries, issued, spent, rotations, clock) && clock <= now
    requires t.jti.Some? ==>
               && t.jti.value != "" && (forall u :: u in issued ==> u.jti != t.jti)
               && t.scope == REFRESH_SCOPE && t.iat == now / 1000 && t.exp == t.iat + c.refreshTokenExpirySeconds
    requires t.jti.None? ==> t.iat == now / 1000 && t.exp == t.iat + c.accessTokenExpirySeconds
    ensures Sound(c, entries, issued + {t}, spent, rotations, now)
  {
    forall j | j in spent
      ensures exists u :: u in issued + {t} && u.jti == Some(j)
    {
      var u :| u in issued && u.jti == Some(j);
      assert u in issued + {t};
    }
  }

  /** Spending an unspent token keeps everything, and leaves room for one rotation of it. */
  lemma SpendingKeeps(c: Config, entries: map<RedisKey, Entry<nat>>, issued: set<Token>, spent: map<string, nat>,
                      rotations: seq<Rotation>, clock: nat, t: Token, now: nat)
    requires Sound(c, entries, issued, spent, rotations, clock) && clock <= now
    requires t in issued && t.jti.Some? && t.jti.value !in spent
    ensures Sound(c, entries[Used(t.jti.value) := Entry(now, Some(now + 1000 * c.refreshTokenExpirySeconds))],
                  issued, spent[t.jti.value := now], rotations, now)
    ensures forall i :: 0 <= i < |rotations| ==> rotations[i].parent.jti != t.jti
  {
    SpendingKeepsMarks(c, entries, issued, spent, clock, t, now);
  }

  /** The pair made from the token just spent is the only one made from it. */
  lemma RecordingKeeps(c: Config, entries: map<RedisKey, Entry<nat>>, issued: set<Token>, spent: map<string, nat>,
                       rotations: seq<Rotation>, clock: nat, r: Rotation)
    requires Sound(c, entries, issued, spent, rotations, clock)
    requires r.parent in issued && r.parent.jti.Some? && r.parent.jti.value in spent
    requires forall i :: 0 <= i < |rotations| ==> rotations[i].parent.jti != r.parent.jti
    requires r.pair.refreshToken in issued && r.pair.refreshToken.jti.Some?
    requires HandedOn(r.parent, r.pair) && IssuedAt(c, r) && r.pair.accessToken in issued
    ensures Sound(c, entries, issued, spent, rotations + [r], clock)
  {
  }

  /** Spend the token, issue the pair, record the rotation. */
  lemma ExchangeKeeps(c: Config, entries: map<RedisKey, Entry<nat>>, issued: set<Token>, spent: map<string, nat>,
                      rotations: seq<Rotation>, clock: nat, r: Rotation)
    requires Sound(c, entries, issued, spent, rotations, clock) && clock <= r.at
    requires r.parent in issued && r.parent.jti.Some? && r.parent.jti.value !in spent
    requires IssuedAt(c, r)
    requires var t := r.pair.refreshToken;
             && t.jti.Some? && t.jti.value != "" && (forall u :: u in issued ==> u.jti != t.jti)
             && t.scope == REFRESH_SCOPE && t.iat == r.at / 1000 && t.exp == t.iat + c.refreshTokenExpirySeconds
    requires HandedOn(r.parent, r.pair)
    ensures Sound(c, entries[Used(r.parent.jti.value) := Entry(r.at, Some(r.at + 1000 * c.refreshTokenExpirySeconds))],
                  issued + {r.pair.accessToken} + {r.pair.refreshToken}, spent[r.parent.jti.value := r.at],
                      rotations + [r], r.at)
  {
    var jti := r.parent.jti.value;
    var entries', spent' := entries[Used(jti) := Entry(r.at, Some(r.at + 1000 * c.refreshTokenExpirySeconds))],
        spent[jti := r.at];
    SpendingKeeps(c, entries, issued, spent, rotations, clock, r.parent, r.at);
    IssuingKeeps(c, entries', issued, spent', rotations, r.at, r.pair.accessToken, r.at);
    IssuingKeeps(c, entries', issued + {r.pair.accessToken}, spent', rotations, r.at, r.pair.refreshToken, r.at);
    RecordingKeeps(c, entries', issued + {r.pair.accessToken} + {r.pair.refreshToken}, spent', rotations, r.at, r);
  }

  lemma DroppingFamilyKeeps(c: Config, entries: map<RedisKey, Entry<nat>>, issued: set<Token>, spent: map<string, nat>,
                            rotations: seq<Rotation>, clock: nat, id: string)
    requires Sound(c, entries, issued, spent, rotations, clock)
    ensures Sound(c, entries - {Family(id)}, issued, spent, rotations, clock)
  {
  }

  lemma TimePassing(c: Config, entries: map<RedisKey, Entry<nat>>, issued: set<Token>, spent: map<string, nat>,
                    rotations: seq<Rotation>, clock: nat, now: nat)
    requires Sound(c, entries, issued, spent, rotations, clock) && clock <= now
    ensures Sound(c, entries, issued, spent, rotations, now)
    ensures forall t :: t in issued ==> t.jti != Some("")
  {
  }

  class TokenRotator {
    const config: Config
    const validator: JwtValidator
    const redis: TtlStore<RedisKey, nat>
    ghost var spent: map<string, nat>
    ghost var rotations: seq<Rotation>
    ghost var clock: nat

    ghost predicate Valid()
      reads this, validator, redis
    {
      && config == validator.config
      && config.refreshTokenExpirySeconds > 0
      && Sound(config, redis.entries, validator.issued, spent, rotations, clock)
    }

    constructor (config: Config)
      requires config.refreshTokenExpirySeconds > 0
      ensures Valid() && this.config == config && rotations == [] && spent == map[] && clock == 0
      ensures fresh(validator) && fresh(redis) && validator.issued == {}
    {
      this.config := config;
      validator := new JwtValidator(config);
      redis := new TtlStore();
      spent := map[];
      rotations := [];
      clock := 0;
    }

    /** A login elsewhere in the system starts a chain with a fresh refresh token. */
    method Login(userId: string, sessionId: string, deviceFingerprint: string, now: nat, jti: string) returns (t: Token)
      requires Valid() && clock <= now
      requires jti != "" && forall u :: u in validator.issued ==> u.jti != Some(jti)
      modifies this, validator
      ensures Valid() && clock == now
      ensures t == RefreshToken(config, userId, sessionId, deviceFingerprint, now, jti)
      ensures validator.issued == old(validator.issued) + {t}
      ensures rotations == old(rotations) && spent == old(spent)
    {
      hide Sound;
      ghost var issued := validator.issued;
      t := validator.GenerateRefreshToken(userId, sessionId, deviceFingerprint, now, jti);
      IssuingKeeps(config, redis.entries, issued, spent, rotations, clock, t, now);
      clock := now;
    }

    /**
     Exchanges a verified, unspent refresh token for a pair; the token is spent even when its claims
     then turn out malformed. Valid says that no token is ever exchanged twice.
     */
    method Rotate(presented: Token, now: nat, newJti: string) returns (r: Result<TokenPair, Error>)
      requires Valid() && clock <= now
      requires newJti != "" && forall u :: u in validator.issued ==> u.jti != Some(newJti)
      modifies this, validator, redis
      ensures Valid() && clock == now
      ensures r == Err(InvalidToken) <==> !old(validator.Verifies(presented, now))
      ensures r == Err(MissingJti) <==> old(validator.Verifies(presented, now)) && presented.jti.None?
      ensures r == Err(Replay) <==>
              old(validator.Verifies(presented, now)) && presented.jti.Some? && presented.jti.value in old(spent)
      ensures r == Err(MalformedClaims) <==>
              && old(validator.Verifies(presented, now)) && presented.jti.Some? && presented.jti.value !in old(spent)
              && !WellFormedClaims(presented)
      ensures r.Ok? || r == Err(MalformedClaims) ==> spent == old(spent)[presented.jti.value := now]
      ensures r.Err? && r.error != MalformedClaims ==> spent == old(spent)
      ensures r.Ok? ==>
                && r.value.accessToken == AccessToken(config, presented.sub, presented.sid, presented.scope,
                    presented.dfp, now)
                && r.value.refreshToken == RefreshToken(config, presented.sub, presented.sid, presented.dfp, now,
                    newJti)
                && validator.issued == old(validator.issued) + {r.value.accessToken} + {r.value.refreshToken}
                && rotations == old(rotations) + [Rotation(presented, now, r.value)]
      ensures r.Err? ==> validator.issued == old(validator.issued) && rotations == old(rotations)
    {
      hide Sound;
      TimePassing(config, redis.entries, validator.issued, spent, rotations, clock, now);
      clock := now;
      if !validator.Verifies(presented, now) {
        return Err(InvalidToken);
      }
      if presented.jti.None? || presented.jti.value == "" {
        return Err(MissingJti);
      }
      var jti := presented.jti.value;
      MarkerOutlivesToken(config, redis.entries, validator.issued, spent, rotations, clock, presented, now);
      var alreadyUsed := redis.Get(Used(jti), now);
      if alreadyUsed.Some? {
        DroppingFamilyKeeps(config, redis.entries, validator.issued, spent, rotations, clock, jti);
        redis.Del(Family(jti));
        return Err(Replay);
      }
      r := Exchange(presented, now, newJti);
    }

    /** The second half of a rotation: the marker is set before the claims are looked at. */
    method Exchange(presented: Token, now: nat, newJti: string) returns (r: Result<TokenPair, Error>)
      requires Valid() && clock == now && presented in validator.issued
      requires presented.jti.Some? && presented.jti.value !in spent
      requires newJti != "" && forall u :: u in validator.issued ==> u.jti != Some(newJti)
      modifies this, validator, redis
      ensures Valid() && clock == now
      ensures r.Ok? <==> WellFormedClaims(presented)
      ensures r.Err? ==> r.error == MalformedClaims
      ensures spent == old(spent)[presented.jti.value := now]
      ensures r.Ok? ==>
                && r.value.accessToken == AccessToken(config, presented.sub, presented.sid, presented.scope,
                    presented.dfp, now)
                && r.value.refreshToken == RefreshToken(config, presented.sub, presented.sid, presented.dfp, now,
                    newJti)
                && validator.issued == old(validator.issued) + {r.value.accessToken} + {r.value.refreshToken}
                && rotations == old(rotations) + [Rotation(presented, now, r.value)]
      ensures r.Err? ==> validator.issued == old(validator.issued) && rotations == old(rotations)
    {
      hide Sound;
      var jti := presented.jti.value;
      redis.SetEx(Used(jti), config.refreshTokenExpirySeconds, now, now);
      spent := spent[jti := now];
      if !WellFormedClaims(presented) {
        SpendingKeeps(config, old(redis.entries), validator.issued, old(spent), rotations, clock, presented, now);
        return Err(MalformedClaims);
      }
      var access := validator.GenerateAccessToken(presented.sub, presented.sid, presented.scope, presented.dfp, now);
      var refresh := validator.GenerateRefreshToken(presented.sub, presented.sid, presented.dfp, now, newJti);
      r := Ok(TokenPair(access, refresh));
      ghost var rotation := Rotation(presented, now, r.value);
      ExchangeKeeps(config, old(redis.entries), old(validator.issued), old(spent), rotations, clock, rotation);
      rotations := rotations + [rotation];
    }
  }

  // ----- chains

  /** path lists rotations, each of the refresh token the one before it produced. */
  ghost predicate IsChain(rotations: seq<Rotation>, path: seq<nat>) {
    && path != []
    && (forall k :: 0 <= k < |path| ==> path[k] < |rotations|)
    && (forall k :: 0 < k < |path| ==> rotations[path[k]].parent == rotations[path[k - 1]].pair.refreshToken)
  }

  /** However long the chain, its last pair belongs to the user, session and device of its root. */
  lemma {:induction false} ChainKeepsHolder(rotations: seq<Rotation>, issued: set<Token>, spent: map<string, nat>,
                                            path: seq<nat>)
    requires RotatedSoundly(rotations, issued, spent) && IsChain(rotations, path)
    ensures var root, last := rotations[path[0]].parent, rotations[path[|path| - 1]].pair;
            SameHolder(root, last.refreshToken) && SameHolder(root, last.accessToken)
  {
    if |path| > 1 {
      ChainKeepsHolder(rotations, issued, spent, path[..|path| - 1]);
    }
  }

  /**
   Every refresh token has only the refresh scope, and a rotation copies the scope of the token presented: so every
   access token that a rotation issues, anywhere in a chain, has only the refresh scope, whatever the login granted.
   */
  lemma RotatedScope(c: Config, rotations: seq<Rotation>, issued: set<Token>, spent: map<string, nat>, clock: nat,
                     i: nat)
    requires IssuedSoundly(c, issued, clock) && RotatedSoundly(rotations, issued, spent) && i < |rotations|
    ensures rotations[i].parent.scope == rotations[i].pair.refreshToken.scope == REFRESH_SCOPE
    ensures rotations[i].pair.accessToken.scope == REFRESH_SCOPE
  {
    assert HandedOn(rotations[i].parent, rotations[i].pair);
  }

  /** The access token of a rotation verifies exactly until accessTokenExpirySeconds after it, over every run. */
  lemma AccessTokenExpires(validator: JwtValidator, rotations: seq<Rotation>, spent: map<string, nat>, clock: nat,
                           i: nat, now: nat)
    requires IssuedSoundly(validator.config, validator.issued, clock)
    requires RotatedSoundly(rotations, validator.issued, spent) && i < |rotations|
    ensures validator.Verifies(rotations[i].pair.accessToken, now) <==>
            now / 1000 < rotations[i].at / 1000 + validator.config.accessTokenExpirySeconds
  {
    assert rotations[i].pair.accessToken in validator.issued;
  }

  /** And its refresh token until refreshTokenExpirySeconds after it. */
  lemma RefreshTokenExpires(validator: JwtValidator, t: Token, clock: nat, now: nat)
    requires IssuedSoundly(validator.config, validator.issued, clock) && t in validator.issued && t.jti.Some?
    ensures validator.Verifies(t, now) <==> now / 1000 < t.iat + validator.config.refreshTokenExpirySeconds
  {
  }

  /** Chains never merge or fork: two chains from one root that are equally long are the same chain. */
  lemma {:induction false} ChainsDoNotFork(rotations: seq<Rotation>, issued: set<Token>, spent: map<string, nat>,
                                           p: seq<nat>, q: seq<nat>)
    requires RotatedSoundly(rotations, issued, spent) && IsChain(rotations, p) && IsChain(rotations, q)
    requires |p| == |q| && rotations[p[0]].parent == rotations[q[0]].parent
    ensures p == q
  {
    if |p| > 1 {
      var p', q' := p[..|p| - 1], q[..|q| - 1];
      ChainsDoNotFork(rotations, issued, spent, p', q');
      assert p == p' + [p[|p| - 1]] && q == q' + [q[|q| - 1]];
      assert p'[|p| - 2] == p[|p| - 2] && q'[|q| - 2] == q[|q| - 2];
    }
  }
}

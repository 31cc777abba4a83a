/**
 apps/web/lib/api.ts: the fetch client with its ETag cache and its single-flight token refresh.
 A conditional request is answered as sections 8.8.3.2, 13.1.2 and 15.4.5 of RFC 9110 say.
 */
module ApiClients {
  import opened Basics
  import opened JsStrings
  import opened InsertionMaps

  const ETAG_MAX: nat := 200

  datatype Reply = Reply(status: nat, etag: Option<string>, body: string)

  /** What a caller of request gets: data and status, or an error with a status. */
  datatype Outcome = Success(data: string, status: nat) | Failure(status: nat)

  datatype Cached = Cached(etag: string, body: string)

  type Cache = seq<Entry<Cached>>

  /** How the server answers an unconditional GET of each path at one moment. */
  type Server = string -> Reply

  predicate IsOk(reply: Reply) {
    200 <= reply.status < 300
  }

  /** What request makes of a reply when there is no cache. */
  function Fetched(reply: Reply): Outcome {
    if IsOk(reply) then Success(if reply.status == 204 then "" else reply.body, reply.status) else Failure(reply.status)
  }

  /** Without the weakness mark: entity tags compare weakly. */
  function Opaque(etag: string): string {
    if "W/" <= etag then etag[2..] else etag
  }

  /** A GET that may carry If-None-Match. */
  function Answer(server: Server, path: string, ifNoneMatch: Option<string>): Reply {
    var reply := server(path);
    if && reply.status == 200 && Truthy(reply.etag)
       && ifNoneMatch.Some? && Opaque(reply.etag.value) == Opaque(ifNoneMatch.value)
    then Reply(304, reply.etag, "")
    else reply
  }

  /**
   The server keeps its side: a path's entity tag always stands for the same body, which bodies gives,
   and an unconditional request is never answered 304.
   */
  ghost predicate Conforming(server: Server, bodies: (string, string) -> string) {
    forall path :: var reply := server(path);
      && reply.status != 304
      && (reply.status == 200 && Truthy(reply.etag) ==> reply.body == bodies(path, Opaque(reply.etag.value)))
  }

  // ----- the cache

  /** If-None-Match is sent for a cached entity tag. */
  function Validator(cache: Cache, path: string): Option<string> {
    var cached := Get(cache, path);
    if cached.Some? && cached.value.etag != "" then Some(cached.value.etag) else None
  }

  /** At the limit the oldest entry goes, unless its path is the empty string. */
  function Evict(cache: Cache): Cache {
    if |cache| >= ETAG_MAX && cache[0].key != "" then cache[1..] else cache
  }

  function Stored(cache: Cache, path: string, reply: Reply): Cache {
    if reply.status == 200 && Truthy(reply.etag)
    then Put(Evict(cache), path, Cached(reply.etag.value, reply.body))
    else cache
  }

  /** A 304 leaves the cache alone. */
  ghost function AfterGet(cache: Cache, path: string, server: Server): Cache {
    if Answer(server, path, Validator(cache, path)).status == 304 then cache else Stored(cache, path, server(path))
  }

  /** Every entry holds the body that its entity tag stands for. */
  ghost predicate Faithful(cache: Cache, bodies: (string, string) -> string) {
    && DistinctKeys(cache)
    && forall path :: EntryFaithful(cache, bodies, path)
  }

  ghost predicate EntryFaithful(cache: Cache, bodies: (string, string) -> string, path: string) {
    var cached := Get(cache, path);
    cached.Some? ==> cached.value.etag != "" && cached.value.body == bodies(path, Opaque(cached.value.etag))
  }

  /** The limit is kept, as long as no entry has the empty path. */
  ghost predicate Bounded(cache: Cache) {
    |cache| <= ETAG_MAX || Get(cache, "").Some?
  }

  /** A reply served from the cache says what the server would have said without one. */
  lemma CachedAnswerAgrees(cache: Cache, server: Server, path: string, bodies: (string, string) -> string)
    requires Faithful(cache, bodies) && Conforming(server, bodies)
    ensures var reply := Answer(server, path, Validator(cache, path));
            && (reply.status == 304 <==>
                  && Get(cache, path).Some? && server(path).status == 200 && Truthy(server(path).etag)
                  && Opaque(server(path).etag.value) == Opaque(Get(cache, path).value.etag))
            && (reply.status == 304 ==> Success(Get(cache, path).value.body, 200) == Fetched(server(path)))
            && (reply.status != 304 ==> reply == server(path))
  {
    hide Get, Opaque;
    assert EntryFaithful(cache, bodies, path);
  }

  lemma {:induction false} GetRest(cache: Cache, path: string)
    requires DistinctKeys(cache) && cache != []
    ensures Get(cache[1..], path) == if path == cache[0].key then None else Get(cache, path)
  {
    var front := cache[..|cache| - 1];
    if |cache| > 1 {
      assert cache[1..][..|cache| - 2] == front[1..];
      GetRest(front, path);
    }
  }

  lemma {:induction false} PutSize(cache: Cache, path: string, value: Cached)
    ensures |Put(cache, path, value)| == |cache| + if Get(cache, path).Some? then 0 else 1
  {
    if cache != [] && cache[|cache| - 1].key != path && Get(cache[..|cache| - 1], path).Some? {
      PutSize(cache[..|cache| - 1], path, value);
    }
  }

  lemma EvictKeeps(cache: Cache, bodies: (string, string) -> string)
    requires Faithful(cache, bodies)
    ensures Faithful(Evict(cache), bodies)
  {
    hide Get;
    var less := Evict(cache);
    forall path
      ensures EntryFaithful(less, bodies, path)
    {
      assert EntryFaithful(cache, bodies, path);
      if |cache| >= ETAG_MAX {
        GetRest(cache, path);
      }
    }
  }

  /** Storing a reply of a conforming server keeps the cache faithful. */
  lemma StoredKeeps(cache: Cache, path: string, server: Server, bodies: (string, string) -> string)
    requires Faithful(cache, bodies) && Conforming(server, bodies)
    ensures Faithful(Stored(cache, path, server(path)), bodies)
  {
    var reply := server(path);
    if reply.status == 200 && Truthy(reply.etag) {
      EvictKeeps(cache, bodies);
      var less := Evict(cache);
      hide Get, Put, Evict, Opaque;
      var value := Cached(reply.etag.value, reply.body);
      PutKeepsDistinct(less, path, value);
      var more := Put(less, path, value);
      forall p
        ensures EntryFaithful(more, bodies, p)
      {
        assert EntryFaithful(less, bodies, p);
        PutThenGet(less, path, value, p);
      }
    }
  }

  /** The cache never outgrows its limit, as long as no entry has the empty path. */
  lemma StoredIsBounded(cache: Cache, path: string, reply: Reply)
    requires Bounded(cache) && DistinctKeys(cache)
    ensures Bounded(Stored(cache, path, reply))
  {
    if reply.status == 200 && Truthy(reply.etag) {
      hide Get, Put;
      var value := Cached(reply.etag.value, reply.body);
      PutSize(Evict(cache), path, value);
      PutThenGet(Evict(cache), path, value, "");
      if |cache| > 0 {
        GetRest(cache, "");
        FirstIsGot(cache);
      }
    }
  }

  lemma FirstIsGot(cache: Cache)
    requires DistinctKeys(cache) && cache != []
    ensures Get(cache, cache[0].key).Some?
  {
    GetIsAt(cache, 0);
  }

  /**
   A storing takes a cache over its limit exactly if the cache is full, its oldest entry has the empty path, which
   eviction takes for no entry, and the path stored is a new one. The web app itself requests no empty path.
   */
  lemma StoredOverflowsIff(cache: Cache, path: string, reply: Reply)
    requires DistinctKeys(cache) && |cache| <= 200
    ensures |Stored(cache, path, reply)| > 200 <==>
            && reply.status == 200 && Truthy(reply.etag)
            && |cache| == 200 && cache[0].key == "" && Get(cache, path).None?
  {
    if reply.status == 200 && Truthy(reply.etag) {
      hide Get, Put;
      PutSize(Evict(cache), path, Cached(reply.etag.value, reply.body));
    }
  }

  /** From then on it grows with every new path. */
  lemma EmptyPathUnbounds(cache: Cache, path: string, reply: Reply)
    requires |cache| >= ETAG_MAX && cache[0].key == "" && Get(cache, path).None?
    requires reply.status == 200 && Truthy(reply.etag)
    ensures |Stored(cache, path, reply)| == |cache| + 1 && Stored(cache, path, reply)[0].key == ""
  {
    PutSize(cache, path, Cached(reply.etag.value, reply.body));
    PutKeepsFirst(cache, path, Cached(reply.etag.value, reply.body));
  }

  lemma {:induction false} PutKeepsFirst(cache: Cache, path: string, value: Cached)
    requires cache != []
    ensures Put(cache, path, value) != [] && Put(cache, path, value)[0].key == cache[0].key
  {
    if cache[|cache| - 1].key != path && Get(cache[..|cache| - 1], path).Some? {
      PutKeepsFirst(cache[..|cache| - 1], path, value);
    }
  }

  // ----- requests, one after another

  predicate MayRefresh(reply: Reply, path: string) {
    reply.status == 401 && !("/auth/" <= path)
  }

  /** What a GET gives without a cache: a 401 is retried once if there is a new token. */
  function WithoutCache(path: string, first: Server, again: Server, newToken: bool): Outcome {
    if !MayRefresh(first(path), path) then Fetched(first(path))
    else if newToken then Fetched(again(path))
    else Failure(401)
  }

  /** What a caller gets, by status: data for 200 to 299, none for 204; an error with the status of any other reply. */
  lemma OutcomeByStatus(path: string, first: Server, again: Server, newToken: bool)
    ensures var outcome := WithoutCache(path, first, again, newToken);
            var retried := first(path).status == 401 && !("/auth/" <= path) && newToken;
            var reply := if retried then again(path) else first(path);
            && (outcome.Success? <==> 200 <= reply.status <= 299)
            && outcome.status == reply.status
            && (outcome.Success? && reply.status != 204 ==> outcome.data == reply.body)
            && (outcome.Success? && reply.status == 204 ==> outcome.data == "")
  {
  }

  /** Weak and strong tags with one opaque part match, and no others. */
  lemma TagsMatchIff(a: string, b: string)
    requires !("W/" <= a) && !("W/" <= b)
    ensures Opaque(a) == Opaque("W/" + b) <==> a == b
    ensures Opaque(a) == Opaque(b) <==> a == b
    ensures Opaque("W/" + a) == Opaque("W/" + b) <==> a == b
  {
    assert ("W/" + a)[2..] == a && ("W/" + b)[2..] == b;
  }

  class ApiClient {
    var etagCache: Cache

    ghost predicate Valid(bodies: (string, string) -> string)
      reads this
    {
      Faithful(etagCache, bodies) && Bounded(etagCache)
    }

    constructor ()
      ensures etagCache == [] && forall bodies :: Valid(bodies)
    {
      etagCache := [];
    }

    /** The request after the 401 handling: a reply to a conditional GET becomes an outcome, and is cached. */
    method Finish(path: string, server: Server, ghost bodies: (string, string) -> string) returns (outcome: Outcome)
      requires Valid(bodies) && Conforming(server, bodies)
      modifies this
      ensures Valid(bodies)
      ensures outcome == Fetched(server(path))
      ensures etagCache == AfterGet(old(etagCache), path, server)
    {
      hide Faithful, Conforming, Bounded, Get, Stored, Opaque;
      OnlyOkIsStored(etagCache, path, server(path));
      var reply := Answer(server, path, Validator(etagCache, path));
      CachedAnswerAgrees(etagCache, server, path, bodies);
      StoredKeeps(etagCache, path, server, bodies);
      AreDistinct(etagCache, bodies);
      StoredIsBounded(etagCache, path, server(path));
      if reply.status == 304 {
        var cached := Get(etagCache, path);
        return Success(cached.value.body, 200);
      }
      if !IsOk(reply) {
        return Failure(reply.status);
      }
      etagCache := Stored(etagCache, path, reply);
      outcome := Success(if reply.status == 204 then "" else reply.body, reply.status);
    }

    /** A GET through the cache gives what it would give without one, whatever was requested before. */
    method GetPath(path: string, first: Server, again: Server, newToken: bool, ghost bodies: (string, string) -> string)
      returns (outcome: Outcome)
      requires Valid(bodies) && Conforming(first, bodies) && Conforming(again, bodies)
      modifies this
      ensures Valid(bodies)
      ensures outcome == WithoutCache(path, first, again, newToken)
      ensures etagCache == if !MayRefresh(first(path), path) then AfterGet(old(etagCache), path, first)
                           else if newToken then AfterGet(old(etagCache), path, again)
                           else old(etagCache)
    {
      hide Faithful, Conforming, Bounded, Get, Stored, Opaque, Fetched;
      var reply := Answer(first, path, Validator(etagCache, path));
      CachedAnswerAgrees(etagCache, first, path, bodies);
      if !MayRefresh(reply, path) {
        outcome := Finish(path, first, bodies);
      } else if newToken {
        outcome := Finish(path, again, bodies);
      } else {
        outcome := Failure(401);
      }
    }

    /** POST, PUT, PATCH and DELETE: success empties the cache, an error leaves it. */
    method Write(path: string, first: Reply, again: Reply, newToken: bool, ghost bodies: (string, string) -> string)
      returns (outcome: Outcome)
      requires Valid(bodies)
      modifies this
      ensures Valid(bodies)
      ensures outcome == WithoutCache(path, _ => first, _ => again, newToken)
      ensures etagCache == if outcome.Success? then [] else old(etagCache)
    {
      var reply := first;
      if MayRefresh(reply, path) {
        if !newToken {
          return Failure(401);
        }
        reply := again;
      }
      if !IsOk(reply) {
        return Failure(reply.status);
      }
      etagCache := [];
      outcome := Success(if reply.status == 204 then "" else reply.body, reply.status);
    }
  }

  lemma OnlyOkIsStored(cache: Cache, path: string, reply: Reply)
    ensures !IsOk(reply) ==> Stored(cache, path, reply) == cache
  {
  }

  lemma AreDistinct(cache: Cache, bodies: (string, string) -> string)
    requires Faithful(cache, bodies)
    ensures DistinctKeys(cache)
  {
  }

  // ----- the refresh of the access token

  datatype TokenPair = TokenPair(accessToken: string, refreshToken: string)

  /** A refresh request that was sent and not answered yet. */
  datatype Flight = Flight(id: nat, refreshToken: string)

  /**
   refreshAccessToken, as callers overlap: a call starts a request or joins the one in flight; Settle answers it.
   replaced: the tokens for which a usable pair arrived. lost: those that the server exchanged though no usable answer
   arrived, so that the client still holds them.
   */
  class Refresher {
    var refreshInflight: Option<Flight>
    var refreshToken: Option<string>
    /** Numbers the promises. */
    var flights: nat

    ghost var outstanding: set<Flight>
    ghost var replaced: set<string>
    ghost var lost: set<string>
    ghost var answers: map<nat, Option<string>>

    /** At most one request is outstanding, and the token at hand was never replaced. */
    ghost predicate Valid()
      reads this
    {
      && outstanding == (if refreshInflight.Some? then {refreshInflight.value} else {})
      && (refreshToken.Some? ==> refreshToken.value !in replaced)
      && (refreshInflight.Some? ==> refreshInflight.value.refreshToken !in replaced)
      && (refreshInflight.Some? ==> refreshToken == Some(refreshInflight.value.refreshToken))
      && (forall f :: f in outstanding ==> f.id < flights && f.id !in answers)
      && (forall id :: id in answers ==> id < flights)
    }

    constructor (refreshToken: Option<string>)
      ensures Valid() && outstanding == {} && replaced == lost == {} && this.refreshToken == refreshToken
    {
      refreshInflight := None;
      this.refreshToken := refreshToken;
      outstanding, flights, replaced, lost, answers := {}, 0, {}, {}, map[];
    }

    /**
     The flight that the caller waits for, if there is a token to refresh with; a token is presented again only if it
     was not replaced.
     */
    method RefreshAccessToken() returns (flight: Option<Flight>)
      requires Valid()
      modifies this
      ensures Valid() && |outstanding| <= 1
      ensures refreshToken == old(refreshToken) && answers == old(answers)
      ensures replaced == old(replaced) && lost == old(lost)
      ensures old(outstanding) <= outstanding
      ensures flight.Some? ==> outstanding == {flight.value}
      ensures flight.Some? ==> Some(flight.value.refreshToken) == refreshToken && flight.value.refreshToken !in replaced
      ensures flight.None? <==> old(outstanding) == {} && (refreshToken.None? || refreshToken.value == "")
    {
      if refreshInflight.Some? {
        return refreshInflight;
      }
      if refreshToken.None? || refreshToken.value == "" {
        return None;
      }
      refreshInflight := Some(Flight(flights, refreshToken.value));
      outstanding := {refreshInflight.value};
      flights := flights + 1;
      flight := refreshInflight;
    }

    /**
     Everyone who waits for the flight gets this one answer. A usable pair replaces the token that was exchanged;
     a lost, refused or unusable answer leaves it, whether or not the server exchanged it.
     */
    method Settle(flight: Flight, answer: Option<TokenPair>, ghost exchanged: bool)
      requires Valid() && flight in outstanding
      requires answer.Some? ==> exchanged && answer.value.refreshToken !in replaced + lost + {flight.refreshToken}
      modifies this
      ensures Valid() && outstanding == {}
      ensures answers == old(answers)[flight.id := if Usable(answer) then Some(answer.value.accessToken) else None]
      ensures Usable(answer) ==>
                && refreshToken == Some(answer.value.refreshToken)
                && replaced == old(replaced) + {flight.refreshToken} && lost == old(lost)
      ensures !Usable(answer) ==>
                && refreshToken == old(refreshToken) == Some(flight.refreshToken)
                && replaced == old(replaced) && lost == old(lost) + if exchanged then {flight.refreshToken} else {}
    {
      refreshInflight := None;
      outstanding := {};
      if answer.None? || answer.value.accessToken == "" || answer.value.refreshToken == "" {
        answers := answers[flight.id := None];
        lost := lost + if exchanged then {flight.refreshToken} else {};
        return;
      }
      refreshToken := Some(answer.value.refreshToken);
      replaced := replaced + {flight.refreshToken};
      answers := answers[flight.id := Some(answer.value.accessToken)];
    }
  }

  predicate Usable(answer: Option<TokenPair>) {
    answer.Some? && answer.value.accessToken != "" && answer.value.refreshToken != ""
  }

  /** A token whose answer was lost is presented again, though the server has exchanged it. */
  method PresentAgain(token: string) returns (first: Flight, second: Flight, refresher: Refresher)
    requires token != ""
    ensures first != second && first.refreshToken == second.refreshToken == token
    ensures fresh(refresher) && refresher.Valid() && second in refresher.outstanding && token in refresher.lost
  {
    refresher := new Refresher(Some(token));
    var flight := refresher.RefreshAccessToken();
    first := flight.value;
    refresher.Settle(first, None, true);
    flight := refresher.RefreshAccessToken();
    second := flight.value;
    assert first.id in refresher.answers;
  }
}

/** security/audit/hmac.chain.ts and security/audit/audit.logger.ts: an append-only, HMAC-chained log. */
module AuditLog {
  import opened Basics

  /**
   A JavaScript value. Objects are maps: the signed text lists keys in sorted order, so it depends on no other order.
   */
  datatype Json =
    | Undefined
    | Null
    | Bool(b: bool)
    | Num(n: real)
    | Str(s: string)
    | Arr(items: seq<Json>)
    | Obj(fields: map<string, Json>)

  type Fields = map<string, Json>

  /** fields holds every property but entryHmac. */
  datatype LogEntry = LogEntry(fields: Fields, entryHmac: string)

  datatype ChainVerificationResult = Valid(totalEntries: nat) | Invalid(firstInvalidIndex: nat, totalEntries: nat)

  const PREVIOUS := "previousEntryHmac"

  // ----- canonical form

  /**
   JSON.stringify with a property list: at every depth only listed properties survive, properties
   holding undefined vanish, and undefined array elements become null.
   */
  function Project(v: Json, keys: set<string>): Json {
    match v
    case Arr(items) =>
      Arr(seq(|items|, i requires 0 <= i < |items| => if items[i].Undefined? then Null else Project(items[i], keys)))
    case Obj(fields) =>
      Obj(map k | k in fields && k in keys && !fields[k].Undefined? :: Project(fields[k], keys))
    case _ => v
  }

  /** The top-level keys are the property list, also for nested objects. */
  function Canonicalize(fields: Fields): Json {
    Project(Obj(fields), fields.Keys)
  }

  // ----- the chain

  class HmacChain {
    /** HMAC-SHA256 of the canonical text under the secret. */
    const hmac: Json -> string

    constructor (hmac: Json -> string)
      ensures this.hmac == hmac
    {
      this.hmac := hmac;
    }

    function Sign(fields: Fields): string {
      hmac(Canonicalize(fields))
    }

    predicate Verify(entry: LogEntry) {
      Sign(entry.fields) == entry.entryHmac
    }

    /** Entry i carries its own HMAC and, unless it is first, that of the entry before it. */
    ghost predicate Good(entries: seq<LogEntry>, i: nat)
      requires i < |entries|
    {
      Verify(entries[i]) && (i > 0 ==> Links(entries[i], entries[i - 1]))
    }

    ghost predicate AllGood(entries: seq<LogEntry>) {
      forall i :: 0 <= i < |entries| ==> Good(entries, i)
    }

    /** Valid exactly for chains whose every entry is good; otherwise the least bad index is reported. */
    method VerifyChain(entries: seq<LogEntry>) returns (r: ChainVerificationResult)
      ensures r.totalEntries == |entries|
      ensures r.Valid? <==> AllGood(entries)
      ensures r.Invalid? ==>
                && r.firstInvalidIndex < |entries|
                && !Good(entries, r.firstInvalidIndex)
                && forall i :: 0 <= i < r.firstInvalidIndex ==> Good(entries, i)
    {
      if |entries| == 0 {
        return Valid(0);
      }
      for i := 0 to |entries|
        invariant forall j :: 0 <= j < i ==> Good(entries, j)
      {
        var entry := entries[i];
        if !Verify(entry) {
          assert !Good(entries, i);
          return Invalid(i, |entries|);
        }
        if i > 0 {
          var previousEntry := entries[i - 1];
          if !Links(entry, previousEntry) {
            assert !Good(entries, i);
            return Invalid(i, |entries|);
          }
        }
      }
      return Valid(|entries|);
    }
  }

  predicate Links(entry: LogEntry, previous: LogEntry) {
    PREVIOUS in entry.fields && entry.fields[PREVIOUS] == Str(previous.entryHmac)
  }

  // ----- the logger

  /** What log takes from the event and its context: every property but the chain link. */
  const EVENT_KEYS: set<string> :=
    {"id", "correlationId", "timestamp", "userId", "sessionId", "strategyId", "eventType", "actionName",
     "parameters", "resultStatus", "latencyMs", "circuitBreakerStates", "systemPromptHash"}

  const GENESIS: string := seq(64, _ => '0')

  class AuditLogger {
    const hmacChain: HmacChain
    var lastEntryHmac: string
    /** What the writer has accepted. */
    ghost var written: seq<LogEntry>

    /** The link field is in step with what was written, and what was written is a good chain from genesis. */
    ghost predicate InStep()
      reads this
    {
      && lastEntryHmac == (if written == [] then GENESIS else written[|written| - 1].entryHmac)
      && hmacChain.AllGood(written)
      && (written != [] ==> PREVIOUS in written[0].fields && written[0].fields[PREVIOUS] == Str(GENESIS))
    }

    constructor (hmacChain: HmacChain)
      ensures InStep() && written == [] && this.hmacChain == hmacChain
    {
      this.hmacChain := hmacChain;
      lastEntryHmac := GENESIS;
      written := [];
    }

    /** Never throws: when the write fails, nothing is appended and the next entry links where this one would have. */
    method Log(event: Fields, writeFails: bool)
      requires InStep() && event.Keys == EVENT_KEYS
      modifies this
      ensures InStep()
      ensures writeFails ==> written == old(written)
      ensures !writeFails ==>
                var fields := event[PREVIOUS := Str(old(lastEntryHmac))];
                written == old(written) + [LogEntry(fields, hmacChain.Sign(fields))]
    {
      var entryWithoutHmac := event[PREVIOUS := Str(lastEntryHmac)];
      var entryHmac := hmacChain.Sign(entryWithoutHmac);
      ghost var entry := LogEntry(entryWithoutHmac, entryHmac);
      if !writeFails {
        GoodAppend(hmacChain, written, entry);
        written := written + [entry];
        lastEntryHmac := entryHmac;
      }
    }
  }

  lemma GoodAppend(chain: HmacChain, entries: seq<LogEntry>, entry: LogEntry)
    requires chain.AllGood(entries) && chain.Verify(entry)
    requires entries != [] ==> Links(entry, entries[|entries| - 1])
    ensures chain.AllGood(entries + [entry])
  {
    forall i | 0 <= i < |entries|
      ensures chain.Good(entries + [entry], i)
    {
      assert chain.Good(entries, i);
    }
  }

  /** Every contiguous part of a good chain passes verification by itself. */
  lemma SliceIsGood(chain: HmacChain, entries: seq<LogEntry>, from: nat, to: nat)
    requires chain.AllGood(entries) && from <= to <= |entries|
    ensures chain.AllGood(entries[from..to])
  {
    forall i | 0 <= i < to - from
      ensures chain.Good(entries[from..to], i)
    {
      assert chain.Good(entries, from + i);
    }
  }

  // ----- what a valid chain pins down

  /** These two forms are no collision. No function from forms to strings is free of collisions altogether. */
  ghost predicate NoCollision(hmac: Json -> string, a: Json, b: Json) {
    hmac(a) == hmac(b) ==> a == b
  }

  /**
   The HMAC of the last entry pins the canonical form of every entry, at every position, unless the two chains hold a
   collision at that position or a later one.
   */
  lemma {:induction false} LastHmacPinsChain(chain: HmacChain, a: seq<LogEntry>, b: seq<LogEntry>, i: nat)
    requires chain.AllGood(a) && chain.AllGood(b)
    requires |a| == |b| && i < |a| && a[|a| - 1].entryHmac == b[|b| - 1].entryHmac
    requires forall k :: i <= k < |a| ==>
               NoCollision(chain.hmac, Canonicalize(a[k].fields), Canonicalize(b[k].fields))
    ensures a[i].entryHmac == b[i].entryHmac
    ensures Canonicalize(a[i].fields) == Canonicalize(b[i].fields)
    decreases |a| - i
  {
    assert chain.Good(a, i) && chain.Good(b, i);
    if i < |a| - 1 {
      LastHmacPinsChain(chain, a, b, i + 1);
      assert chain.Good(a, i + 1) && chain.Good(b, i + 1);
      CanonicalFormKeeps(a[i + 1].fields, b[i + 1].fields, PREVIOUS);
    }
  }

  predicate Defined(fields: Fields, key: string) {
    key in fields && !fields[key].Undefined?
  }

  predicate IsScalar(v: Json) {
    !v.Arr? && !v.Obj?
  }

  /**
   Canonical forms that agree fix which properties are present and the value of every one that is no object or array.
   */
  lemma CanonicalFormKeeps(f: Fields, g: Fields, key: string)
    requires Canonicalize(f) == Canonicalize(g)
    ensures Defined(f, key) <==> Defined(g, key)
    ensures Defined(f, key) && IsScalar(f[key]) && IsScalar(g[key]) ==> f[key] == g[key]
  {
    var p, q := Canonicalize(f).fields, Canonicalize(g).fields;
    assert key in p <==> Defined(f, key);
    assert key in q <==> Defined(g, key);
    if key in p {
      assert p[key] == Project(f[key], f.Keys) && q[key] == Project(g[key], g.Keys);
    }
  }

  /** An array keeps its length and its items, each as it would be alone; an undefined one becomes null. */
  lemma ArraysKeepItems(items: seq<Json>, keys: set<string>)
    ensures var p := Project(Arr(items), keys);
            && p.Arr? && |p.items| == |items|
            && forall i :: 0 <= i < |items| ==>
                 p.items[i] == if items[i].Undefined? then Null else Project(items[i], keys)
  {
  }

  /** Every other value but an object stays as it is. */
  lemma ScalarsStay(v: Json, keys: set<string>)
    requires IsScalar(v)
    ensures Project(v, keys) == v
  {
  }

  ghost function ProjectedFields(f: Fields, keys: set<string>): Fields {
    map k | k in f && k in keys && !f[k].Undefined? :: Project(f[k], keys)
  }

  lemma ProjectObject(f: Fields, keys: set<string>)
    ensures Project(Obj(f), keys) == Obj(ProjectedFields(f, keys))
  {
    assert Project(Obj(f), keys).fields == ProjectedFields(f, keys);
  }

  /** The new value of property k and the old one look alike in the canonical form. */
  ghost predicate LooksAlike(inner: Fields, k: string, v: Json, keys: set<string>) {
    if v.Undefined? then !Defined(inner, k)
    else Defined(inner, k) && Project(v, keys) == Project(inner[k], keys)
  }

  lemma NestedProjectionSameIff(inner: Fields, keys: set<string>, k: string, v: Json)
    ensures Project(Obj(inner[k := v]), keys) == Project(Obj(inner), keys) <==>
            k !in keys || LooksAlike(inner, k, v, keys)
  {
    ProjectObject(inner, keys);
    ProjectObject(inner[k := v], keys);
    hide Project;
    var before := ProjectedFields(inner, keys);
    assert ProjectedFields(inner[k := v], keys) ==
           if k in keys && !v.Undefined? then before[k := Project(v, keys)] else before - {k};
    assert k in before <==> k in keys && Defined(inner, k);
  }

  /**
   A change of one property of a nested object goes unnoticed exactly if its name is no top-level key, or it looks
   alike.
   */
  lemma NestedChangeUnnoticedIff(fields: Fields, key: string, inner: Fields, k: string, v: Json)
    requires key in fields && fields[key] == Obj(inner)
    ensures Canonicalize(fields[key := Obj(inner[k := v])]) == Canonicalize(fields) <==>
            k !in fields || LooksAlike(inner, k, v, fields.Keys)
  {
    var keys := fields.Keys;
    assert fields[key := Obj(inner[k := v])].Keys == keys;
    NestedProjectionSameIff(inner, keys, k, v);
    ProjectObject(fields, keys);
    ProjectObject(fields[key := Obj(inner[k := v])], keys);
    ProjectedUpdate(fields, key, Obj(inner[k := v]), keys);
    hide LooksAlike, Project, ProjectedFields;
    UpdateSameIff(ProjectedFields(fields, keys), key, Project(Obj(inner[k := v]), keys));
  }

  lemma ProjectedUpdate(fields: Fields, key: string, v: Json, keys: set<string>)
    requires Defined(fields, key) && key in keys && !v.Undefined?
    ensures ProjectedFields(fields[key := v], keys) == ProjectedFields(fields, keys)[key := Project(v, keys)]
    ensures key in ProjectedFields(fields, keys) && ProjectedFields(fields, keys)[key] == Project(fields[key], keys)
  {
    hide Project;
  }

  lemma UpdateSameIff(m: Fields, k: string, v: Json)
    requires k in m
    ensures m[k := v] == m <==> m[k] == v
  {
    assert m[k := v] == m ==> m[k := v][k] == m[k];
  }

  // ----- entries read back from the file

  /** JSON.parse(JSON.stringify(v)). */
  function ReadBack(v: Json): Json {
    match v
    case Arr(items) =>
      Arr(seq(|items|, i requires 0 <= i < |items| => if items[i].Undefined? then Null else ReadBack(items[i])))
    case Obj(fields) =>
      Obj(map k | k in fields && !fields[k].Undefined? :: ReadBack(fields[k]))
    case _ => v
  }

  function ReadBackEntry(e: LogEntry): LogEntry {
    LogEntry(ReadBack(Obj(e.fields)).fields, e.entryHmac)
  }

  lemma {:induction false} ProjectReadBack(v: Json, keys: set<string>)
    ensures Project(ReadBack(v), keys) == Project(v, keys)
  {
    match v
    case Arr(items) =>
      forall i | 0 <= i < |items| && !items[i].Undefined?
        ensures Project(ReadBack(items[i]), keys) == Project(items[i], keys) && !ReadBack(items[i]).Undefined?
      {
        ProjectReadBack(items[i], keys);
      }
      assert Project(ReadBack(v), keys).items == Project(v, keys).items;
    case Obj(fields) =>
      forall k | k in fields && !fields[k].Undefined?
        ensures Project(ReadBack(fields[k]), keys) == Project(fields[k], keys) && !ReadBack(fields[k]).Undefined?
      {
        ProjectReadBack(fields[k], keys);
      }
      assert Project(ReadBack(v), keys).fields == Project(v, keys).fields;
    case _ =>
  }

  /** Some object inside v that the property list keeps has a defined property among the dropped names. */
  predicate Shows(v: Json, keys: set<string>, dropped: set<string>) {
    match v
    case Arr(items) => exists i :: 0 <= i < |items| && Shows(items[i], keys, dropped)
    case Obj(fields) =>
      exists k :: k in fields && k in keys && !fields[k].Undefined? && (k in dropped || Shows(fields[k], keys, dropped))
    case _ => false
  }

  /** Taking names off the property list changes the projection exactly when some kept object shows one. */
  lemma {:induction false} ShorterListIff(v: Json, keys: set<string>, dropped: set<string>)
    ensures Project(v, keys) == Project(v, keys - dropped) <==> !Shows(v, keys, dropped)
  {
    var p, q := Project(v, keys), Project(v, keys - dropped);
    match v
    case Arr(items) =>
      forall i | 0 <= i < |items|
        ensures p.items[i] == q.items[i] <==> !Shows(items[i], keys, dropped)
      {
        ShorterListIff(items[i], keys, dropped);
      }
      assert p == q <==> p.items == q.items;
      assert |p.items| == |q.items| == |items|;
      assert p.items == q.items <==> forall i :: 0 <= i < |items| ==> p.items[i] == q.items[i];
    case Obj(fields) =>
      forall k | k in fields && k in keys && !fields[k].Undefined?
        ensures k in p.fields && (k in q.fields <==> k !in dropped)
        ensures k !in dropped ==> (p.fields[k] == q.fields[k] <==> !Shows(fields[k], keys, dropped))
      {
        ShorterListIff(fields[k], keys, dropped);
      }
      if !Shows(v, keys, dropped) {
        assert p.fields == q.fields;
      } else {
        var k :| k in fields && k in keys && !fields[k].Undefined? && (k in dropped || Shows(fields[k], keys, dropped));
        assert k in p.fields && (k in q.fields ==> p.fields[k] != q.fields[k]);
      }
    case _ =>
  }

  /** The properties of the entry that hold undefined, and so are absent once it is read back. */
  function Absent(fields: Fields): set<string> {
    set k | k in fields && fields[k].Undefined?
  }

  /**
   A logged entry read back from the file still verifies exactly when no kept object inside it has a
   property named like one of the entry's own undefined properties.
   */
  lemma ReadBackVerifiesIff(chain: HmacChain, e: LogEntry)
    requires chain.Verify(e)
    requires !Collides(chain.hmac, e)
    ensures chain.Verify(ReadBackEntry(e)) <==> !Shows(Obj(e.fields), e.fields.Keys, Absent(e.fields))
  {
    ReadBackFormSameIff(e);
  }

  lemma ReadBackFormSameIff(e: LogEntry)
    ensures Canonicalize(ReadBackEntry(e).fields) == Canonicalize(e.fields) <==>
            !Shows(Obj(e.fields), e.fields.Keys, Absent(e.fields))
  {
    var keys, absent := e.fields.Keys, Absent(e.fields);
    var back := ReadBackEntry(e).fields;
    assert back.Keys == keys - absent;
    ProjectReadBack(Obj(e.fields), keys - absent);
    ShorterListIff(Obj(e.fields), keys, absent);
  }

  /** An event without a user, whose payload, taken over as the parameters, mentions one. */
  const MENTIONED: Fields := map["userId" := Str("u1")]

  const EVENT: Fields := map k | k in EVENT_KEYS :: EventValue(k)

  function EventValue(key: string): Json {
    match key
    case "userId" => Undefined
    case "parameters" => Obj(MENTIONED)
    case "latencyMs" => Num(0.0)
    case "circuitBreakerStates" => Arr([])
    case _ => Str("")
  }

  lemma EventShows(fields: Fields)
    requires fields == EVENT[PREVIOUS := Str(GENESIS)]
    ensures EVENT.Keys == EVENT_KEYS
    ensures Shows(Obj(fields), fields.Keys, Absent(fields))
  {
    assert fields["userId"].Undefined? && "userId" in Absent(fields);
    assert fields["parameters"] == Obj(MENTIONED);
    assert "userId" in MENTIONED && "userId" in fields.Keys && !MENTIONED["userId"].Undefined?;
    assert Shows(Obj(MENTIONED), fields.Keys, Absent(fields));
  }

  /** The forms of an entry as it is written and as it is read back are a collision. */
  ghost predicate Collides(hmac: Json -> string, e: LogEntry) {
    !NoCollision(hmac, Canonicalize(e.fields), Canonicalize(ReadBackEntry(e).fields))
  }

  /** It fails for an entry that log writes, unless the two forms of it are a collision. */
  lemma ReadBackCanFail(chain: HmacChain)
    ensures EVENT.Keys == EVENT_KEYS
    ensures var fields := EVENT[PREVIOUS := Str(GENESIS)];
            var e := LogEntry(fields, chain.Sign(fields));
            chain.Verify(e) && (chain.Verify(ReadBackEntry(e)) <==> Collides(chain.hmac, e))
  {
    var fields := EVENT[PREVIOUS := Str(GENESIS)];
    var e := LogEntry(fields, chain.Sign(fields));
    EventShows(fields);
    hide EVENT, Shows, Absent, Canonicalize, ReadBack;
    ReadBackFormSameIff(e);
  }

  method LogWithoutUser(chain: HmacChain) returns (logger: AuditLogger)
    ensures fresh(logger) && |logger.written| == 1 && logger.written[0].fields.Keys == EVENT_KEYS + {PREVIOUS}
    ensures chain.Verify(logger.written[0])
    ensures chain.Verify(ReadBackEntry(logger.written[0])) <==> Collides(chain.hmac, logger.written[0])
  {
    hide EVENT, EVENT_KEYS, ReadBack, Canonicalize, HmacChain.AllGood, Collides;
    ReadBackCanFail(chain);
    logger := new AuditLogger(chain);
    assert logger.lastEntryHmac == GENESIS;
    logger.Log(EVENT, false);
    var fields := EVENT[PREVIOUS := Str(GENESIS)];
    assert logger.written == [LogEntry(fields, chain.Sign(fields))];
  }

  /** With every optional property present, whatever was written verifies after reading back. */
  lemma CompleteEntriesReadBack(chain: HmacChain, e: LogEntry)
    requires chain.Verify(e)
    requires forall k :: k in e.fields ==> !e.fields[k].Undefined?
    ensures chain.Verify(ReadBackEntry(e))
  {
    NothingDropped(Obj(e.fields), e.fields.Keys);
    assert Absent(e.fields) == {};
    ReadBackFormSameIff(e);
  }

  lemma {:induction false} NothingDropped(v: Json, keys: set<string>)
    ensures !Shows(v, keys, {})
  {
    match v
    case Arr(items) =>
      forall i | 0 <= i < |items| { NothingDropped(items[i], keys); }
    case Obj(fields) =>
      forall k | k in fields { NothingDropped(fields[k], keys); }
    case _ =>
  }
}

/** security/crypto/signing.service.ts: the canonical form that payloads are signed in. */
module SigningService {
  import opened Basics
  import opened StableSort

  /**
   A value. An object has its own properties, in order, and whatever else it is: the time of a Date, the entries of a
   Map, the class of an instance. A plain object is nothing else.
   */
  datatype Json = Scalar(text: string) | Arr(items: seq<Json>) | Obj(state: string, fields: seq<Field>)

  const PLAIN := ""

  datatype Field = Field(key: string, value: Json)

  /** Assigning to this property of a plain object sets its prototype and creates no own property. */
  const PROTO := "__proto__"

  // ----- property lists

  function KeysOf(fields: seq<Field>): (ks: seq<string>)
    ensures |ks| == |fields| && forall i :: 0 <= i < |fields| ==> ks[i] == fields[i].key
  {
    seq(|fields|, i requires 0 <= i < |fields| => fields[i].key)
  }

  function IndexOf(fields: seq<Field>, key: string): (i: nat)
    ensures i <= |fields|
    ensures i < |fields| ==> fields[i].key == key
    ensures forall j :: 0 <= j < i ==> fields[j].key != key
  {
    if fields == [] || fields[0].key == key then 0 else IndexOf(fields[1..], key) + 1
  }

  predicate Has(fields: seq<Field>, key: string) {
    IndexOf(fields, key) < |fields|
  }

  function Get(fields: seq<Field>, key: string): Json
    requires Has(fields, key)
  {
    fields[IndexOf(fields, key)].value
  }

  /** Every object in the value has each key once. */
  ghost predicate WellFormed(v: Json) {
    match v
    case Scalar(_) => true
    case Arr(items) => forall i :: 0 <= i < |items| ==> WellFormed(items[i])
    case Obj(_, fields) =>
      && (forall i, j :: 0 <= i < j < |fields| ==> fields[i].key != fields[j].key)
      && (forall i :: 0 <= i < |fields| ==> WellFormed(fields[i].value))
  }

  // ----- key order

  /** Lexicographic order by character code. */
  predicate Less(a: string, b: string) {
    if b == "" then false
    else if a == "" then true
    else a[0] < b[0] || (a[0] == b[0] && Less(a[1..], b[1..]))
  }

  lemma {:induction false} LessIsTotal(a: string, b: string)
    ensures a != b ==> Less(a, b) || Less(b, a)
    ensures !(Less(a, b) && Less(b, a)) && (a == b ==> !Less(a, b))
  {
    if a != "" && b != "" {
      LessIsTotal(a[1..], b[1..]);
      assert a[0] == b[0] && a[1..] == b[1..] ==> a == [a[0]] + a[1..] == b;
    }
  }

  lemma {:induction false} LessIsTransitive(a: string, b: string, c: string)
    requires Less(a, b) && Less(b, c)
    ensures Less(a, c)
  {
    if a != "" && a[0] == b[0] == c[0] {
      LessIsTransitive(a[1..], b[1..], c[1..]);
    }
  }

  /** The strings first differ at k, where a has the smaller character or has ended. */
  ghost predicate FirstDiffer(a: string, b: string, k: nat) {
    k <= |a| && k < |b| && a[..k] == b[..k] && (k == |a| || a[k] < b[k])
  }

  /** The order of keys: the smaller character where they first differ, and a prefix before its continuations. */
  lemma {:induction false} LessIff(a: string, b: string)
    ensures Less(a, b) <==> exists k: nat :: FirstDiffer(a, b, k)
  {
    if b != "" && a != "" {
      LessIff(a[1..], b[1..]);
      if k: nat :| FirstDiffer(a[1..], b[1..], k) && a[0] == b[0] {
        assert a[..k + 1] == [a[0]] + a[1..][..k] && b[..k + 1] == [b[0]] + b[1..][..k];
        assert FirstDiffer(a, b, k + 1);
      }
      if a[0] < b[0] {
        assert FirstDiffer(a, b, 0);
      }
      if k: nat :| FirstDiffer(a, b, k) {
        DifferLater(a, b, k);
      }
    } else if b != "" {
      assert FirstDiffer(a, b, 0);
    }
  }

  lemma DifferLater(a: string, b: string, k: nat)
    requires a != "" && b != "" && FirstDiffer(a, b, k)
    ensures a[0] < b[0] || (a[0] == b[0] && FirstDiffer(a[1..], b[1..], k - 1))
  {
    if k > 0 {
      assert a[..k][0] == b[..k][0] && a[..k][1..] == a[1..][..k - 1] && b[..k][1..] == b[1..][..k - 1];
    }
  }

  ghost predicate Ascending(keys: seq<string>) {
    forall i, j :: 0 <= i < j < |keys| ==> Less(keys[i], keys[j])
  }

  /** The comparison of Array.sort on strings. */
  predicate KeyAfter(a: string, b: string) {
    Less(b, a)
  }

  /** Object.keys, sorted. */
  function SortedKeys(fields: seq<Field>): (r: seq<string>)
    ensures forall k :: k in r <==> k in KeysOf(fields)
  {
    SortMembers(KeysOf(fields), KeyAfter);
    Sort(KeysOf(fields), KeyAfter)
  }

  lemma KeysAreOrdered(a: string, b: string, c: string)
    ensures KeyAfter(a, b) ==> !KeyAfter(b, a)
    ensures !KeyAfter(a, b) && !KeyAfter(b, c) ==> !KeyAfter(a, c)
  {
    hide Less;
    LessIsTotal(a, b);
    LessIsTotal(b, c);
    LessIsTotal(a, c);
    if Less(a, b) && Less(b, c) {
      LessIsTransitive(a, b, c);
    }
  }

  lemma KeyOrderIsConsistent()
    ensures Consistent(KeyAfter)
  {
    hide KeyAfter;
    forall a, b, c {
      KeysAreOrdered(a, b, c);
    }
  }

  lemma SortAscends(fields: seq<Field>)
    requires forall i, j :: 0 <= i < j < |fields| ==> fields[i].key != fields[j].key
    ensures Ascending(SortedKeys(fields))
  {
    hide Less, Sort;
    var keys, sorted := KeysOf(fields), SortedKeys(fields);
    KeyOrderIsConsistent();
    SortOrders(keys, KeyAfter);
    SortKeepsApart(keys, KeyAfter, Itself);
    forall i, j | 0 <= i < j < |sorted|
      ensures Less(sorted[i], sorted[j])
    {
      assert Itself(sorted[i]) != Itself(sorted[j]) && !KeyAfter(sorted[i], sorted[j]);
      LessIsTotal(sorted[i], sorted[j]);
    }
  }

  function Itself(key: string): string {
    key
  }

  lemma LeastIsFirst(a: seq<string>, b: seq<string>)
    requires Ascending(a) && Ascending(b) && a != [] && b != []
    requires forall k :: k in a <==> k in b
    ensures a[0] == b[0]
  {
    assert a[0] in b && b[0] in a;
    var i :| 0 <= i < |b| && b[i] == a[0];
    var j :| 0 <= j < |a| && a[j] == b[0];
    LessIsTotal(a[0], b[0]);
  }

  /** An ascending list is determined by its members. */
  lemma {:induction false} AscendingIsUnique(a: seq<string>, b: seq<string>)
    requires Ascending(a) && Ascending(b)
    requires forall k :: k in a <==> k in b
    ensures a == b
  {
    SomeMember(a);
    SomeMember(b);
    if a != [] && b != [] {
      LeastIsFirst(a, b);
      var a', b' := a[1..], b[1..];
      forall k
        ensures k in a' <==> k in b'
      {
        LessIsTotal(a[0], a[0]);
        assert k in a <==> k == a[0] || k in a';
        assert k in b <==> k == b[0] || k in b';
        assert k in a' ==> Less(a[0], k);
        assert k in b' ==> Less(b[0], k);
      }
      AscendingIsUnique(a', b');
    }
  }

  lemma SomeMember(keys: seq<string>)
    ensures keys != [] ==> exists k :: k in keys
  {
    if keys != [] {
      assert keys[0] in keys;
    }
  }

  lemma AscendingIsDistinct(keys: seq<string>)
    requires Ascending(keys)
    ensures forall i, j :: 0 <= i < j < |keys| ==> keys[i] != keys[j]
  {
    forall i, j | 0 <= i < j < |keys|
      ensures keys[i] != keys[j]
    {
      LessIsTotal(keys[i], keys[j]);
    }
  }

  // ----- the canonical form

  function Canonical(v: Json): Json
    decreases v, 1
  {
    match v
    case Scalar(_) => v
    case Arr(items) => Arr(seq(|items|, i requires 0 <= i < |items| => Canonical(items[i])))
    case Obj(_, fields) =>
      ListedAreHad(fields);
      Obj(PLAIN, Picked(v, SortedKeys(fields)))
  }

  /** The listed properties in list order, each in canonical form. */
  function Picked(v: Json, keys: seq<string>): seq<Field>
    requires v.Obj? && forall k :: k in keys ==> Has(v.fields, k)
    decreases v, 0, |keys|
  {
    if keys == [] then []
    else if keys[0] == PROTO then Picked(v, keys[1..])
    else [Field(keys[0], Canonical(Get(v.fields, keys[0])))] + Picked(v, keys[1..])
  }

  /** Fills the new object property by property, in ascending key order. */
  method SortKeysDeep(value: Json) returns (r: Json)
    ensures r == Canonical(value)
    decreases value
  {
    hide Picked, SortedKeys, IndexOf;
    match value {
      case Scalar(_) => r := value;
      case Arr(items) =>
        var mapped: seq<Json> := [];
        for i := 0 to |items|
          invariant |mapped| == i && forall j :: 0 <= j < i ==> mapped[j] == Canonical(items[j])
        {
          var item := SortKeysDeep(items[i]);
          mapped := mapped + [item];
        }
        r := Arr(mapped);
        assert mapped == Canonical(value).items;
      case Obj(_, fields) =>
        var keys := SortedKeys(fields);
        ListedAreHad(fields);
        var sorted: seq<Field> := [];
        assert keys[0..] == keys;
        for i := 0 to |keys|
          invariant sorted + Picked(value, keys[i..]) == Picked(value, keys)
        {
          PickedNext(value, keys, i);
          var v := SortKeysDeep(Get(fields, keys[i]));
          if keys[i] != PROTO {
            sorted := sorted + [Field(keys[i], v)];
          }
        }
        NothingPicked(value);
        assert keys[|keys|..] == [];
        r := Obj(PLAIN, sorted);
    }
  }

  lemma PickedNext(v: Json, keys: seq<string>, i: nat)
    requires v.Obj? && (forall k :: k in keys ==> Has(v.fields, k)) && i < |keys|
    ensures Has(v.fields, keys[i])
    ensures Picked(v, keys[i..]) ==
            (if keys[i] == PROTO then [] else [Field(keys[i], Canonical(Get(v.fields, keys[i])))])
            + Picked(v, keys[i + 1..])
  {
    hide Canonical, Get, IndexOf;
    assert keys[i] in keys && keys[i..][1..] == keys[i + 1..];
  }

  lemma NothingPicked(v: Json)
    requires v.Obj?
    ensures Picked(v, []) == []
  {
  }

  lemma KeyListed(fields: seq<Field>, k: string)
    ensures k in KeysOf(fields) <==> Has(fields, k)
  {
    if Has(fields, k) {
      assert KeysOf(fields)[IndexOf(fields, k)] == k;
    }
  }

  lemma ListedAreHad(fields: seq<Field>)
    ensures forall k :: k in SortedKeys(fields) <==> Has(fields, k)
  {
    forall k {
      KeyListed(fields, k);
    }
  }

  lemma ConsProperties(f: Field, rest: seq<Field>)
    ensures forall k :: Has([f] + rest, k) <==> k == f.key || Has(rest, k)
    ensures forall k :: Has([f] + rest, k) ==> Get([f] + rest, k) == if k == f.key then f.value else Get(rest, k)
  {
    assert ([f] + rest)[1..] == rest;
  }

  lemma ConsAscends(f: Field, rest: seq<Field>)
    requires Ascending(KeysOf(rest)) && forall j :: 0 <= j < |rest| ==> Less(f.key, rest[j].key)
    ensures Ascending(KeysOf([f] + rest))
  {
    assert KeysOf([f] + rest) == [f.key] + KeysOf(rest);
  }

  /** The picked properties: the listed keys but PROTO, in list order, with the canonical values. */
  lemma {:induction false} PickedProperties(v: Json, keys: seq<string>)
    requires v.Obj? && (forall k :: k in keys ==> Has(v.fields, k)) && Ascending(keys)
    ensures Ascending(KeysOf(Picked(v, keys)))
    ensures forall k :: Has(Picked(v, keys), k) <==> k in keys && k != PROTO
    ensures forall k :: k in keys && k != PROTO ==> Get(Picked(v, keys), k) == Canonical(Get(v.fields, k))
    decreases |keys|
  {
    hide Less;
    if keys != [] {
      var tail := keys[1..];
      assert keys == [keys[0]] + tail;
      PickedProperties(v, tail);
      AscendingIsDistinct(keys);
      var rest := Picked(v, tail);
      if keys[0] != PROTO {
        var f := Field(keys[0], Canonical(Get(v.fields, keys[0])));
        forall j | 0 <= j < |rest|
          ensures Less(f.key, rest[j].key)
        {
          HasAt(rest, j);
          assert rest[j].key in tail;
        }
        hide Has, Get, Canonical;
        ConsProperties(f, rest);
        ConsAscends(f, rest);
      }
    }
  }

  lemma HasAt(fields: seq<Field>, j: nat)
    requires j < |fields|
    ensures Has(fields, fields[j].key)
  {
  }

  /** An object's canonical form: ascending keys without PROTO, canonical values. */
  lemma CanonicalObject(v: Json)
    requires v.Obj? && WellFormed(v)
    ensures var c := Canonical(v);
            && c.Obj? && c.state == PLAIN && Ascending(KeysOf(c.fields))
            && (forall k :: Has(c.fields, k) <==> Has(v.fields, k) && k != PROTO)
            && (forall k :: Has(v.fields, k) && k != PROTO ==> Get(c.fields, k) == Canonical(Get(v.fields, k)))
  {
    ListedAreHad(v.fields);
    SortAscends(v.fields);
    PickedProperties(v, SortedKeys(v.fields));
  }

  // ----- what it keeps and what it forgets

  /**
   Equal but for the order of object properties, at any depth; properties named PROTO and what an object is besides
   its own properties do not count.
   */
  ghost predicate SameUpToOrder(a: Json, b: Json)
    decreases a
  {
    match a
    case Scalar(_) => a == b
    case Arr(items) =>
      b.Arr? && |items| == |b.items| && forall i :: 0 <= i < |items| ==> SameUpToOrder(items[i], b.items[i])
    case Obj(_, fields) =>
      && b.Obj?
      && (forall k :: k != PROTO ==> (Has(fields, k) <==> Has(b.fields, k)))
      && (forall i :: 0 <= i < |fields| && fields[i].key != PROTO && IndexOf(fields, fields[i].key) == i ==>
            Has(b.fields, fields[i].key) && SameUpToOrder(fields[i].value, Get(b.fields, fields[i].key)))
  }

  lemma {:induction false} EqualFormsAreSame(a: Json, b: Json)
    requires WellFormed(a) && WellFormed(b) && Canonical(a) == Canonical(b)
    ensures SameUpToOrder(a, b)
    decreases a
  {
    match a
    case Scalar(_) =>
    case Arr(items) =>
      forall i | 0 <= i < |items|
        ensures SameUpToOrder(items[i], b.items[i])
      {
        assert Canonical(a).items[i] == Canonical(b).items[i];
        EqualFormsAreSame(items[i], b.items[i]);
      }
    case Obj(_, fields) =>
      CanonicalObject(a);
      CanonicalObject(b);
      var c := Canonical(a).fields;
      forall k | k != PROTO
        ensures Has(fields, k) <==> Has(b.fields, k)
      {
        assert Has(c, k) <==> Has(fields, k);
      }
      forall i | 0 <= i < |fields| && fields[i].key != PROTO && IndexOf(fields, fields[i].key) == i
        ensures Has(b.fields, fields[i].key) && SameUpToOrder(fields[i].value, Get(b.fields, fields[i].key))
      {
        var k := fields[i].key;
        assert Get(c, k) == Canonical(Get(fields, k));
        EqualFormsAreSame(fields[i].value, Get(b.fields, k));
      }
  }

  lemma {:induction false} SameHaveEqualForms(a: Json, b: Json)
    requires WellFormed(a) && WellFormed(b) && SameUpToOrder(a, b)
    ensures Canonical(a) == Canonical(b)
    decreases a
  {
    match a
    case Scalar(_) =>
    case Arr(items) =>
      forall i | 0 <= i < |items|
        ensures Canonical(items[i]) == Canonical(b.items[i])
      {
        SameHaveEqualForms(items[i], b.items[i]);
      }
      assert Canonical(a).items == Canonical(b).items;
    case Obj(_, fields) =>
      CanonicalObject(a);
      CanonicalObject(b);
      var c, d := Canonical(a).fields, Canonical(b).fields;
      forall k | Has(c, k)
        ensures Get(c, k) == Get(d, k)
      {
        var i := IndexOf(fields, k);
        SameHaveEqualForms(fields[i].value, Get(b.fields, k));
      }
      SameProperties(c, d);
  }

  /** Ascending property lists with the same keys and values are the same list. */
  lemma SameProperties(c: seq<Field>, d: seq<Field>)
    requires Ascending(KeysOf(c)) && Ascending(KeysOf(d))
    requires forall k :: Has(c, k) <==> Has(d, k)
    requires forall k :: Has(c, k) ==> Get(c, k) == Get(d, k)
    ensures c == d
  {
    forall k
      ensures k in KeysOf(c) <==> k in KeysOf(d)
    {
      KeyListed(c, k);
      KeyListed(d, k);
    }
    AscendingIsUnique(KeysOf(c), KeysOf(d));
    forall i | 0 <= i < |c|
      ensures c[i] == d[i]
    {
      assert KeysOf(c)[i] == KeysOf(d)[i];
      HasAt(c, i);
      AscendingIndex(c, i);
      AscendingIndex(d, i);
    }
  }

  lemma AscendingIndex(fields: seq<Field>, i: nat)
    requires Ascending(KeysOf(fields)) && i < |fields|
    ensures IndexOf(fields, fields[i].key) == i
  {
    AscendingIsDistinct(KeysOf(fields));
    HasAt(fields, i);
    assert KeysOf(fields)[IndexOf(fields, fields[i].key)] == KeysOf(fields)[i];
  }

  /**
   Two payloads get the same canonical form exactly when they differ only in property order, in properties named PROTO
   and in what objects are besides their own properties, at some depths.
   */
  lemma CanonicalIffSame(a: Json, b: Json)
    requires WellFormed(a) && WellFormed(b)
    ensures Canonical(a) == Canonical(b) <==> SameUpToOrder(a, b)
  {
    if SameUpToOrder(a, b) {
      SameHaveEqualForms(a, b);
    } else if Canonical(a) == Canonical(b) {
      EqualFormsAreSame(a, b);
    }
  }

  /** The canonical form is well formed and itself the same value up to order. */
  lemma {:induction false} CanonicalIsSame(v: Json)
    requires WellFormed(v)
    ensures WellFormed(Canonical(v)) && SameUpToOrder(Canonical(v), v)
    decreases v
  {
    match v
    case Scalar(_) =>
    case Arr(items) =>
      forall i | 0 <= i < |items|
        ensures WellFormed(Canonical(items[i])) && SameUpToOrder(Canonical(items[i]), items[i])
      {
        CanonicalIsSame(items[i]);
      }
    case Obj(_, fields) =>
      CanonicalObject(v);
      var c := Canonical(v).fields;
      forall i | 0 <= i < |c|
        ensures c[i].key != PROTO && Has(fields, c[i].key)
        ensures WellFormed(c[i].value) && SameUpToOrder(c[i].value, Get(fields, c[i].key))
      {
        HasAt(c, i);
        AscendingIndex(c, i);
        CanonicalIsSame(fields[IndexOf(fields, c[i].key)].value);
      }
      forall i, j | 0 <= i < j < |c|
        ensures c[i].key != c[j].key
      {
        AscendingIndex(c, i);
        AscendingIndex(c, j);
      }
  }

  lemma CanonicalIsIdempotent(v: Json)
    requires WellFormed(v)
    ensures Canonical(Canonical(v)) == Canonical(v)
  {
    CanonicalIsSame(v);
    SameHaveEqualForms(Canonical(v), v);
  }

  datatype Step = Key(key: string) | Index(i: nat)

  /** The value found by following the path. */
  ghost function At(v: Json, path: seq<Step>): Option<Json>
    decreases |path|
  {
    if path == [] then Some(v)
    else
      match path[0]
      case Key(k) => if v.Obj? && Has(v.fields, k) then At(Get(v.fields, k), path[1..]) else None
      case Index(i) => if v.Arr? && i < |v.items| then At(v.items[i], path[1..]) else None
  }

  /** Every path that avoids PROTO leads to the canonical form of what it led to; paths through PROTO lead nowhere. */
  lemma {:induction false} PathsAreKept(v: Json, path: seq<Step>)
    requires WellFormed(v)
    ensures Key(PROTO) !in path ==>
              At(Canonical(v), path) == (if At(v, path).Some? then Some(Canonical(At(v, path).value)) else None)
    ensures Key(PROTO) in path ==> At(Canonical(v), path) == None
    decreases |path|
  {
    if path != [] {
      assert path == [path[0]] + path[1..];
      match path[0]
      case Key(k) =>
        if v.Obj? {
          CanonicalObject(v);
          if Has(v.fields, k) {
            PathsAreKept(Get(v.fields, k), path[1..]);
          }
        }
      case Index(i) =>
        if v.Arr? && i < |v.items| {
          PathsAreKept(v.items[i], path[1..]);
        }
    }
  }

  /** So payloads that differ in a property named PROTO are signed alike. */
  lemma ProtoIsForgotten(state: string, v: Json)
    ensures Canonical(Obj(state, [Field(PROTO, v)])) == Canonical(Obj(PLAIN, []))
  {
    var o := Obj(state, [Field(PROTO, v)]);
    var keys := SortedKeys(o.fields);
    ListedAreHad(o.fields);
    assert forall k :: k in keys ==> k == PROTO;
    OnlyProtoPicked(o, keys);
    assert KeysOf([]) == [];
  }

  /** And so are payloads that differ in anything but own properties: two dates, or a date and an empty object. */
  lemma StateIsForgotten(s: string, t: string, fields: seq<Field>)
    ensures Canonical(Obj(s, fields)) == Canonical(Obj(t, fields))
  {
    ListedAreHad(fields);
    SamePicked(Obj(s, fields), Obj(t, fields), SortedKeys(fields));
  }

  lemma {:induction false} SamePicked(v: Json, w: Json, keys: seq<string>)
    requires v.Obj? && w.Obj? && v.fields == w.fields && forall k :: k in keys ==> Has(v.fields, k)
    ensures Picked(v, keys) == Picked(w, keys)
    decreases |keys|
  {
    if keys != [] {
      SamePicked(v, w, keys[1..]);
    }
  }

  lemma {:induction false} OnlyProtoPicked(v: Json, keys: seq<string>)
    requires v.Obj? && forall k :: k in keys ==> k == PROTO && Has(v.fields, k)
    ensures Picked(v, keys) == []
    decreases |keys|
  {
    if keys != [] {
      assert keys[0] in keys && forall k :: k in keys[1..] ==> k in keys;
      OnlyProtoPicked(v, keys[1..]);
    }
  }
}

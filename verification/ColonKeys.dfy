/** Keys put together from two parts with a colon between them, of which the parts themselves may hold some. */
module ColonKeys {

  function Joined(a: string, b: string): string {
    a + ":" + b
  }

  /** b goes on after a and a colon. */
  predicate Extends(a: string, b: string) {
    a + ":" <= b
  }

  /** Some key that starts with one part is also one that starts with the other. */
  predicate Meet(a: string, b: string) {
    Extends(a, b) || Extends(b, a)
  }

  lemma Parts(a: string, b: string)
    ensures Joined(a, b)[..|a|] == a && Joined(a, b)[|a|] == ':' && Joined(a, b)[|a| + 1..] == b
  {
  }

  lemma LongerExtends(a: string, s: string, b: string, t: string)
    requires Joined(a, s) == Joined(b, t) && |a| < |b|
    ensures Extends(a, b)
  {
    Parts(a, s);
    Parts(b, t);
    var k := Joined(a, s);
    assert b == k[..|b|];
    assert b[..|a| + 1] == k[..|a| + 1] == a + ":";
  }

  /** First parts that do not meet keep the keys of different pairs apart. */
  lemma JoinedApart(a: string, s: string, b: string, t: string)
    requires !Meet(a, b) || a == b
    ensures Joined(a, s) == Joined(b, t) <==> a == b && s == t
  {
    if Joined(a, s) == Joined(b, t) {
      Parts(a, s);
      Parts(b, t);
      if |a| < |b| {
        LongerExtends(a, s, b, t);
      } else if |b| < |a| {
        LongerExtends(b, t, a, s);
      }
    }
  }

  lemma ExtendedMeets(a: string, b: string) returns (s: string, t: string)
    requires Extends(a, b)
    ensures Joined(a, s) == Joined(b, t)
  {
    t := "";
    s := Joined(b, t)[|a| + 1..];
    assert Joined(b, t)[..|a| + 1] == b[..|a| + 1] == a + ":";
  }

  /** Two different first parts can give one key, exactly if one of them goes on after the other and a colon. */
  lemma JoinedMeetIff(a: string, b: string)
    requires a != b
    ensures (exists s, t :: Joined(a, s) == Joined(b, t)) <==> Meet(a, b)
  {
    hide Joined, Extends;
    if Extends(a, b) {
      var s, t := ExtendedMeets(a, b);
    } else if Extends(b, a) {
      var t, s := ExtendedMeets(b, a);
    }
    forall s, t | Joined(a, s) == Joined(b, t)
      ensures Meet(a, b)
    {
      if !Meet(a, b) {
        JoinedApart(a, s, b, t);
      }
    }
  }

  lemma ColonFreeApart(a: string, b: string)
    requires ':' !in a && ':' !in b
    ensures !Meet(a, b)
  {
    if Extends(a, b) {
      ExtendedHasColon(a, b);
    }
    if Extends(b, a) {
      ExtendedHasColon(b, a);
    }
  }

  lemma ExtendedHasColon(a: string, b: string)
    requires Extends(a, b)
    ensures ':' in b
  {
    assert b[|a|] == ':';
  }
}

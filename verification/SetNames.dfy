/** apps/web/lib/wallet-groups.ts, setNameFromLabel: the set that a wallet's label puts it in. */
module SetNames {
  import opened Basics
  import opened JsStrings

  predicate IsSeparator(c: char) {
    IsSpace(c) || c == '-' || c == '_' || c == '#'
  }

  function StripDigits(s: string): string {
    if s != "" && IsDigit(s[|s| - 1]) then StripDigits(s[..|s| - 1]) else s
  }

  function StripSeparators(s: string): string {
    if s != "" && IsSeparator(s[|s| - 1]) then StripSeparators(s[..|s| - 1]) else s
  }

  /** Replaces the first match of [\s\-_#]*\d+$ by nothing. */
  function StripIndex(s: string): string {
    if s != "" && IsDigit(s[|s| - 1]) then StripSeparators(StripDigits(s)) else s
  }

  function SetNameFromLabel(text: Option<string>): Option<string> {
    if text.None? || text.value == "" then None
    else
      var trimmed := Trim(text.value);
      if trimmed == "" then None
      else
        var stripped := Trim(StripIndex(trimmed));
        Some(if stripped != "" then stripped else trimmed)
  }

  // ----- what the pattern matches

  ghost predicate Digits(s: string) {
    s != "" && forall i :: 0 <= i < |s| ==> IsDigit(s[i])
  }

  ghost predicate Separators(s: string) {
    forall i :: 0 <= i < |s| ==> IsSeparator(s[i])
  }

  /** s is separators and then at least one digit, its first digit at k. */
  ghost predicate IndexAt(s: string, k: nat) {
    k < |s| && Separators(s[..k]) && Digits(s[k..])
  }

  ghost predicate Index(s: string) {
    exists k: nat :: IndexAt(s, k)
  }

  lemma {:induction false} StripDigitsIs(s: string)
    ensures var r := StripDigits(s);
            && |r| <= |s| && r == s[..|r|]
            && (forall i :: |r| <= i < |s| ==> IsDigit(s[i]))
            && (r != "" ==> !IsDigit(r[|r| - 1]))
  {
    if s != "" && IsDigit(s[|s| - 1]) {
      StripDigitsIs(s[..|s| - 1]);
    }
  }

  lemma {:induction false} StripSeparatorsIs(s: string)
    ensures var r := StripSeparators(s);
            && |r| <= |s| && r == s[..|r|]
            && (forall i :: |r| <= i < |s| ==> IsSeparator(s[i]))
            && (r != "" ==> !IsSeparator(r[|r| - 1]))
  {
    if s != "" && IsSeparator(s[|s| - 1]) {
      StripSeparatorsIs(s[..|s| - 1]);
    }
  }

  lemma SeparatorIsNoDigit(c: char)
    ensures !(IsSeparator(c) && IsDigit(c))
  {
  }

  lemma MatchIsBelow(s: string, i: nat)
    requires i <= |s| && Index(s[i..])
    ensures i < |s| && IsDigit(s[|s| - 1]) && |StripSeparators(StripDigits(s))| <= i
  {
    hide IsSpace;
    var k: nat :| IndexAt(s[i..], k);
    StripDigitsIs(s);
    var d := StripDigits(s);
    StripSeparatorsIs(d);
    assert forall j :: i + k <= j < |s| ==> s[j] == s[i..][k..][j - i - k];
    assert forall j :: i <= j < i + k ==> s[j] == s[i..][..k][j - i];
  }

  lemma IndexFrom(s: string, i: nat, j: nat)
    requires i <= j < |s|
    requires forall l :: i <= l < j ==> IsSeparator(s[l])
    requires forall l :: j <= l < |s| ==> IsDigit(s[l])
    ensures Index(s[i..])
  {
    hide IsSeparator, IsDigit;
    assert Separators(s[i..][..j - i]);
    assert s[i..][j - i..] == s[j..];
    assert IndexAt(s[i..], j - i);
  }

  lemma StrippedMatches(s: string)
    requires s != "" && IsDigit(s[|s| - 1])
    ensures var r := StripIndex(s); |r| < |s| && r == s[..|r|] && Index(s[|r|..])
  {
    hide IsSeparator, IsDigit, Index;
    StripDigitsIs(s);
    var d := StripDigits(s);
    StripSeparatorsIs(d);
    IndexFrom(s, |StripIndex(s)|, |d|);
  }

  /** What is stripped is the leftmost suffix that matches, or nothing if none does. */
  lemma StripIndexIsLeftmostMatch(s: string)
    ensures var r := StripIndex(s);
            && |r| <= |s| && r == s[..|r|]
            && (r != s ==> Index(s[|r|..]))
            && forall i :: 0 <= i <= |s| && Index(s[i..]) ==> |r| <= i && r != s
  {
    hide IsSpace, IsDigit, IsSeparator, Index, StripSeparators, StripDigits;
    forall i | 0 <= i <= |s| && Index(s[i..])
      ensures s != "" && IsDigit(s[|s| - 1]) && |StripSeparators(StripDigits(s))| <= i
    {
      MatchIsBelow(s, i);
    }
    if s != "" && IsDigit(s[|s| - 1]) {
      StrippedMatches(s);
    }
  }

  // ----- numbered labels

  lemma {:induction false} TrimStartIs(s: string)
    ensures var r := TrimStart(s);
            && |r| <= |s| && r == s[|s| - |r|..]
            && (forall i :: 0 <= i < |s| - |r| ==> IsSpace(s[i]))
            && (r != "" ==> !IsSpace(r[0]))
  {
    if s != "" && IsSpace(s[0]) {
      TrimStartIs(s[1..]);
      assert forall i :: 1 <= i < |s| ==> s[1..][i - 1] == s[i];
    }
  }

  lemma {:induction false} TrimStartAppend(p: string, t: string)
    requires t != "" && !IsSpace(t[|t| - 1])
    ensures TrimStart(p + t) == if TrimStart(p) == "" then TrimStart(t) else TrimStart(p) + t
  {
    if p == "" {
      assert p + t == t;
    } else if IsSpace(p[0]) {
      assert (p + t)[1..] == p[1..] + t;
      TrimStartAppend(p[1..], t);
    }
  }

  lemma {:induction false} StripDigitsAppend(p: string, d: string)
    requires Digits(d) && (p != "" ==> !IsDigit(p[|p| - 1]))
    ensures StripDigits(p + d) == p
  {
    assert (p + d)[..|p + d| - 1] == p + d[..|d| - 1];
    if |d| > 1 {
      StripDigitsAppend(p, d[..|d| - 1]);
    } else {
      assert p + d[..|d| - 1] == p;
    }
  }

  lemma DigitIsNoSpace(d: string)
    requires Digits(d)
    ensures !IsSpace(d[|d| - 1]) && !IsSpace(d[0]) && TrimStart(" " + d) == d
  {
    assert (" " + d)[1..] == d;
  }

  /** A label as the bulk creation of wallets writes it: prefix, space, index. */
  function Numbered(p: string, d: string): string {
    p + (" " + d)
  }

  /** Trimming a numbered label trims its prefix in front, or leaves the index alone. */
  lemma TrimNumbered(p: string, d: string)
    requires Digits(d)
    ensures Trim(Numbered(p, d)) == if TrimStart(p) == "" then d else Numbered(TrimStart(p), d)
  {
    DigitIsNoSpace(d);
    hide IsSpace, Digits;
    TrimStartAppend(p, " " + d);
  }

  lemma SpaceIsSeparator()
    ensures IsSpace(' ') && IsSeparator(' ') && !IsDigit(' ')
  {
  }

  lemma StripSpace(p: string)
    ensures StripSeparators(p + " ") == StripSeparators(p)
  {
    assert (p + " ")[..|p|] == p;
  }

  lemma StripNumbered(p: string, d: string)
    requires Digits(d)
    ensures StripIndex(Numbered(p, d)) == StripSeparators(p)
    ensures StripIndex(d) == ""
  {
    SpaceIsSeparator();
    hide IsSpace, IsSeparator, IsDigit;
    assert Numbered(p, d) == (p + " ") + d && "" + d == d;
    StripDigitsAppend(p + " ", d);
    StripDigitsAppend("", d);
    StripSpace(p);
  }

  lemma NothingToTrim(q: string)
    requires q != "" ==> !IsSpace(q[0]) && !IsSpace(q[|q| - 1])
    ensures Trim(q) == q
  {
  }

  lemma SpacesAreSeparators(q: string)
    requires q != "" && !IsSeparator(q[|q| - 1])
    ensures !IsSpace(q[|q| - 1])
  {
  }

  /** The prefix of a label without its leading spaces and its trailing separators. */
  function Prefix(p: string): string {
    StripSeparators(TrimStart(p))
  }

  lemma PrefixIsTrimmed(p: string)
    ensures Trim(Prefix(p)) == Prefix(p)
  {
    hide IsSpace, IsSeparator;
    TrimStartIs(p);
    StripSeparatorsIs(TrimStart(p));
    if Prefix(p) != "" {
      SpacesAreSeparators(Prefix(p));
    }
    NothingToTrim(Prefix(p));
  }

  /**
   A numbered label goes to the set of its stripped prefix; if nothing is left of that, it keeps its whole trimmed text.
   */
  lemma NumberedLabel(p: string, d: string)
    requires Digits(d)
    ensures SetNameFromLabel(Some(Numbered(p, d))) == Some(if Prefix(p) != "" then Prefix(p) else Trim(Numbered(p, d)))
  {
    TrimNumbered(p, d);
    StripNumbered(TrimStart(p), d);
    PrefixIsTrimmed(p);
    hide StripIndex, StripSeparators, TrimStart, TrimEnd, Trim;
    TrimOfNothing();
  }

  lemma TrimOfNothing()
    ensures Trim("") == "" == StripSeparators("")
  {
  }

  lemma PrefixIsKeptIff(p: string)
    ensures Prefix(p) == p <==> p == "" || (!IsSpace(p[0]) && !IsSeparator(p[|p| - 1]))
  {
    hide IsSpace, IsSeparator;
    TrimStartIs(p);
    StripSeparatorsIs(TrimStart(p));
  }

  /** An all-separator prefix is not the whole label. */
  lemma LabelIsNoPrefix(p: string, d: string)
    requires Digits(d) && Prefix(p) == ""
    ensures Trim(Numbered(p, d)) != p
  {
    TrimNumbered(p, d);
    TrimStartIs(p);
    StripSeparatorsIs(TrimStart(p));
    hide IsSpace, StripSeparators, TrimStart, Trim;
    var start := TrimStart(p);
    DigitIsNoSpace(d);
    assert IsDigit(d[|d| - 1]) && !IsSeparator(d[|d| - 1]) by {
      SeparatorIsNoDigit(d[|d| - 1]);
    }
    if start != "" {
      assert Numbered(start, d)[|start| + |d|] == d[|d| - 1];
      assert p[|p| - 1] == start[|start| - 1];
    }
  }

  /**
   A numbered label belongs to the set called by its prefix, exactly if the prefix has no leading space or trailing
   separator.
   */
  lemma NumberedLabelNamesItsPrefixIff(p: string, d: string)
    requires Digits(d)
    ensures SetNameFromLabel(Some(Numbered(p, d))) == Some(p)
            <==> p != "" && !IsSpace(p[0]) && !IsSeparator(p[|p| - 1])
  {
    NumberedLabel(p, d);
    PrefixIsKeptIff(p);
    if Prefix(p) == "" {
      LabelIsNoPrefix(p, d);
    }
    hide Prefix, Trim, SetNameFromLabel, IsSpace, IsSeparator;
  }

  lemma NumberedApart(p: string, d: string, e: string)
    requires Numbered(p, d) == Numbered(p, e)
    ensures d == e
  {
    assert Numbered(p, d)[|p| + 1..] == d && Numbered(p, e)[|p| + 1..] == e;
  }

  /** Two different indices of one prefix give one set, exactly if something of the prefix is left after stripping. */
  lemma OnePrefixOneSetIff(p: string, d: string, e: string)
    requires Digits(d) && Digits(e) && d != e
    ensures SetNameFromLabel(Some(Numbered(p, d))) == SetNameFromLabel(Some(Numbered(p, e))) <==> Prefix(p) != ""
  {
    NumberedLabel(p, d);
    NumberedLabel(p, e);
    TrimNumbered(p, d);
    TrimNumbered(p, e);
    hide Prefix, Trim, SetNameFromLabel, TrimStart, Numbered;
    if Numbered(TrimStart(p), d) == Numbered(TrimStart(p), e) {
      NumberedApart(TrimStart(p), d, e);
    }
  }

  /** Any separator between prefix and index will do. */
  lemma SeparatedLabel(p: string, separator: char, d: string)
    requires p != "" && !IsSpace(p[0]) && !IsSeparator(p[|p| - 1]) && Digits(d)
    requires separator in {' ', '-', '_', '#', '\t'}
    ensures SetNameFromLabel(Some(p + [separator] + d)) == Some(p)
  {
    var text := p + [separator] + d;
    DigitIsNoSpace(d);
    assert text[0] == p[0] && text[|text| - 1] == d[|d| - 1];
    TrimmedStays(text);
    assert !IsDigit(separator) && IsSeparator(separator);
    StripDigitsAppend(p + [separator], d);
    assert (p + [separator])[..|p|] == p;
    SpacesAreSeparators(p);
    TrimmedStays(p);
    hide IsSpace, Trim, StripDigits;
    assert StripSeparators(p + [separator]) == StripSeparators(p) == p;
    assert StripIndex(text) == p;
  }

  /** The examples that stand beside the function. */
  lemma DocumentedLabels()
    ensures SetNameFromLabel(Some("Sniper 3")) == Some("Sniper")
    ensures SetNameFromLabel(Some("Treasury")) == Some("Treasury")
    ensures SetNameFromLabel(Some("")) == None
  {
    assert "Sniper" + [' '] + "3" == "Sniper 3" && Digits("3");
    SeparatedLabel("Sniper", ' ', "3");
    TrimmedStays("Treasury");
    hide Trim;
    UnnumberedLabel("Treasury");
  }

  /** A label that does not end in a digit names its own set; one without anything but spaces names none. */
  lemma UnnumberedLabel(text: string)
    ensures Trim(text) == "" ==> SetNameFromLabel(Some(text)) == None
    ensures Trim(text) != "" && !IsDigit(Trim(text)[|Trim(text)| - 1]) ==>
              SetNameFromLabel(Some(text)) == Some(Trim(text))
    ensures SetNameFromLabel(None) == None
  {
    hide IsSpace, IsSeparator, IsDigit;
    var i, j := TrimIs(text);
    TrimOfNothing();
    if Trim(text) != "" {
      TrimmedStays(Trim(text));
    }
    if text == "" {
      assert Trim(text) == "";
    }
  }

  lemma TrimmedStays(t: string)
    requires t != "" && !IsSpace(t[0]) && !IsSpace(t[|t| - 1])
    ensures Trim(t) == t
  {
  }
}

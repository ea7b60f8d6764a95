/** The channel-name grammar: `<visibility>:<app>.<domain>[.<id>][.<topic>]`. */
module Names {
  import opened Text

  const PUBLIC := "public"
  const PRIVATE := "private"

  datatype Name = Name(visibility: string, app: string, domain: string, id: string, topic: string) {
    predicate IsPrivate() { visibility == PRIVATE }
  }

  datatype NameError =
    | MissingPrefix
    | UnknownVisibility
    | ReservedColon
    | TooFewComponents
    | TooManyComponents
    | BadComponent
    | MissingId

  predicate ComponentChar(c: char) {
    'a' <= c <= 'z' || '0' <= c <= '9' || c == '-' || c == '_'
  }

  predicate ValidComponent(s: string) {
    s != "" && forall i :: 0 <= i < |s| ==> ComponentChar(s[i])
  }

  predicate KnownVisibility(v: string) {
    v == PUBLIC || v == PRIVATE
  }

  /** App and domain always, id and topic only when non-empty. */
  function Components(n: Name): seq<string> {
    [n.app, n.domain]
    + (if n.id != "" then [n.id] else [])
    + (if n.topic != "" then [n.topic] else [])
  }

  /** `Name.String`. */
  function Print(n: Name): string {
    n.visibility + ":" + Join(Components(n), '.')
  }

  function FromParts(vis: string, parts: seq<string>): Name
    requires 2 <= |parts| <= 4
  {
    Name(vis, parts[0], parts[1],
         if |parts| >= 3 then parts[2] else "",
         if |parts| == 4 then parts[3] else "")
  }

  function ParseName(s: string): Result<Name, NameError> {
    var colon := IndexOf(s, ':');
    if colon <= 0 || colon == |s| - 1 then Err(MissingPrefix)
    else if !KnownVisibility(s[..colon]) then Err(UnknownVisibility)
    else
      var rest := s[colon + 1..];
      if ':' in rest then Err(ReservedColon)
      else
        var parts := Split(rest, {'.'});
        if |parts| < 2 then Err(TooFewComponents)
        else if |parts| > 4 then Err(TooManyComponents)
        else if exists i :: 0 <= i < |parts| && !ValidComponent(parts[i]) then Err(BadComponent)
        else
          var n := FromParts(s[..colon], parts);
          if n.IsPrivate() && n.id == "" then Err(MissingId) else Ok(n)
  }

  /** Names the grammar describes: valid components, a topic only together with
      an id, and an id on every private name. */
  predicate Canonical(n: Name) {
    && KnownVisibility(n.visibility)
    && ValidComponent(n.app) && ValidComponent(n.domain)
    && (n.id == "" || ValidComponent(n.id))
    && (n.topic == "" || ValidComponent(n.topic))
    && (n.topic != "" ==> n.id != "")
    && (n.IsPrivate() ==> n.id != "")
  }

  lemma ComponentFree(s: string)
    requires ValidComponent(s)
    ensures FreeOf(s, SEPARATORS) && FreeOf(s, {'.'}) && FreeOf(s, {':'})
  {
  }

  lemma {:induction false} JoinFree(parts: seq<string>)
    requires AllFreeOf(parts, {':'})
    ensures FreeOf(Join(parts, '.'), {':'})
  {
    if parts == [] {
    } else {
      assert FreeOf(parts[0], {':'}) && AllFreeOf(parts[1..], {':'});
      JoinFree(parts[1..]);
    }
  }

  lemma CanonicalComponents(n: Name)
    requires Canonical(n)
    ensures 2 <= |Components(n)| <= 4
    ensures FromParts(n.visibility, Components(n)) == n
    ensures forall i :: 0 <= i < |Components(n)| ==> ValidComponent(Components(n)[i])
    ensures AllFreeOf(Components(n), SEPARATORS) && AllFreeOf(Components(n), {'.'}) && AllFreeOf(Components(n), {':'})
  {
    var cs := Components(n);
    forall i | 0 <= i < |cs|
      ensures FreeOf(cs[i], SEPARATORS) && FreeOf(cs[i], {'.'}) && FreeOf(cs[i], {':'})
    {
      ComponentFree(cs[i]);
    }
  }

  /** Cutting a visibility prefix off at the first colon. */
  lemma ColonAt(vis: string, rest: string)
    requires KnownVisibility(vis)
    ensures IndexOf(vis + ":" + rest, ':') == |vis|
  {
    var s := vis + ":" + rest;
    assert s[|vis|] == ':';
    assert forall j :: 0 <= j < |vis| ==> s[j] == vis[j] != ':';
  }

  /** Every canonical name is recovered from its printed form. */
  lemma PrintThenParse(n: Name)
    requires Canonical(n)
    ensures ParseName(Print(n)) == Ok(n)
  {
    var cs := Components(n);
    var rest := Join(cs, '.');
    var s := Print(n);
    ColonAt(n.visibility, rest);
    CanonicalComponents(n);
    assert s[..|n.visibility|] == n.visibility;
    assert s[|n.visibility| + 1..] == rest;
    JoinFree(cs);
    SplitJoin(cs, '.', {'.'});
    assert rest != "" by { assert cs[0] != ""; }
  }

  /** Every accepted string is reprinted exactly, and parses to a canonical name. */
  lemma ParseThenPrint(s: string)
    requires ParseName(s).Ok?
    ensures Print(ParseName(s).value) == s
    ensures Canonical(ParseName(s).value)
  {
    var colon := IndexOf(s, ':');
    var rest := s[colon + 1..];
    var parts := Split(rest, {'.'});
    assert ParseName(s).value == FromParts(s[..colon], parts);
    PartsAreComponents(s[..colon], parts);
    JoinSplit(rest, '.');
    assert s == s[..colon] + ":" + rest;
  }

  lemma PartsAreComponents(vis: string, parts: seq<string>)
    requires 2 <= |parts| <= 4 && forall i :: 0 <= i < |parts| ==> ValidComponent(parts[i])
    ensures Components(FromParts(vis, parts)) == parts
  {
  }

  /** Lower-case letters, digits, hyphens and underscores, by their codes. */
  predicate Word(s: string) {
    s != "" && forall c :: c in s ==> 97 <= c as int <= 122 || 48 <= c as int <= 57 || c as int == 45 || c as int == 95
  }

  /** `s` is a visibility, a colon, and two to four words between dots; three at least
      for a private name. */
  predicate Spells(s: string, vis: string, words: seq<string>) {
    && s == vis + ":" + Join(words, '.') && (vis == "public" || vis == "private")
    && (if vis == "private" then 3 else 2) <= |words| <= 4 && forall i :: 0 <= i < |words| ==> Word(words[i])
  }

  lemma WordExactly(s: string)
    ensures ValidComponent(s) <==> Word(s)
  {
    if Word(s) {
      assert forall i :: 0 <= i < |s| ==> s[i] in s;
    }
  }

  /** Exactly which strings are channel names, and which name each of them is. */
  lemma ParsesExactly(s: string, vis: string, words: seq<string>)
    ensures Spells(s, vis, words) <==>
            var n := ParseName(s);
            n.Ok? && n.value.visibility == vis && Components(n.value) == words
  {
    if Spells(s, vis, words) {
      forall i | 0 <= i < |words| ensures ValidComponent(words[i]) { WordExactly(words[i]); }
      PartsAreComponents(vis, words);
      PrintThenParse(FromParts(vis, words));
    }
    var n := ParseName(s);
    if n.Ok? && n.value.visibility == vis && Components(n.value) == words {
      ParseThenPrint(s);
      CanonicalComponents(n.value);
      forall i | 0 <= i < |words| ensures Word(words[i]) { WordExactly(words[i]); }
    }
  }

  /** The round trip `String` documents holds exactly for canonical names. */
  lemma RoundTripExactlyWhenCanonical(n: Name)
    ensures ParseName(Print(n)) == Ok(n) <==> Canonical(n)
  {
    if Canonical(n) {
      PrintThenParse(n);
    } else if ParseName(Print(n)) == Ok(n) {
      ParseThenPrint(Print(n));
    }
  }

  /** Registry keys identify canonical names. */
  lemma PrintInjective(a: Name, b: Name)
    requires Canonical(a) && Canonical(b) && Print(a) == Print(b)
    ensures a == b
  {
    PrintThenParse(a);
    PrintThenParse(b);
  }

  /** A name with a topic but no id prints to a string that parses to a
      different name. */
  lemma TopicWithoutIdDoesNotRoundTrip()
    ensures var n := Name(PUBLIC, "a", "b", "", "t");
            ParseName(Print(n)).Ok? && ParseName(Print(n)) != Ok(n)
  {
    var n := Name(PUBLIC, "a", "b", "", "t");
    var m := Name(PUBLIC, "a", "b", "t", "");
    assert Components(n) == ["a", "b", "t"] == Components(m);
    PrintThenParse(m);
  }
}

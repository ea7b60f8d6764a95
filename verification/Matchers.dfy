/** The schema registry's matcher and the token broker's small glob, and their
    agreement with the channel matcher. */
module Matchers {
  import opened Text
  import opened Names
  import opened Patterns

  // ---------- schema patterns ----------

  datatype Token = Literal(text: string) | Single | Double | Var(name: string)

  function TokenAt(segs: seq<string>, i: nat): Option<Token>
    requires i < |segs|
  {
    var s := segs[i];
    if s == "**" then (if i != |segs| - 1 then None else Some(Double))
    else if s == "*" then Some(Single)
    else if |s| > 2 && s[0] == '{' && s[|s| - 1] == '}' then Some(Var(s[1..|s| - 1]))
    else if '{' in s || '}' in s || '*' in s then None
    else Some(Literal(s))
  }

  function TokensFrom(segs: seq<string>, i: nat): Option<seq<Token>>
    requires i <= |segs|
    decreases |segs| - i
  {
    if i == |segs| then Some([])
    else match TokenAt(segs, i)
      case None => None
      case Some(t) =>
        match TokensFrom(segs, i + 1)
        case None => None
        case Some(ts) => Some([t] + ts)
  }

  /** `schema.ParsePattern`. */
  function ParseSchema(src: string): Option<seq<Token>> {
    if src == "" then None else TokensFrom(Split(src, SEPARATORS), 0)
  }

  /** The token-building loop of `schema.ParsePattern`. */
  method CompileSchema(src: string) returns (r: Option<seq<Token>>)
    ensures r == ParseSchema(src)
  {
    if src == "" { return None; }
    var segs := SplitSegments(src);
    var tokens: seq<Token> := [];
    PrependNothing(TokensFrom(segs, 0));
    for i := 0 to |segs|
      invariant TokensFrom(segs, 0) == Prepend(tokens, TokensFrom(segs, i))
    {
      match TokenAt(segs, i) {
        case None => return None;
        case Some(t) =>
          PrependOne(tokens, t, TokensFrom(segs, i + 1));
          tokens := tokens + [t];
      }
    }
    assert tokens + [] == tokens;
    return Some(tokens);
  }

  ghost function Prepend(done: seq<Token>, rest: Option<seq<Token>>): Option<seq<Token>> {
    if rest.None? then None else Some(done + rest.value)
  }

  lemma PrependNothing(rest: Option<seq<Token>>)
    ensures Prepend([], rest) == rest
  {
    if rest.Some? { assert [] + rest.value == rest.value; }
  }

  lemma PrependOne(done: seq<Token>, t: Token, rest: Option<seq<Token>>)
    ensures Prepend(done, Prepend([t], rest)) == Prepend(done + [t], rest)
  {
    if rest.Some? { assert done + ([t] + rest.value) == (done + [t]) + rest.value; }
  }

  // ---------- what a schema pattern is ----------

  function TokenSpelling(t: Token): string {
    match t
    case Literal(x) => x
    case Single => "*"
    case Double => "**"
    case Var(v) => "{" + v + "}"
  }

  function TokenSpellings(tokens: seq<Token>): seq<string> {
    seq(|tokens|, i requires 0 <= i < |tokens| => TokenSpelling(tokens[i]))
  }

  /** Literals have no braces or stars, placeholders have a name. */
  predicate LegalToken(t: Token) {
    && (t.Literal? ==> '{' !in t.text && '}' !in t.text && '*' !in t.text)
    && (t.Var? ==> t.name != "")
  }

  lemma TokenAtExactly(segs: seq<string>, i: nat, t: Token)
    requires i < |segs|
    ensures TokenAt(segs, i) == Some(t) <==>
            segs[i] == TokenSpelling(t) && LegalToken(t) && (t == Double ==> i == |segs| - 1)
  {
    var s := segs[i];
    if s == TokenSpelling(t) && LegalToken(t) {
      SpellingsDiffer(t);
    }
    if |s| > 2 && s[0] == '{' && s[|s| - 1] == '}' {
      assert s == "{" + s[1..|s| - 1] + "}";
      assert s[0] != '*';
    }
  }

  /** The spelling tells which kind of token it is. */
  lemma SpellingsDiffer(t: Token)
    requires LegalToken(t)
    ensures var s := TokenSpelling(t);
            && (s == "*" <==> t == Single) && (s == "**" <==> t == Double)
            && (t.Var? ==> |s| > 2 && s[0] == '{' && s[|s| - 1] == '}' && s[1..|s| - 1] == t.name)
            && (t.Literal? ==> '{' !in s && '}' !in s && '*' !in s)
  {
    assert "*"[0] == '*' && "**"[0] == '*';
  }

  lemma {:induction false} TokensFromInverse(segs: seq<string>, i: nat)
    requires i <= |segs| && TokensFrom(segs, i).Some?
    ensures var ts := TokensFrom(segs, i).value;
            |ts| == |segs| - i && forall j :: i <= j < |segs| ==> TokenAt(segs, j) == Some(ts[j - i])
    decreases |segs| - i
  {
    if i == |segs| {
    } else {
      TokensFromInverse(segs, i + 1);
    }
  }

  /** Exactly which texts are schema patterns, and what they mean: a non-empty text whose
      segments spell legal tokens, with `**` at the end if anywhere. */
  lemma SchemaExactly(src: string, tokens: seq<Token>)
    ensures ParseSchema(src) == Some(tokens) <==>
            && src != "" && Split(src, SEPARATORS) == TokenSpellings(tokens) && TrailingDouble(tokens)
            && forall i :: 0 <= i < |tokens| ==> LegalToken(tokens[i])
  {
    var segs := Split(src, SEPARATORS);
    if ParseSchema(src) == Some(tokens) {
      TokensFromInverse(segs, 0);
      forall i | 0 <= i < |segs|
        ensures segs[i] == TokenSpelling(tokens[i]) && LegalToken(tokens[i]) && (tokens[i] == Double ==> i == |segs| - 1)
      {
        TokenAtExactly(segs, i, tokens[i]);
      }
    }
    if src != "" && segs == TokenSpellings(tokens) && TrailingDouble(tokens)
       && forall i :: 0 <= i < |tokens| ==> LegalToken(tokens[i]) {
      forall i | 0 <= i < |segs| ensures TokenAt(segs, i) == Some(tokens[i]) {
        TokenAtExactly(segs, i, tokens[i]);
      }
      TokensFromPointwise(segs, 0, tokens);
      assert tokens[0..] == tokens;
    }
  }

  /** A placeholder matches like `*`. */
  function SegOf(t: Token): Seg {
    match t
    case Literal(x) => Lit(x)
    case Single => Star
    case Double => DoubleStar
    case Var(_) => Star
  }

  function SegsOf(tokens: seq<Token>): seq<Seg> {
    seq(|tokens|, i requires 0 <= i < |tokens| => SegOf(tokens[i]))
  }

  predicate TrailingDouble(tokens: seq<Token>) {
    forall i :: 0 <= i < |tokens| && tokens[i] == Double ==> i == |tokens| - 1
  }

  /** How many tokens compare or bind one segment each. */
  function FixedLength(tokens: seq<Token>): (n: nat)
    ensures n <= |tokens|
  {
    if tokens != [] && tokens[|tokens| - 1] == Double then |tokens| - 1 else |tokens|
  }

  /** The bindings after the first `i` positions. */
  function Bindings(tokens: seq<Token>, segs: seq<string>, i: nat): map<string, string>
    requires i <= |tokens| && i <= |segs|
  {
    if i == 0 then map[]
    else
      var b := Bindings(tokens, segs, i - 1);
      if tokens[i - 1].Var? then b[tokens[i - 1].name := segs[i - 1]] else b
  }

  predicate FitsToken(t: Token, s: string) {
    t.Literal? ==> t.text == s
  }

  /** Positions before `i` have been matched one for one. */
  predicate PrefixFits(tokens: seq<Token>, segs: seq<string>, i: nat)
    requires i <= |tokens|
  {
    i <= |segs| && forall j :: 0 <= j < i ==> FitsToken(tokens[j], segs[j])
  }

  /** `schema.Pattern.Match`: walks the tokens, filling the bindings. */
  method Match(tokens: seq<Token>, channel: string) returns (r: Option<map<string, string>>)
    requires TrailingDouble(tokens)
    ensures r.Some? <==> Glob(SegsOf(tokens), Split(channel, SEPARATORS))
    ensures r.Some? ==> FixedLength(tokens) <= |Split(channel, SEPARATORS)|
                        && r.value == Bindings(tokens, Split(channel, SEPARATORS), FixedLength(tokens))
  {
    var segs := SplitSegments(channel);
    PositionalGlob(tokens, segs);
    var bindings: map<string, string> := map[];
    var si := 0;
    while si < |tokens|
      invariant 0 <= si <= |tokens|
      invariant si == |tokens| ==> FixedLength(tokens) == |tokens|
      invariant PrefixFits(tokens, segs, si)
      invariant bindings == Bindings(tokens, segs, si)
    {
      if tokens[si] == Double {
        if si >= |segs| { return None; }
        return Some(bindings);
      }
      assert si < FixedLength(tokens);
      if si >= |segs| { return None; }
      if tokens[si].Literal? && segs[si] != tokens[si].text {
        assert !FitsToken(tokens[si], segs[si]);
        return None;
      }
      if tokens[si].Var? {
        bindings := bindings[tokens[si].name := segs[si]];
      }
      si := si + 1;
    }
    if si != |segs| { return None; }
    return Some(bindings);
  }

  /** A placeholder is bound to the segment at its last occurrence, and nothing
      else is bound. */
  lemma {:induction false} BindingMeaning(tokens: seq<Token>, segs: seq<string>, i: nat, v: string)
    requires i <= |tokens| && i <= |segs|
    ensures v in Bindings(tokens, segs, i) <==> exists k :: 0 <= k < i && tokens[k] == Var(v)
    ensures forall k :: 0 <= k < i && tokens[k] == Var(v) && (forall j :: k < j < i ==> tokens[j] != Var(v))
              ==> v in Bindings(tokens, segs, i) && Bindings(tokens, segs, i)[v] == segs[k]
  {
    if i == 0 {
    } else {
      BindingMeaning(tokens, segs, i - 1, v);
      assert tokens[i - 1] == Var(v) ==> v in Bindings(tokens, segs, i);
    }
  }

  /** Glob matching of trailing-`**` tokens, position by position. */
  lemma PositionalGlob(tokens: seq<Token>, segs: seq<string>)
    requires TrailingDouble(tokens)
    ensures Glob(SegsOf(tokens), segs) <==>
            (if FixedLength(tokens) < |tokens| then |segs| >= |tokens| else |segs| == |tokens|)
            && PrefixFits(tokens, segs, FixedLength(tokens))
  {
    var pat := SegsOf(tokens);
    SegsFitPositions(pat, segs);
    var n := FixedLength(tokens);
    assert EndsOpen(pat) <==> n < |tokens|;
    if |segs| >= |tokens| {
      assert forall j :: 0 <= j < |tokens| ==> pat[j] == SegOf(tokens[j]);
      assert forall j :: 0 <= j < |tokens| ==> (Fits(pat[j], segs[j]) <==> FitsToken(tokens[j], segs[j]));
    }
  }

  /** `**` only at the end, whatever the literals are. */
  predicate TrailingStar(pat: seq<Seg>) {
    forall i :: 0 <= i < |pat| && pat[i] == DoubleStar ==> i == |pat| - 1
  }

  predicate EndsOpen(pat: seq<Seg>) {
    pat != [] && pat[|pat| - 1] == DoubleStar
  }

  predicate Fits(seg: Seg, s: string) {
    match seg
    case Lit(t) => s == t
    case Star => true
    case DoubleStar => true
  }

  /** Matching is a length condition plus one comparison per position. */
  lemma {:induction false} SegsFitPositions(pat: seq<Seg>, name: seq<string>)
    requires TrailingStar(pat)
    ensures Glob(pat, name) <==>
            (if EndsOpen(pat) then |name| >= |pat| else |name| == |pat|)
            && forall i :: 0 <= i < |pat| ==> Fits(pat[i], name[i])
    decreases |pat|
  {
    if pat == [] {
    } else {
      if pat[0] == DoubleStar {
        assert pat == [DoubleStar];
        if name != [] {
          assert Glob(pat[1..], name[|name|..]);
        }
      } else {
        assert forall i :: 0 <= i < |pat| - 1 ==> pat[1..][i] == pat[i + 1];
        assert EndsOpen(pat) <==> EndsOpen(pat[1..]);
        if name != [] {
          SegsFitPositions(pat[1..], name[1..]);
          assert forall i :: 0 <= i < |name| - 1 ==> name[1..][i] == name[i + 1];
          if |pat| <= |name| {
            assert (forall i :: 0 <= i < |pat| ==> Fits(pat[i], name[i])) <==>
                   Fits(pat[0], name[0]) && forall i :: 0 <= i < |pat[1..]| ==> Fits(pat[1..][i], name[1..][i]);
          }
        }
      }
    }
  }

  // ---------- the token broker's glob ----------

  predicate SimpleFrom(pSegs: seq<string>, nSegs: seq<string>, i: nat)
    requires i <= |pSegs|
    decreases |pSegs| - i
  {
    if i == |pSegs| then |pSegs| == |nSegs|
    else if pSegs[i] == "**" then i <= |nSegs|
    else i < |nSegs| && (pSegs[i] == "*" || pSegs[i] == nSegs[i]) && SimpleFrom(pSegs, nSegs, i + 1)
  }

  /** `matchSimple`. */
  predicate MatchSimple(pattern: string, name: string) {
    pattern == name || SimpleFrom(Split(pattern, SEPARATORS), Split(name, SEPARATORS), 0)
  }

  /** The loop of `matchSimple` over both texts, cut into segments. */
  method MatchText(pattern: string, name: string) returns (b: bool)
    ensures b == MatchSimple(pattern, name)
  {
    if pattern == name { return true; }
    var pSegs := SplitSegments(pattern);
    var nSegs := SplitSegments(name);
    for i := 0 to |pSegs|
      invariant i <= |nSegs| && SimpleFrom(pSegs, nSegs, 0) == SimpleFrom(pSegs, nSegs, i)
    {
      if pSegs[i] == "**" { return i <= |nSegs|; }
      if i >= |nSegs| { return false; }
      if pSegs[i] == "*" { continue; }
      if pSegs[i] != nSegs[i] { return false; }
    }
    return |pSegs| == |nSegs|;
  }

  /** The same pattern without its trailing `**`. */
  function Closed(pat: seq<Seg>): seq<Seg> {
    if EndsOpen(pat) then pat[..|pat| - 1] else pat
  }

  lemma {:induction false} SimpleScan(pat: seq<Seg>, pSegs: seq<string>, nSegs: seq<string>, i: nat)
    requires WellPlaced(pat) && |pSegs| == |pat| && i <= |pat| && i <= |nSegs|
    requires EndsOpen(pat) ==> i < |pat|
    requires forall j :: 0 <= j < |pat| ==> pSegs[j] == Spelling(pat[j])
    ensures SimpleFrom(pSegs, nSegs, i) <==>
            (if EndsOpen(pat) then |nSegs| >= |pat| - 1 else |nSegs| == |pat|)
            && forall j :: i <= j < |Closed(pat)| ==> Fits(pat[j], nSegs[j])
    decreases |pat| - i
  {
    if i < |pat| && pat[i] != DoubleStar && i < |nSegs| {
      SimpleScan(pat, pSegs, nSegs, i + 1);
      if pat[i].Lit? { ComponentIsNoWildcard(pat[i].text); }
      assert Fits(pat[i], nSegs[i]) <==> (pSegs[i] == "*" || pSegs[i] == nSegs[i]);
    } else if i < |pat| && pat[i].Lit? {
      ComponentIsNoWildcard(pat[i].text);
    }
  }

  // ---------- agreement ----------

  /** The printed form cut at both separators: visibility, then components. */
  lemma SplitPrinted(n: Name)
    requires Canonical(n)
    ensures Split(Print(n), SEPARATORS) == [n.visibility] + Components(n)
  {
    CanonicalComponents(n);
    SplitJoin(Components(n), '.', SEPARATORS);
    SplitPeel(n.visibility, ':', Join(Components(n), '.'), SEPARATORS);
  }

  /** A channel pattern as the other two matchers see it: one more literal
      segment in front, the visibility. */
  function WithVisibility(p: Pattern): seq<Seg> {
    [Lit(p.visibility)] + p.segs
  }

  lemma GlobWithVisibility(p: Pattern, n: Name)
    ensures Glob(WithVisibility(p), [n.visibility] + Components(n)) <==>
            p.visibility == n.visibility && Glob(p.segs, Components(n))
  {
    assert WithVisibility(p)[1..] == p.segs;
    assert ([n.visibility] + Components(n))[1..] == Components(n);
  }

  lemma {:induction false} TokensFromPointwise(segs: seq<string>, i: nat, tokens: seq<Token>)
    requires i <= |segs| && |tokens| == |segs|
    requires forall j :: i <= j < |segs| ==> TokenAt(segs, j) == Some(tokens[j])
    ensures TokensFrom(segs, i) == Some(tokens[i..])
    decreases |segs| - i
  {
    if i == |segs| {
      assert tokens[i..] == [];
    } else {
      TokensFromPointwise(segs, i + 1, tokens);
      assert tokens[i..] == [tokens[i]] + tokens[i + 1..];
    }
  }

  function TokenOf(seg: Seg): Token {
    match seg
    case Lit(t) => Literal(t)
    case Star => Single
    case DoubleStar => Double
  }

  lemma SpelledToken(segs: seq<string>, i: nat, seg: Seg)
    requires i < |segs| && segs[i] == Spelling(seg)
    requires seg.Lit? ==> ValidComponent(seg.text)
    requires seg == DoubleStar ==> i == |segs| - 1
    ensures TokenAt(segs, i) == Some(TokenOf(seg))
  {
    if seg.Lit? {
      var s := seg.text;
      ComponentIsNoWildcard(s);
      assert forall k :: 0 <= k < |s| ==> ComponentChar(s[k]) && s[k] != '{' && s[k] != '}' && s[k] != '*';
    }
  }

  lemma WithVisibilityShape(p: Pattern)
    requires Parsed(p)
    ensures var pat := WithVisibility(p);
            var pSegs := Split(p.raw, SEPARATORS);
            && WellPlaced(pat) && EndsOpen(pat) == EndsOpen(p.segs) && |pSegs| == |pat|
            && forall i :: 0 <= i < |pat| ==> pSegs[i] == Spelling(pat[i])
  {
    ParsedShape(p);
    assert forall i :: 0 < i < |WithVisibility(p)| ==> WithVisibility(p)[i] == p.segs[i - 1];
    assert ValidComponent(p.visibility);
  }

  function TokensOf(pat: seq<Seg>): seq<Token> {
    seq(|pat|, i requires 0 <= i < |pat| => TokenOf(pat[i]))
  }

  lemma TokensOfShape(pat: seq<Seg>)
    requires WellPlaced(pat)
    ensures TrailingDouble(TokensOf(pat)) && SegsOf(TokensOf(pat)) == pat
  {
    assert forall i :: 0 <= i < |pat| ==> SegOf(TokenOf(pat[i])) == pat[i];
  }

  /** Every channel pattern is a schema pattern with the same segments. */
  lemma SchemaReadsChannelPatterns(p: Pattern)
    requires Parsed(p)
    ensures ParseSchema(p.raw) == Some(TokensOf(WithVisibility(p)))
  {
    WithVisibilityShape(p);
    var pat := WithVisibility(p);
    var segs := Split(p.raw, SEPARATORS);
    forall j | 0 <= j < |segs|
      ensures TokenAt(segs, j) == Some(TokensOf(pat)[j])
    {
      SpelledToken(segs, j, pat[j]);
    }
    TokensFromPointwise(segs, 0, TokensOf(pat));
    assert TokensOf(pat)[0..] == TokensOf(pat);
  }

  /** Three matchers, one meaning: on every parsed pattern and parsed name the
      channel matcher and the schema matcher decide the glob, and the broker's
      glob additionally lets the trailing `**` consume nothing. */
  lemma MatchersAgree(p: Pattern, n: Name)
    requires Parsed(p) && Canonical(n)
    ensures ParseSchema(p.raw).Some? && TrailingDouble(ParseSchema(p.raw).value)
    ensures Matches(p, n) <==> Glob(SegsOf(ParseSchema(p.raw).value), Split(Print(n), SEPARATORS))
    ensures Matches(p, n) <==> p.visibility == n.visibility && Glob(p.segs, Components(n))
    ensures MatchSimple(p.raw, Print(n)) <==>
            Matches(p, n)
            || (EndsOpen(p.segs) && p.visibility == n.visibility && Glob(Closed(p.segs), Components(n)))
  {
    SchemaReadsChannelPatterns(p);
    WithVisibilityShape(p);
    TokensOfShape(WithVisibility(p));
    MatchesIsGlob(p, n);
    SplitPrinted(n);
    GlobWithVisibility(p, n);
    BrokerGlob(p, n);
  }

  /** One segment short, an open pattern matches as if it were closed. */
  lemma OpenMayStayEmpty(pat: seq<Seg>, name: seq<string>)
    requires TrailingStar(pat) && EndsOpen(pat)
    ensures |name| >= |pat| - 1 && (forall j :: 0 <= j < |pat| - 1 ==> Fits(pat[j], name[j])) <==>
            Glob(pat, name) || Glob(Closed(pat), name)
  {
    var k := |pat| - 1;
    assert pat[k] == DoubleStar && !EndsOpen(Closed(pat));
    assert forall j :: 0 <= j < k ==> Closed(pat)[j] == pat[j];
    SegsFitPositions(pat, name);
    SegsFitPositions(Closed(pat), name);
    if |name| == k {
      assert Glob(Closed(pat), name) <==> forall j :: 0 <= j < k ==> Fits(pat[j], name[j]);
    } else if |name| > k {
      assert Fits(pat[k], name[k]);
      assert Glob(pat, name) <==> forall j :: 0 <= j < k ==> Fits(pat[j], name[j]);
    }
  }

  lemma BrokerGlob(p: Pattern, n: Name)
    requires Parsed(p) && Canonical(n)
    ensures MatchSimple(p.raw, Print(n)) <==>
            p.visibility == n.visibility
            && (Glob(p.segs, Components(n)) || (EndsOpen(p.segs) && Glob(Closed(p.segs), Components(n))))
  {
    var pat := WithVisibility(p);
    var nSegs := [n.visibility] + Components(n);
    WithVisibilityShape(p);
    SplitPrinted(n);
    SameTextMatches(p, n);
    SimpleScan(pat, Split(p.raw, SEPARATORS), nSegs, 0);
    GlobWithVisibility(p, n);
    if EndsOpen(pat) {
      OpenMayStayEmpty(pat, nSegs);
      var q := p.(segs := Closed(p.segs));
      GlobWithVisibility(q, n);
      assert WithVisibility(q) == Closed(pat);
    } else {
      SegsFitPositions(pat, nSegs);
    }
  }

  /** The shortcut `pattern == name` never decides anything the scan would not. */
  lemma SameTextMatches(p: Pattern, n: Name)
    requires Parsed(p) && Canonical(n)
    ensures p.raw == Print(n) ==> SimpleFrom(Split(p.raw, SEPARATORS), Split(Print(n), SEPARATORS), 0)
  {
    if p.raw == Print(n) {
      EqualSegmentsMatch(Split(p.raw, SEPARATORS), 0);
    }
  }

  lemma {:induction false} EqualSegmentsMatch(segs: seq<string>, i: nat)
    requires i <= |segs|
    ensures SimpleFrom(segs, segs, i)
    decreases |segs| - i
  {
    if i == |segs| {
    } else {
      EqualSegmentsMatch(segs, i + 1);
    }
  }

  /** The pattern spelled like `n` with `.**` appended. */
  function Below(n: Name): Pattern {
    var cs := Components(n);
    var segs := seq(|cs|, i requires 0 <= i < |cs| => Lit(cs[i])) + [DoubleStar];
    Pattern(n.visibility + ":" + Join(Spellings(segs), '.'), n.visibility, segs)
  }

  /** The matchers do part ways, at every name `n`: the broker lets `n.**` match
      `n` itself, the channel matcher does not. */
  lemma BrokerDoubleStarMayBeEmpty(n: Name)
    requires Canonical(n)
    ensures Parsed(Below(n)) && MatchSimple(Below(n).raw, Print(n)) && !Matches(Below(n), n)
  {
    var p := Below(n);
    CanonicalComponents(n);
    SpellThenParse(n.visibility, p.segs);
    BrokerGlob(p, n);
    MatchesIsGlob(p, n);
    SegsFitPositions(p.segs, Components(n));
    SegsFitPositions(Closed(p.segs), Components(n));
  }
}

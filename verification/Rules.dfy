/** Per-channel rule tables and schema resolution: two rankers, one winner. */
module Rules {
  import opened Text
  import opened Names
  import opened Patterns
  import opened Matchers
  import opened Specificity
  import opened Times
  import opened Limits
  import opened Sorting

  datatype Rule = Rule(pattern: Pattern, raw: string, limit: Limit)

  // ---------- ranking ----------

  function SpellingPoints(s: string): nat {
    if s == "**" then 0 else if s == "*" then 1 else 4
  }

  function SpellingScore(parts: seq<string>): nat {
    if parts == [] then 0
    else SpellingScore(parts[..|parts| - 1]) + SpellingPoints(parts[|parts| - 1])
  }

  /** `ruleSpecificity` scores the source text, visibility included. */
  function RuleSpecificity(p: Pattern): nat {
    SpellingScore(Split(p.raw, SEPARATORS))
  }

  /** The accumulating loop of `ruleSpecificity`. */
  method ScoreRule(p: Pattern) returns (score: nat)
    ensures score == RuleSpecificity(p)
  {
    var parts := SplitSegments(p.raw);
    score := 0;
    for i := 0 to |parts|
      invariant score == SpellingScore(parts[..i])
    {
      assert parts[..i + 1][..i] == parts[..i];
      if parts[i] == "**" {
      } else if parts[i] == "*" {
        score := score + 1;
      } else {
        score := score + 4;
      }
    }
    assert parts[..|parts|] == parts;
  }

  function TokenPoints(t: Token): nat {
    match t
    case Literal(_) => 4
    case Var(_) => 2
    case Single => 1
    case Double => 0
  }

  /** `patternSpecificity` of the schema registry. */
  function TokenScore(tokens: seq<Token>): nat {
    if tokens == [] then 0
    else TokenScore(tokens[..|tokens| - 1]) + TokenPoints(tokens[|tokens| - 1])
  }

  lemma {:induction false} SpellingScoreIsScore(pat: seq<Seg>)
    requires forall i :: 0 <= i < |pat| && pat[i].Lit? ==> ValidComponent(pat[i].text)
    ensures SpellingScore(Spellings(pat)) == Score(pat)
    ensures TokenScore(TokensOf(pat)) == Score(pat)
  {
    if pat == [] {
    } else {
      var k := |pat| - 1;
      SpellingScoreIsScore(pat[..k]);
      assert Spellings(pat)[..k] == Spellings(pat[..k]);
      assert TokensOf(pat)[..k] == TokensOf(pat[..k]);
      if pat[k].Lit? { ComponentIsNoWildcard(pat[k].text); }
    }
  }

  lemma {:induction false} ScoreConcat(a: seq<Seg>, b: seq<Seg>)
    ensures Score(a + b) == Score(a) + Score(b)
  {
    if b == [] {
      assert a + b == a;
    } else {
      var k := |b| - 1;
      ScoreConcat(a, b[..k]);
      assert (a + b)[..|a + b| - 1] == a + b[..k];
    }
  }

  /** The two rankers agree on every channel pattern, and both rank by the
      segment score (the visibility counts as one more literal). */
  lemma RankersAgree(p: Pattern)
    requires Parsed(p)
    ensures RuleSpecificity(p) == 4 + Score(p.segs)
    ensures ParseSchema(p.raw).Some? && TokenScore(ParseSchema(p.raw).value) == RuleSpecificity(p)
  {
    WithVisibilityShape(p);
    SchemaReadsChannelPatterns(p);
    var pat := WithVisibility(p);
    assert Split(p.raw, SEPARATORS) == Spellings(pat);
    SpellingScoreIsScore(pat);
    ScoreConcat([Lit(p.visibility)], p.segs);
    assert Score([Lit(p.visibility)]) == 4;
  }

  /** The accumulating loop of `patternSpecificity`. */
  method ScoreTokens(tokens: seq<Token>) returns (score: nat)
    ensures score == TokenScore(tokens)
  {
    score := 0;
    for i := 0 to |tokens|
      invariant score == TokenScore(tokens[..i])
    {
      assert tokens[..i + 1][..i] == tokens[..i];
      match tokens[i] {
        case Literal(_) => score := score + 4;
        case Var(_) => score := score + 2;
        case Single => score := score + 1;
        case Double =>
      }
    }
    assert tokens[..|tokens|] == tokens;
  }

  // ---------- what the ranking means ----------

  predicate IsLiteral(t: Token) { t.Literal? }
  predicate IsPlaceholder(t: Token) { t.Var? }
  predicate IsStar(t: Token) { t.Single? }

  /** The positions of the tokens of one kind. */
  ghost function Where(tokens: seq<Token>, kind: Token -> bool): set<nat> {
    set i: nat | i < |tokens| && kind(tokens[i])
  }

  ghost function Literals(tokens: seq<Token>): nat { |Where(tokens, IsLiteral)| }
  ghost function Placeholders(tokens: seq<Token>): nat { |Where(tokens, IsPlaceholder)| }
  ghost function Stars(tokens: seq<Token>): nat { |Where(tokens, IsStar)| }

  lemma WhereGrows(tokens: seq<Token>, kind: Token -> bool)
    requires tokens != []
    ensures var k := |tokens| - 1;
            |Where(tokens, kind)| == |Where(tokens[..k], kind)| + (if kind(tokens[k]) then 1 else 0)
  {
    var k := |tokens| - 1;
    if kind(tokens[k]) {
      assert Where(tokens, kind) == Where(tokens[..k], kind) + {k};
    } else {
      assert Where(tokens, kind) == Where(tokens[..k], kind);
    }
  }

  lemma OneMoreToken(tokens: seq<Token>)
    requires tokens != []
    ensures var before, t := tokens[..|tokens| - 1], tokens[|tokens| - 1];
            && Literals(tokens) == Literals(before) + (if t.Literal? then 1 else 0)
            && Placeholders(tokens) == Placeholders(before) + (if t.Var? then 1 else 0)
            && Stars(tokens) == Stars(before) + (if t.Single? then 1 else 0)
  {
    WhereGrows(tokens, IsLiteral);
    WhereGrows(tokens, IsPlaceholder);
    WhereGrows(tokens, IsStar);
  }

  /** Four points a literal, two a placeholder, one a star. */
  lemma {:induction false} ScoreCounts(tokens: seq<Token>)
    ensures TokenScore(tokens) == 4 * Literals(tokens) + 2 * Placeholders(tokens) + Stars(tokens)
  {
    if tokens == [] {
    } else {
      ScoreCounts(tokens[..|tokens| - 1]);
      OneMoreToken(tokens);
    }
  }

  lemma {:induction false} CountsAll(tokens: seq<Token>)
    requires Double !in tokens
    ensures Literals(tokens) + Placeholders(tokens) + Stars(tokens) == |tokens|
  {
    if tokens == [] {
    } else {
      CountsAll(tokens[..|tokens| - 1]);
      OneMoreToken(tokens);
    }
  }

  /** "The most literal tokens wins" fails with placeholders. Between two patterns of one
      length without `**`, the one with more literals scores higher if and only if the
      other has fewer than three placeholders more for each literal less. */
  lemma MoreLiteralsScoreHigherExactlyWhen(a: seq<Token>, b: seq<Token>)
    requires |a| == |b| && Double !in a && Double !in b
    ensures TokenScore(a) > TokenScore(b) <==>
            Placeholders(b) - Placeholders(a) < 3 * (Literals(a) - Literals(b))
  {
    ScoreCounts(a);
    ScoreCounts(b);
    CountsAll(a);
    CountsAll(b);
  }

  /** How much a token leaves open: literal, placeholder, `*`, `**`. */
  function Openness(t: Token): nat {
    match t
    case Literal(_) => 0
    case Var(_) => 1
    case Single => 2
    case Double => 3
  }

  /** Position by position, `a` has the same token as `b` or a less open one. */
  ghost predicate AtMostAsOpen(a: seq<Token>, b: seq<Token>) {
    |a| == |b| && forall i :: 0 <= i < |a| ==> a[i] == b[i] || Openness(a[i]) < Openness(b[i])
  }

  lemma {:induction false} LessOpenScoresHigher(a: seq<Token>, b: seq<Token>)
    requires AtMostAsOpen(a, b)
    ensures TokenScore(a) >= TokenScore(b) && (a != b ==> TokenScore(a) > TokenScore(b))
  {
    if a == [] {
    } else {
      var k := |a| - 1;
      LessOpenScoresHigher(a[..k], b[..k]);
      assert TokenPoints(a[k]) >= TokenPoints(b[k]);
      if a[..k] == b[..k] && a[k] == b[k] {
        assert a == a[..k] + [a[k]];
      }
    }
  }

  // ---------- rule tables ----------

  predicate RuleBefore(a: Rule, b: Rule) {
    var sa, sb := RuleSpecificity(a.pattern), RuleSpecificity(b.pattern);
    sa > sb || (sa == sb && Less(a.raw, b.raw))
  }

  ghost predicate AllParse(raw: map<string, Limit>) {
    forall k :: k in raw ==> ParsePattern(k).Ok?
  }

  ghost function RuleFor(raw: map<string, Limit>, k: string): Rule
    requires k in raw && ParsePattern(k).Ok?
  {
    Rule(ParsePattern(k).value, k, Normalize(raw[k]))
  }

  /** Exactly one rule per entry, most specific first. */
  ghost predicate CompiledFrom(rules: seq<Rule>, raw: map<string, Limit>)
    requires AllParse(raw)
  {
    && Sorted(rules, RuleBefore)
    && (forall r :: r in rules ==> r.raw in raw && r == RuleFor(raw, r.raw))
    && (forall k :: k in raw ==> RuleFor(raw, k) in rules)
  }

  lemma RuleOrder(rules: set<Rule>)
    requires forall a, b :: a in rules && b in rules && a.raw == b.raw ==> a == b
    ensures StrictOrder(rules, RuleBefore)
  {
    forall a | a in rules ensures !RuleBefore(a, a) {
      LessTotal(a.raw, a.raw);
    }
    forall a, b | a in rules && b in rules && a != b ensures RuleBefore(a, b) != RuleBefore(b, a) {
      LessTotal(a.raw, b.raw);
    }
    forall a, b, c | a in rules && b in rules && c in rules && RuleBefore(a, b) && RuleBefore(b, c)
      ensures RuleBefore(a, c)
    {
      if Less(a.raw, b.raw) && Less(b.raw, c.raw) {
        LessTransitive(a.raw, b.raw, c.raw);
      }
    }
  }

  /** `CompileChannelRules`: parse every entry in whatever order the map yields
      them, then sort. Fails exactly when some pattern does not parse. */
  method CompileChannelRules(raw: map<string, Limit>) returns (r: Result<seq<Rule>, PatternError>)
    ensures r.Ok? <==> AllParse(raw)
    ensures r.Ok? ==> CompiledFrom(r.value, raw)
  {
    var out: seq<Rule> := [];
    var todo := raw.Keys;
    while todo != {}
      invariant todo <= raw.Keys && RulesSoFar(out, raw, todo)
    {
      var k :| k in todo;
      var p := ParsePattern(k);
      if p.Err? { return Err(p.error); }
      RuleAdded(out, raw, todo, k);
      out := out + [Rule(p.value, k, Normalize(raw[k]))];
      todo := todo - {k};
    }
    RuleOrder(Elements(out));
    var sorted := Sort(out, RuleBefore);
    SortedCompiles(out, sorted, raw);
    return Ok(sorted);
  }

  lemma SortedCompiles(out: seq<Rule>, sorted: seq<Rule>, raw: map<string, Limit>)
    requires RulesSoFar(out, raw, {}) && Sorted(sorted, RuleBefore) && Elements(sorted) == Elements(out)
    ensures AllParse(raw) && CompiledFrom(sorted, raw)
  {
    assert forall q :: q in sorted <==> q in Elements(out);
  }

  /** Every entry outside `todo` parses and has its rule, once. */
  ghost predicate RulesSoFar(out: seq<Rule>, raw: map<string, Limit>, todo: set<string>) {
    && (forall k :: k in raw && k !in todo ==> ParsePattern(k).Ok? && RuleFor(raw, k) in out)
    && (forall q :: q in out ==> q.raw in raw && q.raw !in todo && ParsePattern(q.raw).Ok? && q == RuleFor(raw, q.raw))
    && Distinct(out)
  }

  lemma RuleAdded(out: seq<Rule>, raw: map<string, Limit>, todo: set<string>, k: string)
    requires RulesSoFar(out, raw, todo) && k in todo && k in raw && ParsePattern(k).Ok?
    ensures RulesSoFar(out + [RuleFor(raw, k)], raw, todo - {k})
  {
    assert forall q :: q in out ==> q.raw != k;
  }

  /** A negative rate compiles, contrary to its documentation, and limits nothing. */
  lemma NegativeRateCompiles(rules: seq<Rule>, raw: map<string, Limit>, k: string)
    requires AllParse(raw) && CompiledFrom(rules, raw) && k in raw && raw[k].rate < 0
    ensures exists q :: q in rules && q.raw == k && Unlimited(q.limit)
  {
    NegativeRateIsUnlimited(raw[k].rate, raw[k].per, raw[k].burst);
    assert RuleFor(raw, k) in rules;
  }

  /** A positive rate compiles to itself, with the window and the burst filled in. */
  lemma PositiveRateCompiles(rules: seq<Rule>, raw: map<string, Limit>, k: string)
    requires AllParse(raw) && CompiledFrom(rules, raw) && k in raw && raw[k].rate > 0
    ensures exists q :: q in rules && q.raw == k
              && q.limit == Limit(raw[k].rate, if raw[k].per > 0 then raw[k].per else SECOND,
                                  if raw[k].burst > raw[k].rate then raw[k].burst else raw[k].rate)
  {
    LimitMeans(raw[k]);
    assert RuleFor(raw, k) in rules;
  }

  /** The table does not depend on map iteration order. */
  lemma TableUnique(a: seq<Rule>, b: seq<Rule>, raw: map<string, Limit>)
    requires AllParse(raw) && CompiledFrom(a, raw) && CompiledFrom(b, raw)
    ensures a == b
  {
    assert forall r :: r in a ==> r in b;
    assert forall r :: r in b ==> r in a;
    assert Elements(a) == Elements(b);
    RuleOrder(Elements(a));
    SortedUnique(a, b, RuleBefore);
  }

  /** `r` matches and outranks every other matching rule. */
  ghost predicate Wins(r: Rule, rules: seq<Rule>, n: Name) {
    && r in rules && Matches(r.pattern, n)
    && forall q :: q in rules && Matches(q.pattern, n) ==> q == r || RuleBefore(r, q)
  }

  /** `MatchPublish` (and `MatchSubscribe`): the first match is the winner. */
  method MatchRule(rules: seq<Rule>, fallback: Limit, n: Name) returns (limit: Limit, raw: string)
    requires Sorted(rules, RuleBefore)
    ensures (exists r :: r in rules && Matches(r.pattern, n)) ==>
              exists r :: Wins(r, rules, n) && limit == r.limit && raw == r.raw
    ensures (forall r :: r in rules ==> !Matches(r.pattern, n)) ==> limit == fallback && raw == ""
  {
    for i := 0 to |rules|
      invariant forall j :: 0 <= j < i ==> !Matches(rules[j].pattern, n)
    {
      if Matches(rules[i].pattern, n) {
        assert forall j :: i < j < |rules| ==> RuleBefore(rules[i], rules[j]);
        assert Wins(rules[i], rules, n);
        return rules[i].limit, rules[i].raw;
      }
    }
    return fallback, "";
  }

  /** The winning rule never shadows a strictly narrower rule that also matches. */
  lemma NoShadowing(rules: seq<Rule>, n: Name, winner: Rule, other: Rule)
    requires Parsed(winner.pattern) && Parsed(other.pattern) && Canonical(n)
    requires Wins(winner, rules, n) && other in rules && Matches(other.pattern, n)
    ensures !StrictlyNarrower(other.pattern, winner.pattern)
  {
    RankersAgree(winner.pattern);
    RankersAgree(other.pattern);
    if StrictlyNarrower(other.pattern, winner.pattern) {
      NarrowerPatternScoresHigher(other.pattern, winner.pattern, n);
    }
  }

  // ---------- schema registry ----------

  datatype ChannelPattern = ChannelPattern(pattern: string, version: int, compiled: seq<Token>)

  datatype Candidate = Candidate(p: ChannelPattern, bindings: map<string, string>, specificity: nat)

  predicate CandidateBefore(a: Candidate, b: Candidate) {
    a.specificity > b.specificity || (a.specificity == b.specificity && Less(a.p.pattern, b.p.pattern))
  }

  predicate TextMatches(tokens: seq<Token>, channel: string) {
    Glob(SegsOf(tokens), Split(channel, SEPARATORS))
  }

  /** `b` holds the placeholder values of a match. */
  ghost predicate Bound(tokens: seq<Token>, channel: string, b: map<string, string>) {
    var segs := Split(channel, SEPARATORS);
    FixedLength(tokens) <= |segs| && b == Bindings(tokens, segs, FixedLength(tokens))
  }

  /** Registration `k` matches and outranks every other matching registration. */
  ghost predicate Owns(k: string, patterns: map<string, ChannelPattern>, channel: string) {
    && k in patterns && TextMatches(patterns[k].compiled, channel)
    && forall j :: j in patterns && TextMatches(patterns[j].compiled, channel) && j != k ==>
         var sk, sj := TokenScore(patterns[k].compiled), TokenScore(patterns[j].compiled);
         sk > sj || (sk == sj && Less(k, j))
  }

  lemma CandidateOrder(cs: set<Candidate>)
    requires forall a, b :: a in cs && b in cs && a.p.pattern == b.p.pattern ==> a == b
    ensures StrictOrder(cs, CandidateBefore)
  {
    forall a | a in cs ensures !CandidateBefore(a, a) {
      LessTotal(a.p.pattern, a.p.pattern);
    }
    forall a, b | a in cs && b in cs && a != b ensures CandidateBefore(a, b) != CandidateBefore(b, a) {
      LessTotal(a.p.pattern, b.p.pattern);
    }
    forall a, b, c | a in cs && b in cs && c in cs && CandidateBefore(a, b) && CandidateBefore(b, c)
      ensures CandidateBefore(a, c)
    {
      if Less(a.p.pattern, b.p.pattern) && Less(b.p.pattern, c.p.pattern) {
        LessTransitive(a.p.pattern, b.p.pattern, c.p.pattern);
      }
    }
  }

  /** A registration as subscribers see it. */
  datatype Change = Registered(schema: ChannelPattern, at: int)

  /** How many changes wait for a subscriber before further ones are dropped. */
  const BACKLOG := 64

  /** `c` offered to the subscribers in `ids`: queued, or dropped where the queue is full. */
  function Offered(subs: map<nat, seq<Change>>, ids: set<nat>, c: Change): map<nat, seq<Change>> {
    map k | k in subs :: if k in ids && |subs[k]| < BACKLOG then subs[k] + [c] else subs[k]
  }

  class MemoryRegistry {
    var patterns: map<string, ChannelPattern>
    /** Every registration's definitions so far, oldest first. */
    var versions: map<string, seq<ChannelPattern>>
    /** What each subscriber has not received yet. */
    var subscribers: map<nat, seq<Change>>
    var nextSub: nat

    ghost predicate Valid()
      reads this
    {
      && (forall k :: k in patterns ==> patterns[k].pattern == k && ParseSchema(k) == Some(patterns[k].compiled))
      && (forall k :: k in subscribers ==> k < nextSub && |subscribers[k]| <= BACKLOG)
    }

    constructor ()
      ensures Valid() && patterns == map[] && versions == map[] && subscribers == map[]
    {
      patterns := map[];
      versions := map[];
      subscribers := map[];
      nextSub := 0;
    }

    /** A queue of its own, starting empty. */
    method Subscribe() returns (id: nat)
      requires Valid()
      modifies `subscribers, `nextSub
      ensures Valid()
      ensures id !in old(subscribers) && subscribers == old(subscribers)[id := []]
    {
      id := nextSub;
      nextSub := nextSub + 1;
      subscribers := subscribers[id := []];
    }

    /** Offers the change to every subscriber, in map order. */
    method Broadcast(c: Change)
      requires Valid()
      modifies `subscribers
      ensures Valid()
      ensures subscribers == Offered(old(subscribers), old(subscribers).Keys, c)
    {
      var todo := subscribers.Keys;
      ghost var done: set<nat> := {};
      while todo != {}
        invariant done + todo == old(subscribers).Keys && done !! todo
        invariant subscribers == Offered(old(subscribers), done, c)
      {
        var k :| k in todo;
        if |subscribers[k]| < BACKLOG {
          subscribers := subscribers[k := subscribers[k] + [c]];
        }
        todo := todo - {k};
        done := done + {k};
      }
      assert done == old(subscribers).Keys;
    }

    /** Adds a new pattern and tells the subscribers; refuses one that does not compile
        or already exists. */
    method Register(pattern: string, version: int, at: int) returns (ok: bool)
      requires Valid()
      modifies this
      ensures Valid()
      ensures ok <==> ParseSchema(pattern).Some? && pattern !in old(patterns)
      ensures !ok ==> patterns == old(patterns) && versions == old(versions) && subscribers == old(subscribers)
      ensures ok ==> patterns == old(patterns)[pattern :=
                ChannelPattern(pattern, if version == 0 then 1 else version, ParseSchema(pattern).value)]
      ensures ok ==> versions == old(versions)[pattern := [patterns[pattern]]]
      ensures ok ==> subscribers == Offered(old(subscribers), old(subscribers).Keys, Registered(patterns[pattern], at))
    {
      var compiled := CompileSchema(pattern);
      if compiled.None? || pattern in patterns { return false; }
      var p := ChannelPattern(pattern, if version == 0 then 1 else version, compiled.value);
      patterns := patterns[pattern := p];
      versions := versions[pattern := [p]];
      Broadcast(Registered(p, at));
      return true;
    }

    /** Collects every match in map order, sorts, and returns the first. */
    method Resolve(channel: string) returns (r: Option<(ChannelPattern, map<string, string>)>)
      requires Valid()
      ensures r.None? <==> forall k :: k in patterns ==> !TextMatches(patterns[k].compiled, channel)
      ensures r.Some? ==> r.value.0.pattern in patterns && r.value.0 == patterns[r.value.0.pattern]
      ensures r.Some? ==> Owns(r.value.0.pattern, patterns, channel)
      ensures r.Some? ==> Bound(r.value.0.compiled, channel, r.value.1)
    {
      var matches: seq<Candidate> := [];
      var todo := patterns.Keys;
      while todo != {}
        invariant todo <= patterns.Keys && Collected(matches, patterns, todo, channel)
      {
        var k :| k in todo;
        var p := patterns[k];
        SchemaExactly(k, p.compiled);
        var b := Match(p.compiled, channel);
        if b.Some? {
          var specificity := ScoreTokens(p.compiled);
          var c := Candidate(p, b.value, specificity);
          CollectHit(matches, c, patterns, todo, channel);
          matches := matches + [c];
        } else {
          CollectMiss(matches, k, patterns, todo, channel);
        }
        todo := todo - {k};
      }
      if matches == [] { return None; }
      CandidateOrder(Elements(matches));
      var sorted := Sort(matches, CandidateBefore);
      FirstOwns(matches, sorted, patterns, channel);
      return Some((sorted[0].p, sorted[0].bindings));
    }
  }

  /** `c` is the match of the registration it names. */
  ghost predicate MatchOf(c: Candidate, patterns: map<string, ChannelPattern>, channel: string) {
    && c.p.pattern in patterns && c.p == patterns[c.p.pattern] && c.specificity == TokenScore(c.p.compiled)
    && TextMatches(c.p.compiled, channel) && Bound(c.p.compiled, channel, c.bindings)
  }

  ghost predicate Lists(matches: seq<Candidate>, k: string) {
    exists i :: 0 <= i < |matches| && matches[i].p.pattern == k
  }

  /** One candidate for every matching registration outside `todo`, and no others. */
  ghost predicate Collected(matches: seq<Candidate>, patterns: map<string, ChannelPattern>, todo: set<string>,
                            channel: string) {
    && (forall i :: 0 <= i < |matches| ==> MatchOf(matches[i], patterns, channel) && matches[i].p.pattern !in todo)
    && (forall k :: k in patterns && k !in todo && TextMatches(patterns[k].compiled, channel) ==> Lists(matches, k))
    && (forall i, j :: 0 <= i < j < |matches| ==> matches[i].p.pattern != matches[j].p.pattern)
  }

  lemma CollectHit(matches: seq<Candidate>, c: Candidate, patterns: map<string, ChannelPattern>, todo: set<string>,
                   channel: string)
    requires Collected(matches, patterns, todo, channel) && MatchOf(c, patterns, channel) && c.p.pattern in todo
    ensures Collected(matches + [c], patterns, todo - {c.p.pattern}, channel)
  {
    var more := matches + [c];
    forall k | k in patterns && k !in todo - {c.p.pattern} && TextMatches(patterns[k].compiled, channel)
      ensures Lists(more, k)
    {
      if k == c.p.pattern {
        assert more[|matches|] == c;
      } else {
        var i :| 0 <= i < |matches| && matches[i].p.pattern == k;
        assert more[i] == matches[i];
      }
    }
  }

  lemma CollectMiss(matches: seq<Candidate>, k: string, patterns: map<string, ChannelPattern>, todo: set<string>,
                    channel: string)
    requires Collected(matches, patterns, todo, channel)
    requires k in patterns && !TextMatches(patterns[k].compiled, channel)
    ensures Collected(matches, patterns, todo - {k}, channel)
  {
  }

  /** The head of the sorted candidates owns the channel. */
  lemma FirstOwns(matches: seq<Candidate>, sorted: seq<Candidate>, patterns: map<string, ChannelPattern>, channel: string)
    requires Collected(matches, patterns, {}, channel) && matches != []
    requires Sorted(sorted, CandidateBefore) && Elements(sorted) == Elements(matches)
    ensures sorted != [] && MatchOf(sorted[0], patterns, channel) && Owns(sorted[0].p.pattern, patterns, channel)
  {
    assert matches[0] in Elements(sorted);
    assert sorted[0] in Elements(matches);
    var first := sorted[0].p.pattern;
    forall k | k in patterns && TextMatches(patterns[k].compiled, channel) && k != first
      ensures var sf, sk := TokenScore(patterns[first].compiled), TokenScore(patterns[k].compiled);
              sf > sk || (sf == sk && Less(first, k))
    {
      assert Lists(matches, k);
      var i :| 0 <= i < |matches| && matches[i].p.pattern == k;
      assert matches[i] in Elements(sorted);
      var j :| 0 <= j < |sorted| && sorted[j] == matches[i];
      assert CandidateBefore(sorted[0], sorted[j]);
    }
  }

  /** A registration never owns a channel that a less open one matches too. */
  lemma LessOpenIsNotShadowed(patterns: map<string, ChannelPattern>, channel: string, j: string, k: string)
    requires j in patterns && k in patterns && TextMatches(patterns[j].compiled, channel)
    requires AtMostAsOpen(patterns[j].compiled, patterns[k].compiled) && patterns[j].compiled != patterns[k].compiled
    ensures !Owns(k, patterns, channel)
  {
    LessOpenScoresHigher(patterns[j].compiled, patterns[k].compiled);
  }

  lemma PlaceholdersOutscore(vis: string, a: string, w: string, x: string, y: string, z: string)
    ensures TokenScore([Literal(vis), Literal(a), Single, Single, Single]) == 11
    ensures TokenScore([Literal(vis), Var(w), Var(x), Var(y), Var(z)]) == 12
  {
    FiveTokens(Literal(vis), Literal(a), Single, Single, Single);
    FiveTokens(Literal(vis), Var(w), Var(x), Var(y), Var(z));
  }

  lemma FiveTokens(a: Token, b: Token, c: Token, d: Token, e: Token)
    ensures TokenScore([a, b, c, d, e]) ==
            TokenPoints(a) + TokenPoints(b) + TokenPoints(c) + TokenPoints(d) + TokenPoints(e)
  {
    assert [a, b, c, d, e][..4] == [a, b, c, d] && [a, b, c, d][..3] == [a, b, c];
    assert [a, b, c][..2] == [a, b] && [a, b][..1] == [a] && [a][..0] == [];
    assert TokenScore([a]) == TokenScore([]) + TokenPoints(a);
    assert TokenScore([a, b]) == TokenScore([a]) + TokenPoints(b);
    assert TokenScore([a, b, c, d]) == TokenScore([a, b, c]) + TokenPoints(d);
  }

  /** Placeholders can outweigh a literal: `a.*.*.*` loses every channel it matches to the
      strictly wider `{w}.{x}.{y}.{z}`. */
  lemma NarrowerLosesToPlaceholders(patterns: map<string, ChannelPattern>, channel: string, j: string, k: string,
                                    vis: string, a: string, w: string, x: string, y: string, z: string)
    requires j in patterns && patterns[j].compiled == [Literal(vis), Literal(a), Single, Single, Single]
    requires k in patterns && patterns[k].compiled == [Literal(vis), Var(w), Var(x), Var(y), Var(z)]
    ensures TextMatches(patterns[j].compiled, channel) ==> TextMatches(patterns[k].compiled, channel)
    ensures !Owns(j, patterns, channel)
  {
    var narrow, wide := patterns[j].compiled, patterns[k].compiled;
    var segs := Split(channel, SEPARATORS);
    PositionalGlob(narrow, segs);
    PositionalGlob(wide, segs);
    PlaceholdersOutscore(vis, a, w, x, y, z);
    if TextMatches(narrow, channel) {
      assert FitsToken(narrow[0], segs[0]);
    }
  }

  /** One pattern, seen by both resolvers. */
  lemma SamePattern(k: string, tokens: seq<Token>, n: Name)
    requires ParsePattern(k).Ok? && ParseSchema(k) == Some(tokens) && Canonical(n)
    ensures Matches(ParsePattern(k).value, n) <==> TextMatches(tokens, Print(n))
    ensures TokenScore(tokens) == RuleSpecificity(ParsePattern(k).value)
  {
    var p := ParsePattern(k).value;
    assert p.raw == k;
    MatchersAgree(p, n);
    RankersAgree(p);
  }

  /** Over the same set of channel patterns, publish-rule resolution and schema
      resolution pick the same winner for every parsed name. */
  lemma SameWinner(raw: map<string, Limit>, rules: seq<Rule>, patterns: map<string, ChannelPattern>,
                   n: Name, rule: Rule, k: string)
    requires AllParse(raw) && CompiledFrom(rules, raw) && Canonical(n)
    requires patterns.Keys == raw.Keys
    requires forall j :: j in patterns ==> ParseSchema(j) == Some(patterns[j].compiled)
    requires Wins(rule, rules, n) && Owns(k, patterns, Print(n))
    ensures rule.raw == k
  {
    SamePattern(k, patterns[k].compiled, n);
    SamePattern(rule.raw, patterns[rule.raw].compiled, n);
    LessTotal(rule.raw, k);
    assert RuleFor(raw, k) in rules && rule == RuleFor(raw, rule.raw);
  }

  /** One side finds a match exactly when the other does. */
  lemma SameMatches(raw: map<string, Limit>, rules: seq<Rule>, patterns: map<string, ChannelPattern>, n: Name)
    requires AllParse(raw) && CompiledFrom(rules, raw) && Canonical(n)
    requires patterns.Keys == raw.Keys
    requires forall j :: j in patterns ==> ParseSchema(j) == Some(patterns[j].compiled)
    ensures (exists r :: r in rules && Matches(r.pattern, n)) <==>
            (exists j :: j in patterns && TextMatches(patterns[j].compiled, Print(n)))
  {
    forall j | j in raw ensures Matches(RuleFor(raw, j).pattern, n) <==> TextMatches(patterns[j].compiled, Print(n)) {
      SamePattern(j, patterns[j].compiled, n);
    }
  }
}

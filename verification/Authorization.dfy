/** Scope grants with a sticky compile cache, and deny-wins evaluation. */
module Authorization {
  import opened Text
  import opened Names
  import opened Patterns

  type Verb = string

  /** What a scope says, without its cache. */
  datatype Grant = Grant(pattern: string, verbs: seq<Verb>, deny: bool)

  /** The scope's pattern compiles, matches the name, and lists the verb. */
  predicate Covers(g: Grant, n: Name, v: Verb) {
    ParsePattern(g.pattern).Ok? && Matches(ParsePattern(g.pattern).value, n) && v in g.verbs
  }

  class Scope {
    const pattern: string
    const verbs: seq<Verb>
    const deny: bool
    var compiled: Pattern
    var compiledOK: bool
    var compileErr: Option<PatternError>

    /** The cache is empty, or holds what parsing would give. */
    ghost predicate Valid()
      reads this
    {
      && (compiledOK ==> ParsePattern(pattern) == Ok(compiled))
      && (compileErr.Some? ==> ParsePattern(pattern) == Err(compileErr.value))
    }

    constructor (pattern: string, verbs: seq<Verb>, deny: bool)
      ensures Valid() && this.pattern == pattern && this.verbs == verbs && this.deny == deny
      ensures !compiledOK && compileErr == None
    {
      this.pattern := pattern;
      this.verbs := verbs;
      this.deny := deny;
      compiled := Pattern("", "", []);
      compiledOK := false;
      compileErr := None;
    }

    ghost function Meaning(): Grant {
      Grant(pattern, verbs, deny)
    }

    /** Parses once; success and failure are both remembered. */
    method Compiled() returns (r: Result<Pattern, PatternError>)
      requires Valid()
      modifies this
      ensures Valid() && r == ParsePattern(pattern)
      ensures compiledOK || compileErr.Some?
      ensures old(compiledOK || compileErr.Some?) ==>
                compiled == old(compiled) && compiledOK == old(compiledOK) && compileErr == old(compileErr)
    {
      if compileErr.Some? { return Err(compileErr.value); }
      if compiledOK { return Ok(compiled); }
      var p := ParsePattern(pattern);
      match p {
        case Err(e) =>
          compileErr := Some(e);
        case Ok(q) =>
          compiled := q;
          compiledOK := true;
      }
      return p;
    }

    method AllowsVerb(v: Verb) returns (b: bool)
      ensures b <==> v in verbs
    {
      for i := 0 to |verbs|
        invariant v !in verbs[..i]
      {
        if verbs[i] == v { return true; }
      }
      return false;
    }

    method MatchesVerb(n: Name, v: Verb) returns (b: bool)
      requires Valid()
      modifies this
      ensures Valid() && b == Covers(Meaning(), n, v)
    {
      var p := Compiled();
      if p.Err? { return false; }
      if !Matches(p.value, n) { return false; }
      b := AllowsVerb(v);
    }
  }

  ghost function Meanings(scopes: seq<Scope>): seq<Grant> {
    seq(|scopes|, i requires 0 <= i < |scopes| => scopes[i].Meaning())
  }

  /** Some scope of the given polarity covers the channel. */
  ghost predicate Covered(grants: seq<Grant>, deny: bool, channel: string, v: Verb) {
    ParseName(channel).Ok?
    && exists g :: g in grants && Speaks(g, deny, ParseName(channel).value, v)
  }

  /** The grant has this polarity and covers the name. */
  predicate Speaks(g: Grant, deny: bool, n: Name, v: Verb) {
    g.deny == deny && Covers(g, n, v)
  }

  /** Deny wins: no deny covers the channel, and it is listed or allowed. */
  ghost predicate Authorized(chs: seq<string>, grants: seq<Grant>, channel: string, v: Verb) {
    !Covered(grants, true, channel, v) && (channel in chs || Covered(grants, false, channel, v))
  }

  ghost predicate AllValid(scopes: seq<Scope>)
    reads scopes
  {
    forall s :: s in scopes ==> s.Valid()
  }

  /** Asking one scope leaves every cache in the list truthful, aliased or not. */
  method CoversAt(scopes: seq<Scope>, i: nat, n: Name, v: Verb) returns (b: bool)
    requires i < |scopes| && AllValid(scopes)
    modifies scopes[i]
    ensures AllValid(scopes) && b == Covers(scopes[i].Meaning(), n, v)
  {
    b := scopes[i].MatchesVerb(n, v);
  }

  /** One pass over the scopes of one polarity, warming caches as it goes. */
  method AnyCovers(scopes: seq<Scope>, deny: bool, n: Name, v: Verb) returns (b: bool)
    requires AllValid(scopes)
    modifies scopes
    ensures AllValid(scopes)
    ensures b <==> exists g :: g in Meanings(scopes) && Speaks(g, deny, n, v)
  {
    ghost var grants := Meanings(scopes);
    for i := 0 to |scopes|
      invariant AllValid(scopes)
      invariant forall j :: 0 <= j < i ==> !Speaks(grants[j], deny, n, v)
    {
      assert grants[i] == scopes[i].Meaning();
      if scopes[i].deny == deny {
        var hit := CoversAt(scopes, i, n, v);
        if hit {
          assert grants[i] in grants && Speaks(grants[i], deny, n, v);
          return true;
        }
      }
    }
    return false;
  }

  /** `Claims.Authorizes`: whatever the caches hold, the answer is the closed
      form. */
  method Authorizes(chs: seq<string>, scopes: seq<Scope>, channel: string, v: Verb) returns (b: bool)
    requires AllValid(scopes)
    modifies scopes
    ensures AllValid(scopes)
    ensures b == Authorized(chs, Meanings(scopes), channel, v)
  {
    ghost var grants := Meanings(scopes);
    var parsed: Option<Name> := None;
    if |scopes| > 0 {
      var n := ParseName(channel);
      if n.Ok? { parsed := Some(n.value); }
    }
    if parsed.Some? {
      var denied := AnyCovers(scopes, true, parsed.value, v);
      if denied { return false; }
    }
    for i := 0 to |chs|
      invariant channel !in chs[..i]
      invariant AllValid(scopes)
    {
      if chs[i] == channel { return true; }
    }
    if parsed.None? { return false; }
    b := AnyCovers(scopes, false, parsed.value, v);
  }

  /** The grant speaks of the name: same visibility, segments that match, verb listed. */
  ghost predicate Mentions(g: Grant, n: Name, v: Verb) {
    exists p :: ParsePattern(g.pattern) == Ok(p) && p.visibility == n.visibility && Glob(p.segs, Components(n)) && v in g.verbs
  }

  lemma CoversIsMentions(g: Grant, n: Name, v: Verb)
    requires Canonical(n)
    ensures Covers(g, n, v) <==> Mentions(g, n, v)
  {
    if ParsePattern(g.pattern).Ok? {
      var p := ParsePattern(g.pattern).value;
      assert Parsed(p);
      MatchesIsGlob(p, n);
    }
  }

  /** Deny wins, and nothing is granted that was not written down: a channel that parses
      is authorized if and only if no deny speaks of it and it is listed or some allow
      speaks of it; one that does not parse, if and only if it is listed. */
  lemma DenyWins(chs: seq<string>, gs: seq<Grant>, channel: string, v: Verb)
    ensures ParseName(channel).Err? ==> (Authorized(chs, gs, channel, v) <==> channel in chs)
    ensures ParseName(channel).Ok? ==>
              var n := ParseName(channel).value;
              (Authorized(chs, gs, channel, v) <==>
               && (forall i :: 0 <= i < |gs| && gs[i].deny ==> !Mentions(gs[i], n, v))
               && (channel in chs || exists i :: 0 <= i < |gs| && !gs[i].deny && Mentions(gs[i], n, v)))
  {
    if ParseName(channel).Ok? {
      var n := ParseName(channel).value;
      ParseThenPrint(channel);
      forall i | 0 <= i < |gs| ensures Covers(gs[i], n, v) <==> Mentions(gs[i], n, v) {
        CoversIsMentions(gs[i], n, v);
      }
      SpokenBy(gs, true, n, v);
      SpokenBy(gs, false, n, v);
    }
  }

  lemma SpokenBy(gs: seq<Grant>, deny: bool, n: Name, v: Verb)
    ensures (exists g :: g in gs && Speaks(g, deny, n, v)) <==>
            exists i :: 0 <= i < |gs| && gs[i].deny == deny && Covers(gs[i], n, v)
  {
    if g :| g in gs && Speaks(g, deny, n, v) {
      var i :| 0 <= i < |gs| && gs[i] == g;
      assert gs[i].deny == deny && Covers(gs[i], n, v);
    }
    if i :| 0 <= i < |gs| && gs[i].deny == deny && Covers(gs[i], n, v) {
      assert gs[i] in gs && Speaks(gs[i], deny, n, v);
    }
  }

  /** Order and repetition of scopes and channels do not matter. */
  lemma OrderIrrelevant(chs: seq<string>, chs': seq<string>, gs: seq<Grant>, gs': seq<Grant>, channel: string, v: Verb)
    requires multiset(chs) == multiset(chs') && multiset(gs) == multiset(gs')
    ensures Authorized(chs, gs, channel, v) == Authorized(chs', gs', channel, v)
  {
    forall g ensures g in gs <==> g in gs' {
      assert g in gs <==> g in multiset(gs);
      assert g in gs' <==> g in multiset(gs');
    }
    assert channel in chs <==> channel in multiset(chs);
    assert channel in chs' <==> channel in multiset(chs');
  }

  /** Growing the deny scopes only shrinks, growing the allow scopes or the
      channel list only grows, what is authorized. */
  lemma Monotone(chs: seq<string>, chs': seq<string>, gs: seq<Grant>, gs': seq<Grant>, channel: string, v: Verb)
    requires forall c :: c in chs ==> c in chs'
    requires forall g :: g in gs && !g.deny ==> g in gs'
    requires forall g :: g in gs' && g.deny ==> g in gs
    ensures Authorized(chs, gs, channel, v) ==> Authorized(chs', gs', channel, v)
  {
  }

  /** Adding one deny never grants; adding one allow or one channel never revokes. */
  lemma AddOne(chs: seq<string>, gs: seq<Grant>, g: Grant, c: string, channel: string, v: Verb)
    ensures g.deny && Authorized(chs, gs + [g], channel, v) ==> Authorized(chs, gs, channel, v)
    ensures !g.deny && Authorized(chs, gs, channel, v) ==> Authorized(chs, gs + [g], channel, v)
    ensures Authorized(chs, gs, channel, v) ==> Authorized(chs + [c], gs, channel, v)
  {
    if g.deny {
      Monotone(chs, chs, gs + [g], gs, channel, v);
    } else {
      Monotone(chs, chs, gs, gs + [g], channel, v);
    }
    Monotone(chs, chs + [c], gs, gs, channel, v);
  }
}

/** Channel-name patterns: literal segments, `*` for exactly one segment and a
    trailing `**` for one or more. */
module Patterns {
  import opened Text
  import opened Names

  datatype Seg = Lit(text: string) | Star | DoubleStar

  datatype Pattern = Pattern(raw: string, visibility: string, segs: seq<Seg>)

  datatype PatternError =
    | NoPrefix
    | BadVisibility
    | ReservedColonInPattern
    | TooDeep
    | EmptySegment
    | MisplacedDoubleStar
    | BadSegment

  const MAX_PATTERN_DEPTH := 8

  function SegmentAt(parts: seq<string>, i: nat): Result<Seg, PatternError>
    requires i < |parts|
  {
    if parts[i] == "" then Err(EmptySegment)
    else if parts[i] == "*" then Ok(Star)
    else if parts[i] == "**" then
      if i != |parts| - 1 then Err(MisplacedDoubleStar) else Ok(DoubleStar)
    else if ValidComponent(parts[i]) then Ok(Lit(parts[i]))
    else Err(BadSegment)
  }

  /** The segments from position `i` on, or the first error among them. */
  function SegmentsFrom(parts: seq<string>, i: nat): Result<seq<Seg>, PatternError>
    requires i <= |parts|
    decreases |parts| - i
  {
    if i == |parts| then Ok([])
    else match SegmentAt(parts, i)
      case Err(e) => Err(e)
      case Ok(seg) =>
        match SegmentsFrom(parts, i + 1)
        case Err(e) => Err(e)
        case Ok(segs) => Ok([seg] + segs)
  }

  function ParsePattern(s: string): Result<Pattern, PatternError> {
    var colon := IndexOf(s, ':');
    if colon <= 0 || colon == |s| - 1 then Err(NoPrefix)
    else if !KnownVisibility(s[..colon]) then Err(BadVisibility)
    else
      var rest := s[colon + 1..];
      if ':' in rest then Err(ReservedColonInPattern)
      else
        var parts := Split(rest, {'.'});
        if |parts| > MAX_PATTERN_DEPTH then Err(TooDeep)
        else match SegmentsFrom(parts, 0)
          case Err(e) => Err(e)
          case Ok(segs) => Ok(Pattern(s, s[..colon], segs))
  }

  /** The slice-filling loop of `ParsePattern`. */
  method CompileSegments(parts: seq<string>) returns (r: Result<seq<Seg>, PatternError>)
    ensures r == SegmentsFrom(parts, 0)
  {
    var segs: seq<Seg> := [];
    assert forall more: seq<Seg> :: [] + more == more;
    for i := 0 to |parts|
      invariant match SegmentsFrom(parts, i)
                case Err(e) => SegmentsFrom(parts, 0) == Err(e)
                case Ok(more) => SegmentsFrom(parts, 0) == Ok(segs + more)
    {
      match SegmentAt(parts, i) {
        case Err(e) => return Err(e);
        case Ok(seg) =>
          match SegmentsFrom(parts, i + 1) {
            case Err(_) =>
            case Ok(more) => assert segs + ([seg] + more) == (segs + [seg]) + more;
          }
          segs := segs + [seg];
      }
    }
    assert segs + [] == segs;
    return Ok(segs);
  }

  /** `**` stands only in the last position, and literals are name components. */
  predicate WellPlaced(pat: seq<Seg>) {
    forall i :: 0 <= i < |pat| ==>
      (pat[i] == DoubleStar ==> i == |pat| - 1) && (pat[i].Lit? ==> ValidComponent(pat[i].text))
  }

  /** How a parsed segment is spelled. */
  function Spelling(seg: Seg): string {
    match seg
    case Lit(t) => t
    case Star => "*"
    case DoubleStar => "**"
  }

  predicate Parsed(p: Pattern) {
    ParsePattern(p.raw) == Ok(p)
  }

  lemma {:induction false} SegmentsFromPointwise(parts: seq<string>, i: nat)
    requires i <= |parts| && SegmentsFrom(parts, i).Ok?
    ensures |SegmentsFrom(parts, i).value| == |parts| - i
    ensures forall j :: i <= j < |parts| ==>
              SegmentAt(parts, j) == Ok(SegmentsFrom(parts, i).value[j - i])
    decreases |parts| - i
  {
    if i == |parts| {
    } else {
      SegmentsFromPointwise(parts, i + 1);
    }
  }

  /** What a parsed pattern is: a known visibility, a separator, and at most
      eight well-placed segments whose spellings make up the source text. */
  lemma ParsedShape(p: Pattern)
    requires Parsed(p)
    ensures KnownVisibility(p.visibility)
    ensures 1 <= |p.segs| <= 8 && WellPlaced(p.segs)
    ensures Split(p.raw, SEPARATORS) == [p.visibility] + Spellings(p.segs)
  {
    var rest := ParsedText(p);
    SegmentsFromShape(Split(rest, {'.'}));
    SplitAfterColon(p.visibility, rest);
  }

  lemma SplitAfterColon(vis: string, rest: string)
    requires KnownVisibility(vis) && FreeOf(rest, {':'})
    ensures Split(vis + ":" + rest, SEPARATORS) == [vis] + Split(rest, {'.'})
  {
    SplitPeel(vis, ':', rest, SEPARATORS);
    SplitColonFree(rest);
    assert vis + ":" + rest == vis + [':'] + rest;
  }

  /** What the text of a parsed pattern looks like around its colon. */
  lemma ParsedText(p: Pattern) returns (rest: string)
    requires Parsed(p)
    ensures KnownVisibility(p.visibility) && p.raw == p.visibility + ":" + rest && FreeOf(rest, {':'})
    ensures |Split(rest, {'.'})| <= MAX_PATTERN_DEPTH && SegmentsFrom(Split(rest, {'.'}), 0) == Ok(p.segs)
  {
    var colon := IndexOf(p.raw, ':');
    rest := p.raw[colon + 1..];
  }

  lemma SegmentsFromShape(parts: seq<string>)
    requires SegmentsFrom(parts, 0).Ok?
    ensures var segs := SegmentsFrom(parts, 0).value; WellPlaced(segs) && parts == Spellings(segs)
  {
    SegmentsFromPointwise(parts, 0);
    var segs := SegmentsFrom(parts, 0).value;
    forall j | 0 <= j < |parts|
      ensures parts[j] == Spelling(segs[j]) && (segs[j] == DoubleStar ==> j == |segs| - 1)
      ensures segs[j].Lit? ==> ValidComponent(segs[j].text)
    {
      assert SegmentAt(parts, j) == Ok(segs[j]);
    }
  }

  function Spellings(segs: seq<Seg>): seq<string> {
    seq(|segs|, i requires 0 <= i < |segs| => Spelling(segs[i]))
  }

  lemma ComponentIsNoWildcard(s: string)
    requires ValidComponent(s)
    ensures s != "*" && s != "**"
  {
    assert ComponentChar(s[0]);
  }

  lemma SpelledSegment(segs: seq<Seg>, i: nat)
    requires WellPlaced(segs) && i < |segs|
    ensures SegmentAt(Spellings(segs), i) == Ok(segs[i])
    ensures FreeOf(Spellings(segs)[i], SEPARATORS)
  {
    if segs[i].Lit? {
      ComponentIsNoWildcard(segs[i].text);
      ComponentFree(segs[i].text);
    }
  }

  lemma {:induction false} SegmentsFromSpelled(segs: seq<Seg>, i: nat)
    requires WellPlaced(segs) && i <= |segs|
    ensures SegmentsFrom(Spellings(segs), i) == Ok(segs[i..])
    decreases |segs| - i
  {
    if i == |segs| {
    } else {
      SpelledSegment(segs, i);
      SegmentsFromSpelled(segs, i + 1);
      assert segs[i..] == [segs[i]] + segs[i + 1..];
    }
  }

  /** Every well-placed segment list of legal depth is what its spelling parses
      to: the parser loses and invents nothing. */
  lemma SpellThenParse(vis: string, segs: seq<Seg>)
    requires KnownVisibility(vis) && WellPlaced(segs) && 1 <= |segs| <= 8
    ensures var raw := vis + ":" + Join(Spellings(segs), '.');
            ParsePattern(raw) == Ok(Pattern(raw, vis, segs))
  {
    var parts := Spellings(segs);
    var rest := Join(parts, '.');
    var raw := vis + ":" + rest;
    forall i | 0 <= i < |parts| ensures FreeOf(parts[i], {'.'}) && FreeOf(parts[i], {':'}) {
      SpelledSegment(segs, i);
    }
    ColonAt(vis, rest);
    assert raw[..|vis|] == vis && raw[|vis| + 1..] == rest;
    JoinFree(parts);
    SplitJoin(parts, '.', {'.'});
    SegmentsFromSpelled(segs, 0);
    assert segs[0..] == segs;
    SpelledSegment(segs, 0);
    assert rest != "" by { assert parts[0] != ""; }
  }

  lemma {:induction false} SplitColonFree(s: string)
    requires ':' !in s
    ensures Split(s, SEPARATORS) == Split(s, {'.'})
  {
    if s == [] {
    } else {
      SplitColonFree(s[1..]);
    }
  }

  /** The straight left-to-right scan of `matchSegments`. */
  predicate MatchFrom(pat: seq<Seg>, name: seq<string>, i: nat)
    requires i <= |pat|
    decreases |pat| - i
  {
    if i == |pat| then |name| == |pat|
    else match pat[i]
      case DoubleStar => |name| > i
      case Star => i < |name| && MatchFrom(pat, name, i + 1)
      case Lit(t) => i < |name| && name[i] == t && MatchFrom(pat, name, i + 1)
  }

  /** Only present components take part in matching. */
  function Segments(n: Name): seq<string> {
    (if n.app != "" then [n.app] else [])
    + (if n.domain != "" then [n.domain] else [])
    + (if n.id != "" then [n.id] else [])
    + (if n.topic != "" then [n.topic] else [])
  }

  /** `Pattern.Matches`. */
  predicate Matches(p: Pattern, n: Name) {
    p.segs != [] && p.visibility == n.visibility && MatchFrom(p.segs, Segments(n), 0)
  }

  /** Reference semantics with backtracking: `**` tries every non-empty prefix
      of what is left, wherever it stands. */
  predicate Glob(pat: seq<Seg>, name: seq<string>)
    decreases |pat|
  {
    if pat == [] then name == []
    else match pat[0]
      case DoubleStar => exists k :: 1 <= k <= |name| && Glob(pat[1..], name[k..])
      case Star => name != [] && Glob(pat[1..], name[1..])
      case Lit(t) => name != [] && name[0] == t && Glob(pat[1..], name[1..])
  }

  /** The scan needs no backtracking. */
  lemma {:induction false} ScanIsGlob(pat: seq<Seg>, name: seq<string>, i: nat)
    requires WellPlaced(pat) && i <= |pat| && i <= |name|
    ensures MatchFrom(pat, name, i) <==> Glob(pat[i..], name[i..])
    decreases |pat| - i
  {
    if i == |pat| {
    } else {
      assert pat[i..][1..] == pat[i + 1..];
      if pat[i] == DoubleStar {
        assert pat[i + 1..] == [];
        if |name| > i {
          assert Glob(pat[i + 1..], name[i..][|name| - i..]);
        }
      } else if i < |name| {
        assert name[i..][1..] == name[i + 1..];
        ScanIsGlob(pat, name, i + 1);
      }
    }
  }

  lemma CanonicalSegments(n: Name)
    requires Canonical(n)
    ensures Segments(n) == Components(n)
  {
  }

  /** On names that parse, matching is glob matching of the components. */
  lemma MatchesIsGlob(p: Pattern, n: Name)
    requires Parsed(p) && Canonical(n)
    ensures Matches(p, n) <==> p.visibility == n.visibility && Glob(p.segs, Components(n))
  {
    ParsedShape(p);
    CanonicalSegments(n);
    ScanIsGlob(p.segs, Components(n), 0);
    assert p.segs[0..] == p.segs && Components(n)[0..] == Components(n);
  }

  /** The loop of `matchSegments`. */
  method MatchSegments(pat: seq<Seg>, name: seq<string>) returns (b: bool)
    requires WellPlaced(pat)
    ensures b <==> Glob(pat, name)
  {
    ScanIsGlob(pat, name, 0);
    assert pat[0..] == pat && name[0..] == name;
    for i := 0 to |pat|
      invariant i <= |name| && (Glob(pat, name) <==> MatchFrom(pat, name, i))
    {
      match pat[i] {
        case DoubleStar => return |name| > i;
        case Star => if i >= |name| { return false; }
        case Lit(t) =>
          if i >= |name| { return false; }
          if name[i] != t { return false; }
      }
    }
    return |name| == |pat|;
  }

  /** `Pattern.Matches`: present components are pushed into a four-slot scratch
      buffer and scanned. */
  method MatchName(p: Pattern, n: Name) returns (b: bool)
    requires WellPlaced(p.segs)
    ensures b == Matches(p, n)
    ensures b <==> p.segs != [] && p.visibility == n.visibility && Glob(p.segs, Segments(n))
  {
    ScanIsGlob(p.segs, Segments(n), 0);
    assert p.segs[0..] == p.segs && Segments(n)[0..] == Segments(n);
    if p.segs == [] { return false; }
    if p.visibility != n.visibility { return false; }
    var scratch := new string[4](_ => "");
    var count := 0;
    if n.app != "" { scratch[count] := n.app; count := count + 1; }
    if n.domain != "" { scratch[count] := n.domain; count := count + 1; }
    if n.id != "" { scratch[count] := n.id; count := count + 1; }
    if n.topic != "" { scratch[count] := n.topic; count := count + 1; }
    assert scratch[..count] == Segments(n);
    b := MatchSegments(p.segs, scratch[..count]);
  }
}

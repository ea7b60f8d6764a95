/** Pattern scores, and why a strictly narrower pattern always scores higher. */
module Specificity {
  import opened Text
  import opened Names
  import opened Patterns
  import opened Matchers

  /** Literals weigh four, single stars one, the trailing double star nothing. */
  function Points(seg: Seg): nat {
    match seg
    case Lit(_) => 4
    case Star => 1
    case DoubleStar => 0
  }

  function Score(pat: seq<Seg>): nat {
    if pat == [] then 0 else Score(pat[..|pat| - 1]) + Points(pat[|pat| - 1])
  }

  // ---------- a pattern, unrolled to a fixed length ----------

  predicate AcceptsLength(pat: seq<Seg>, len: nat) {
    if EndsOpen(pat) then len >= |pat| else len == |pat|
  }

  /** What position `i` demands once the trailing `**` is unrolled to stars. */
  function At(pat: seq<Seg>, i: nat): Seg
    requires EndsOpen(pat) || i < |pat|
  {
    if EndsOpen(pat) && i >= |pat| - 1 then Star else pat[i]
  }

  function UnrolledScore(pat: seq<Seg>, len: nat): nat
    requires EndsOpen(pat) || len <= |pat|
  {
    if len == 0 then 0 else UnrolledScore(pat, len - 1) + Points(At(pat, len - 1))
  }

  /** Stars the trailing `**` unrolls to. */
  function Padding(pat: seq<Seg>, len: nat): nat
    requires AcceptsLength(pat, len)
  {
    if EndsOpen(pat) then len - |pat| + 1 else 0
  }

  lemma GlobAt(pat: seq<Seg>, w: seq<string>)
    requires WellPlaced(pat)
    ensures Glob(pat, w) <==> AcceptsLength(pat, |w|) && forall i :: 0 <= i < |w| ==> Fits(At(pat, i), w[i])
  {
    SegsFitPositions(pat, w);
    if AcceptsLength(pat, |w|) {
      assert forall i :: 0 <= i < |pat| ==> (Fits(At(pat, i), w[i]) <==> Fits(pat[i], w[i]));
      assert forall i :: |pat| <= i < |w| ==> Fits(At(pat, i), w[i]);
    }
  }

  lemma {:induction false} UnrolledPrefix(pat: seq<Seg>, len: nat)
    requires len <= |pat| && (EndsOpen(pat) ==> len < |pat|)
    ensures UnrolledScore(pat, len) == Score(pat[..len])
  {
    if len == 0 {
    } else {
      UnrolledPrefix(pat, len - 1);
      assert pat[..len][..len - 1] == pat[..len - 1];
      assert At(pat, len - 1) == pat[len - 1];
    }
  }

  lemma {:induction false} UnrolledTotal(pat: seq<Seg>, len: nat)
    requires AcceptsLength(pat, len)
    ensures UnrolledScore(pat, len) == Score(pat) + Padding(pat, len)
  {
    if EndsOpen(pat) {
      if len == |pat| {
        UnrolledPrefix(pat, len - 1);
        assert At(pat, len - 1) == Star;
      } else {
        UnrolledTotal(pat, len - 1);
      }
    } else {
      UnrolledPrefix(pat, len);
      assert pat[..len] == pat;
    }
  }

  // ---------- containment, read off position by position ----------

  /** A list of name components of admissible length. */
  predicate Word(w: seq<string>, lo: nat, hi: nat) {
    lo <= |w| <= hi && forall i :: 0 <= i < |w| ==> ValidComponent(w[i])
  }

  ghost predicate Contained(p: seq<Seg>, q: seq<Seg>, lo: nat, hi: nat) {
    forall w :: Word(w, lo, hi) && Glob(p, w) ==> Glob(q, w)
  }

  /** The word of length `len` that spells `p`'s literals and `filler` elsewhere. */
  function Witness(p: seq<Seg>, len: nat, filler: string): seq<string>
    requires AcceptsLength(p, len)
  {
    seq(len, i requires 0 <= i < len => if At(p, i).Lit? then At(p, i).text else filler)
  }

  lemma WitnessAccepted(p: seq<Seg>, len: nat, filler: string, lo: nat, hi: nat)
    requires WellPlaced(p) && AcceptsLength(p, len) && lo <= len <= hi && ValidComponent(filler)
    ensures Glob(p, Witness(p, len, filler)) && Word(Witness(p, len, filler), lo, hi)
  {
    GlobAt(p, Witness(p, len, filler));
  }

  predicate AtLeastAsGeneral(q: Seg, p: Seg) {
    q == p || q == Star
  }

  /** At a length `p` accepts, containment forces `q` to be at least as general
      in every position: otherwise a filler other than `q`'s literal escapes. */
  lemma ContainmentPointwise(p: seq<Seg>, q: seq<Seg>, lo: nat, hi: nat, len: nat)
    requires WellPlaced(p) && WellPlaced(q) && Contained(p, q, lo, hi)
    requires AcceptsLength(p, len) && lo <= len <= hi
    ensures AcceptsLength(q, len)
    ensures forall i :: 0 <= i < len ==> AtLeastAsGeneral(At(q, i), At(p, i))
  {
    WitnessAccepted(p, len, "a", lo, hi);
    GlobAt(q, Witness(p, len, "a"));
    forall i | 0 <= i < len
      ensures AtLeastAsGeneral(At(q, i), At(p, i))
    {
      if At(q, i).Lit? {
        var filler := At(q, i).text + "a";
        assert ValidComponent(filler) && filler != At(q, i).text;
        WitnessAccepted(p, len, filler, lo, hi);
        GlobAt(q, Witness(p, len, filler));
        assert Fits(At(q, i), Witness(p, len, filler)[i]);
      }
    }
  }

  /** Pointwise generality bounds the unrolled scores; a literal over a star
      separates them by three. */
  lemma {:induction false} UnrolledOrder(p: seq<Seg>, q: seq<Seg>, len: nat)
    requires EndsOpen(p) || len <= |p|
    requires EndsOpen(q) || len <= |q|
    requires forall i :: 0 <= i < len ==> AtLeastAsGeneral(At(q, i), At(p, i)) && At(p, i) != DoubleStar
    ensures UnrolledScore(p, len) >= UnrolledScore(q, len)
    ensures (exists i :: 0 <= i < len && At(q, i) != At(p, i)) ==> UnrolledScore(p, len) >= UnrolledScore(q, len) + 3
  {
    if len == 0 {
    } else {
      UnrolledOrder(p, q, len - 1);
      assert At(q, len - 1) != At(p, len - 1) ==> At(q, len - 1) == Star && At(p, len - 1).Lit?;
    }
  }

  lemma NoDoubleStarInside(p: seq<Seg>, len: nat)
    requires WellPlaced(p) && AcceptsLength(p, len)
    ensures forall i :: 0 <= i < len ==> At(p, i) != DoubleStar
  {
  }

  /** The shortest admissible length `p` accepts. */
  function Shortest(p: seq<Seg>, lo: nat): nat {
    if EndsOpen(p) && |p| < lo then lo else |p|
  }

  /** A pattern that accepts some word between `lo` and `hi` accepts one of the
      shortest length. */
  lemma ShortestAccepted(p: seq<Seg>, lo: nat, hi: nat, w: seq<string>)
    requires WellPlaced(p) && lo <= |w| <= hi && Glob(p, w)
    ensures lo <= Shortest(p, lo) <= hi && AcceptsLength(p, Shortest(p, lo))
  {
    GlobAt(p, w);
  }

  /** Beyond its shortest length a pattern has only stars. */
  lemma EqualHeadsAccept(p: seq<Seg>, q: seq<Seg>, len: nat, w: seq<string>)
    requires WellPlaced(p) && WellPlaced(q) && |p| <= len
    requires AcceptsLength(p, len) && AcceptsLength(q, len) && AcceptsLength(p, |w|)
    requires forall i :: 0 <= i < len ==> At(q, i) == At(p, i)
    requires Glob(q, w)
    ensures Glob(p, w)
  {
    GlobAt(p, w);
    GlobAt(q, w);
    forall i | 0 <= i < |w| ensures Fits(At(p, i), w[i]) {
      if i < len { assert Fits(At(q, i), w[i]); }
    }
  }

  /** If `q` accepts a word `p` rejects, then at `p`'s shortest length either a
      position of `p` is a literal where `q` has a star, or `q`'s open tail
      starts strictly earlier. */
  lemma StrictSomewhere(p: seq<Seg>, q: seq<Seg>, lo: nat, hi: nat, some: seq<string>, w: seq<string>)
    requires WellPlaced(p) && WellPlaced(q) && Contained(p, q, lo, hi)
    requires lo <= |some| <= hi && Glob(p, some)
    requires lo <= |w| <= hi && Glob(q, w) && !Glob(p, w)
    ensures var len := Shortest(p, lo);
            && lo <= len <= hi && AcceptsLength(p, len) && AcceptsLength(q, len)
            && ((exists i :: 0 <= i < len && At(q, i) != At(p, i))
                || (EndsOpen(q) && Padding(q, len) > Padding(p, len)))
  {
    ShortestAccepted(p, lo, hi, some);
    var len := Shortest(p, lo);
    ContainmentPointwise(p, q, lo, hi, len);
    GlobAt(p, w);
    GlobAt(q, w);
    if forall i :: 0 <= i < len ==> At(q, i) == At(p, i) {
      if AcceptsLength(p, |w|) {
        EqualHeadsAccept(p, q, len, w);
      }
      assert EndsOpen(q);
    }
  }

  /** Main result on segment lists: if every admissible word of `p` is one of
      `q`, `p` has a word, and `q` has a word `p` lacks, then `p` scores higher.
      `lo` is at most three because no visibility demands more components. */
  lemma NarrowerScoresHigher(p: seq<Seg>, q: seq<Seg>, lo: nat, hi: nat, some: seq<string>, w: seq<string>)
    requires WellPlaced(p) && WellPlaced(q) && p != [] && lo <= 3
    requires Contained(p, q, lo, hi)
    requires lo <= |some| <= hi && Glob(p, some)
    requires lo <= |w| <= hi && Glob(q, w) && !Glob(p, w)
    ensures Score(p) > Score(q)
  {
    StrictSomewhere(p, q, lo, hi, some, w);
    var len := Shortest(p, lo);
    ContainmentPointwise(p, q, lo, hi, len);
    NoDoubleStarInside(p, len);
    UnrolledOrder(p, q, len);
    UnrolledTotal(p, len);
    UnrolledTotal(q, len);
    if i :| 0 <= i < len && At(q, i) != At(p, i) {
      // p has a literal before its open tail, so at most two padding stars
      assert At(p, i).Lit?;
      assert EndsOpen(p) ==> |p| >= 2;
    }
  }

  /** The unbounded form: containment over all non-empty segment lists. */
  lemma NarrowerScoresHigherUnbounded(p: seq<Seg>, q: seq<Seg>, w: seq<string>)
    requires WellPlaced(p) && WellPlaced(q) && p != []
    requires forall u :: Glob(p, u) ==> Glob(q, u)
    requires Glob(q, w) && !Glob(p, w)
    ensures Score(p) > Score(q)
  {
    var hi := |p| + |w|;
    var some := Witness(p, |p|, "a");
    WitnessAccepted(p, |p|, "a", 0, hi);
    NarrowerScoresHigher(p, q, 0, hi, some, w);
  }

  // ---------- on channel names ----------

  /** Every name `p` matches is matched by `q`, and some name only by `q`. */
  ghost predicate StrictlyNarrower(p: Pattern, q: Pattern) {
    && (forall n :: Canonical(n) && Matches(p, n) ==> Matches(q, n))
    && (exists n :: Canonical(n) && Matches(q, n) && !Matches(p, n))
  }

  function FewestComponents(vis: string): nat {
    if vis == PRIVATE then 3 else 2
  }

  /** Component lists of the right length are exactly those of names. */
  lemma WordIsName(vis: string, w: seq<string>) returns (n: Name)
    requires KnownVisibility(vis) && Word(w, FewestComponents(vis), 4)
    ensures Canonical(n) && n.visibility == vis && Components(n) == w
  {
    n := FromParts(vis, w);
  }

  /** On real channel names: a strictly narrower pattern that matches anything
      at all scores strictly higher. */
  lemma NarrowerPatternScoresHigher(p: Pattern, q: Pattern, matched: Name)
    requires Parsed(p) && Parsed(q) && StrictlyNarrower(p, q)
    requires Canonical(matched) && Matches(p, matched)
    ensures Score(p.segs) > Score(q.segs)
  {
    ParsedShape(p);
    ParsedShape(q);
    var lo := FewestComponents(p.visibility);
    MatchesIsGlob(p, matched);
    assert Matches(q, matched);
    CanonicalComponents(matched);
    forall w | Word(w, lo, 4) && Glob(p.segs, w)
      ensures Glob(q.segs, w)
    {
      var n := WordIsName(p.visibility, w);
      MatchesIsGlob(p, n);
      MatchesIsGlob(q, n);
    }
    var other :| Canonical(other) && Matches(q, other) && !Matches(p, other);
    MatchesIsGlob(p, other);
    MatchesIsGlob(q, other);
    CanonicalComponents(other);
    NarrowerScoresHigher(p.segs, q.segs, lo, 4, Components(matched), Components(other));
  }
}

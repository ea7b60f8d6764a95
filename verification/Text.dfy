/** String helpers shared by the name grammar and the three pattern matchers:
    splitting on separators, joining, and Go's byte-wise string order. */
module Text {

  datatype Option<+T> = None | Some(value: T)

  datatype Result<+T, +E> = Ok(value: T) | Err(error: E)

  /** No character of `s` is one of the separators. */
  predicate FreeOf(s: string, seps: set<char>) {
    forall i :: 0 <= i < |s| ==> s[i] !in seps
  }

  predicate AllFreeOf(parts: seq<string>, seps: set<char>) {
    forall i :: 0 <= i < |parts| ==> FreeOf(parts[i], seps)
  }

  /** Prepends `p` to the first part. */
  function PrefixFirst(p: string, parts: seq<string>): seq<string>
    requires parts != []
  {
    [p + parts[0]] + parts[1..]
  }

  lemma PrefixFirstEmpty(parts: seq<string>)
    requires parts != []
    ensures PrefixFirst("", parts) == parts
  {
    assert "" + parts[0] == parts[0];
  }

  lemma PrefixFirstTwice(p: string, q: string, parts: seq<string>)
    requires parts != []
    ensures PrefixFirst(p, PrefixFirst(q, parts)) == PrefixFirst(p + q, parts)
    ensures PrefixFirst(p, [""] + parts) == [p] + parts
  {
    assert p + (q + parts[0]) == (p + q) + parts[0];
    assert p + "" == p;
  }

  /** The maximal separator-free pieces of `s`, in order. */
  function Split(s: string, seps: set<char>): (parts: seq<string>)
    ensures parts != []
    ensures AllFreeOf(parts, seps)
  {
    if s == [] then [""]
    else if s[0] in seps then [""] + Split(s[1..], seps)
    else PrefixFirst([s[0]], Split(s[1..], seps))
  }

  function Join(parts: seq<string>, sep: char): string {
    if parts == [] then ""
    else if |parts| == 1 then parts[0]
    else parts[0] + [sep] + Join(parts[1..], sep)
  }

  /** Splitting peels one separator-free piece and its separator at a time. */
  lemma {:induction false} SplitPeel(a: string, c: char, b: string, seps: set<char>)
    requires FreeOf(a, seps) && c in seps
    ensures Split(a + [c] + b, seps) == [a] + Split(b, seps)
  {
    var s := a + [c] + b;
    if a == [] {
      assert s[1..] == b;
    } else {
      assert s[1..] == a[1..] + [c] + b;
      assert FreeOf(a[1..], seps);
      SplitPeel(a[1..], c, b, seps);
      assert s[0] == a[0] == a[..1][0];
      assert [a[0]] + a[1..] == a;
    }
  }

  lemma {:induction false} SplitFree(a: string, seps: set<char>)
    requires FreeOf(a, seps)
    ensures Split(a, seps) == [a]
  {
    if a == [] {
    } else {
      assert FreeOf(a[1..], seps);
      SplitFree(a[1..], seps);
      assert [a[0]] + a[1..] == a;
    }
  }

  /** Splitting undoes joining. */
  lemma {:induction false} SplitJoin(parts: seq<string>, sep: char, seps: set<char>)
    requires parts != [] && sep in seps && AllFreeOf(parts, seps)
    ensures Split(Join(parts, sep), seps) == parts
  {
    assert FreeOf(parts[0], seps);
    if |parts| == 1 {
      SplitFree(parts[0], seps);
    } else {
      assert AllFreeOf(parts[1..], seps);
      SplitJoin(parts[1..], sep, seps);
      SplitPeel(parts[0], sep, Join(parts[1..], sep), seps);
    }
  }

  /** Joining undoes splitting on a single separator. */
  lemma {:induction false} JoinSplit(s: string, sep: char)
    ensures Join(Split(s, {sep}), sep) == s
  {
    if s == [] {
    } else {
      JoinSplit(s[1..], sep);
      var rest := Split(s[1..], {sep});
      if s[0] == sep {
        assert ([""] + rest)[1..] == rest;
      } else {
        JoinPrefixFirst([s[0]], rest, sep);
      }
      assert [s[0]] + s[1..] == s;
    }
  }

  lemma JoinPrefixFirst(p: string, parts: seq<string>, sep: char)
    requires parts != []
    ensures Join(PrefixFirst(p, parts), sep) == p + Join(parts, sep)
  {
    if |parts| > 1 {
      assert PrefixFirst(p, parts)[1..] == parts[1..];
    }
  }

  /** What the split still owes when the piece being read started at `start`. */
  ghost function Unread(s: string, start: nat, i: nat): seq<string>
    requires start <= i <= |s|
  {
    PrefixFirst(s[start..i], Split(s[i..], SEPARATORS))
  }

  lemma UnreadStep(s: string, start: nat, i: nat)
    requires start <= i < |s|
    ensures if s[i] in SEPARATORS then Unread(s, start, i) == [s[start..i]] + Unread(s, i + 1, i + 1)
            else Unread(s, start, i) == Unread(s, start, i + 1)
  {
    var rest := Split(s[i + 1..], SEPARATORS);
    assert s[i..][1..] == s[i + 1..] && s[i..][0] == s[i];
    PrefixFirstTwice(s[start..i], [s[i]], rest);
    PrefixFirstEmpty(rest);
    assert s[i + 1..i + 1] == "" && s[start..i] + [s[i]] == s[start..i + 1];
  }

  /** `out` and the piece being read account for everything before `i`. */
  ghost predicate Reads(s: string, out: seq<string>, start: nat, i: nat) {
    start <= i <= |s| && Split(s, SEPARATORS) == out + Unread(s, start, i)
  }

  lemma ReadsStart(s: string)
    ensures Reads(s, [], 0, 0)
  {
    assert s[0..] == s && s[0..0] == "";
    PrefixFirstEmpty(Split(s, SEPARATORS));
  }

  lemma ReadsStep(s: string, out: seq<string>, start: nat, i: nat)
    requires Reads(s, out, start, i) && i < |s|
    ensures if s[i] in SEPARATORS then Reads(s, out + [s[start..i]], i + 1, i + 1) else Reads(s, out, start, i + 1)
  {
    UnreadStep(s, start, i);
    if s[i] in SEPARATORS {
      assert out + ([s[start..i]] + Unread(s, i + 1, i + 1)) == out + [s[start..i]] + Unread(s, i + 1, i + 1);
    }
  }

  lemma ReadsEnd(s: string, out: seq<string>, start: nat)
    requires Reads(s, out, start, |s|)
    ensures Split(s, SEPARATORS) == out + [s[start..]]
  {
    assert s[|s|..] == [] && s[start..|s|] + "" == s[start..];
  }

  /** The index-and-slice loop that `patternSegments`, `splitPatternSegments`
      and `splitChannelSegs` each spell out: cut at every '.' and ':'. */
  method SplitSegments(s: string) returns (out: seq<string>)
    ensures out == Split(s, SEPARATORS)
  {
    out := [];
    var start := 0;
    ReadsStart(s);
    for i := 0 to |s|
      invariant 0 <= start <= i && Reads(s, out, start, i)
    {
      ReadsStep(s, out, start, i);
      if s[i] == '.' || s[i] == ':' {
        out := out + [s[start..i]];
        start := i + 1;
      }
    }
    ReadsEnd(s, out, start);
    out := out + [s[start..]];
  }

  const SEPARATORS: set<char> := {'.', ':'}

  /** Position of the first `c` in `s`, or -1. */
  function IndexOf(s: string, c: char): (i: int)
    ensures -1 <= i < |s|
    ensures i >= 0 ==> s[i] == c && FreeOf(s[..i], {c})
    ensures i < 0 ==> FreeOf(s, {c})
  {
    if s == [] then -1
    else if s[0] == c then 0
    else var j := IndexOf(s[1..], c); if j < 0 then -1 else j + 1
  }

  /** Go's `<` on strings. */
  predicate Less(a: string, b: string) {
    b != [] && (a == [] || a[0] < b[0] || (a[0] == b[0] && Less(a[1..], b[1..])))
  }

  lemma {:induction false} LessTotal(a: string, b: string)
    ensures a == b || Less(a, b) || Less(b, a)
    ensures !(Less(a, b) && Less(b, a))
    ensures !Less(a, a)
  {
    if a == [] {
    } else {
      LessTotal(a[1..], if b == [] then [] else b[1..]);
      if b != [] && a[0] == b[0] && a[1..] == b[1..] {
        assert a == [a[0]] + a[1..] == b;
      }
    }
  }

  /** The order is lexicographic: one is a proper prefix of the other, or the first
      difference decides. */
  lemma {:induction false} LessExactly(a: string, b: string)
    ensures Less(a, b) <==> a < b || exists i :: 0 <= i < |a| && i < |b| && a[..i] == b[..i] && a[i] < b[i]
  {
    if a == [] || b == [] || a[0] < b[0] {
      if a != [] && b != [] { assert a[..0] == b[..0] && a[0] < b[0]; }
    } else {
      LessExactly(a[1..], b[1..]);
      LessTail(a, b);
    }
  }

  /** Past an equal first character, the tails decide; a larger one decides at once. */
  lemma LessTail(a: string, b: string)
    requires a != [] && b != [] && a[0] >= b[0]
    ensures (a < b || exists i :: 0 <= i < |a| && i < |b| && a[..i] == b[..i] && a[i] < b[i]) <==>
            a[0] == b[0]
            && (a[1..] < b[1..]
                || exists i :: 0 <= i < |a| - 1 && i < |b| - 1 && a[1..][..i] == b[1..][..i] && a[1..][i] < b[1..][i])
  {
    assert a == [a[0]] + a[1..] && b == [b[0]] + b[1..];
    if i :| 0 <= i < |a| && i < |b| && a[..i] == b[..i] && a[i] < b[i] {
      assert i > 0 && a[..i][0] == b[..i][0];
      assert a[1..][..i - 1] == a[..i][1..] && b[1..][..i - 1] == b[..i][1..];
      assert a[1..][i - 1] < b[1..][i - 1];
    }
    if j :| a[0] == b[0] && 0 <= j < |a| - 1 && j < |b| - 1 && a[1..][..j] == b[1..][..j] && a[1..][j] < b[1..][j] {
      assert a[..j + 1] == [a[0]] + a[1..][..j] == b[..j + 1];
      assert a[j + 1] < b[j + 1];
    }
  }

  lemma {:induction false} LessTransitive(a: string, b: string, c: string)
    requires Less(a, b) && Less(b, c)
    ensures Less(a, c)
  {
    if a == [] || a[0] != b[0] || b[0] != c[0] {
    } else {
      LessTransitive(a[1..], b[1..], c[1..]);
    }
  }
}

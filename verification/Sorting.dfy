/** A stand-in for `sort.Slice` with a strict total comparator, and the fact that
    makes map iteration order irrelevant: the sorted result is unique. */
module Sorting {

  ghost predicate Sorted<T>(s: seq<T>, before: (T, T) -> bool) {
    forall i, j :: 0 <= i < j < |s| ==> before(s[i], s[j])
  }

  /** `before` is a strict total order on the elements of `xs`. */
  ghost predicate StrictOrder<T>(xs: set<T>, before: (T, T) -> bool) {
    && (forall a :: a in xs ==> !before(a, a))
    && (forall a, b :: a in xs && b in xs && a != b ==> before(a, b) != before(b, a))
    && (forall a, b, c :: a in xs && b in xs && c in xs && before(a, b) && before(b, c) ==> before(a, c))
  }

  ghost function Elements<T>(s: seq<T>): set<T> {
    set x | x in s
  }

  ghost predicate Distinct<T>(s: seq<T>) {
    forall i, j :: 0 <= i < j < |s| ==> s[i] != s[j]
  }

  method Insert<T(==)>(s: seq<T>, x: T, before: (T, T) -> bool) returns (out: seq<T>)
    requires x !in s && StrictOrder(Elements(s) + {x}, before) && Sorted(s, before)
    ensures Sorted(out, before) && Elements(out) == Elements(s) + {x}
  {
    var k := 0;
    while k < |s| && before(s[k], x)
      invariant 0 <= k <= |s|
      invariant forall i :: 0 <= i < k ==> before(s[i], x)
    {
      k := k + 1;
    }
    out := s[..k] + [x] + s[k..];
    forall i | k <= i < |s| ensures before(x, s[i]) {
      if i > k { assert before(s[k], s[i]); }
      assert s[k] in Elements(s) + {x} && s[i] in Elements(s) + {x};
    }
    assert s == s[..k] + s[k..];
  }

  method Sort<T(==)>(s: seq<T>, before: (T, T) -> bool) returns (out: seq<T>)
    requires Distinct(s) && StrictOrder(Elements(s), before)
    ensures Sorted(out, before) && Elements(out) == Elements(s)
  {
    out := [];
    for i := 0 to |s|
      invariant Sorted(out, before) && Elements(out) == Elements(s[..i])
    {
      assert Elements(s[..i + 1]) == Elements(s[..i]) + {s[i]} <= Elements(s);
      assert s[i] !in Elements(s[..i]);
      out := Insert(out, s[i], before);
    }
    assert s[..|s|] == s;
  }

  /** Two sorted lists with the same elements are the same list. */
  lemma {:induction false} SortedUnique<T>(a: seq<T>, b: seq<T>, before: (T, T) -> bool)
    requires Elements(a) == Elements(b) && StrictOrder(Elements(a), before)
    requires Sorted(a, before) && Sorted(b, before)
    ensures a == b
  {
    BothEmpty(a, b);
    if a == [] || b == [] {
    } else {
      HeadsAgree(a, b, before);
      TailElements(a, before);
      TailElements(b, before);
      SortedUnique(a[1..], b[1..], before);
      assert a == [a[0]] + a[1..] && b == [b[0]] + b[1..];
    }
  }

  lemma BothEmpty<T>(a: seq<T>, b: seq<T>)
    requires Elements(a) == Elements(b)
    ensures a == [] <==> b == []
  {
    if a != [] { assert a[0] in Elements(b); }
    if b != [] { assert b[0] in Elements(a); }
  }

  lemma HeadsAgree<T>(a: seq<T>, b: seq<T>, before: (T, T) -> bool)
    requires a != [] && b != [] && Elements(a) == Elements(b) && StrictOrder(Elements(a), before)
    requires Sorted(a, before) && Sorted(b, before)
    ensures a[0] == b[0]
  {
    assert a[0] in Elements(b) && b[0] in Elements(a);
    assert forall i :: 0 < i < |a| ==> before(a[0], a[i]);
    assert forall j :: 0 < j < |b| ==> before(b[0], b[j]);
  }

  lemma TailElements<T>(a: seq<T>, before: (T, T) -> bool)
    requires a != [] && Sorted(a, before) && StrictOrder(Elements(a), before)
    ensures Elements(a[1..]) == Elements(a) - {a[0]}
  {
    assert forall i :: 0 < i < |a| ==> before(a[0], a[i]) && a[i] in Elements(a);
    assert a[0] in Elements(a);
    assert forall x :: x in a <==> x == a[0] || x in a[1..];
  }
}

/** The minute ring: `n` cells standing for the last `n` minutes. */
module RingWindows {
  import opened Arithmetic

  /** Go's integer division truncates towards zero. */
  function Minute(unix: int): int {
    if unix >= 0 then unix / 60 else -((-unix) / 60)
  }

  /** A minute is the sixty seconds that start at its multiple of sixty. Before 1970 it
      is the sixty seconds that end there, and minute zero reaches into both. */
  lemma MinuteExactly(unix: int, m: int)
    ensures Minute(unix) == m <==>
            if m > 0 then 60 * m <= unix < 60 * m + 60 else if m < 0 then 60 * m - 60 < unix <= 60 * m else -60 < unix < 60
  {
    if unix >= 0 {
      MinutesApart(unix, m);
    } else {
      MinutesApart(-unix, -m);
    }
  }

  lemma MinutesApart(unix: nat, m: int)
    ensures unix / 60 == m <==> 60 * m <= unix < 60 * m + 60
  {
    if 60 * m <= unix < 60 * m + 60 { DivModUnique(unix, 60, m, unix - 60 * m); }
  }

  /** The window in seconds: an add counts at `now` just when it falls into the running
      minute or one of the `n - 1` minutes before it. */
  lemma WindowInSeconds(unix: int, now: int, n: nat)
    requires 0 <= unix && 0 <= now && 0 < n
    ensures var running := now - now % 60;
            Minute(now) - n < Minute(unix) <= Minute(now) <==> running - 60 * (n - 1) <= unix < running + 60
  {
    assert now - now % 60 == 60 * Minute(now);
    assert unix - unix % 60 == 60 * Minute(unix);
  }

  /** Go's `%` takes the sign of the dividend. */
  function Remainder(m: int, n: int): (r: int)
    requires n > 0
    ensures r >= 0 <==> m >= 0 || m % n == 0
    ensures r >= 0 ==> r == m % n
  {
    if m >= 0 then m % n
    else
      NegativeRemainder(m, n);
      -((-m) % n)
  }

  lemma NegativeRemainder(m: int, n: int)
    requires n > 0
    ensures (-m) % n == 0 <==> m % n == 0
  {
    var q, r := m / n, m % n;
    assert m == n * q + r && -m == n * -q - r;
    if r == 0 {
      DivModUnique(-m, n, -q, 0);
    } else {
      assert -m == n * (-q - 1) + (n - r);
      DivModUnique(-m, n, -q - 1, n - r);
    }
  }

  /** Later entries with another minute in the same cell erase earlier ones. */
  predicate Overwritten(log: seq<int>, i: nat, n: nat)
    requires n > 0 && i < |log|
  {
    exists j :: i < j < |log| && log[j] % n == log[i] % n && log[j] != log[i]
  }

  /** Entries at or after `cutoff` that nothing erased. */
  ghost function Surviving(log: seq<int>, n: nat, cutoff: int): set<nat>
    requires n > 0
  {
    set i: nat | i < |log| && log[i] >= cutoff && !Overwritten(log, i, n)
  }

  /** What one cell holds: the surviving entries of its residue. */
  ghost function InCell(log: seq<int>, n: nat, c: nat): set<nat>
    requires n > 0
  {
    set i: nat | i < |log| && log[i] % n == c && !Overwritten(log, i, n)
  }

  /** Cell `c` counts its surviving entries and is stamped with their minute. */
  ghost predicate CellOk(log: seq<int>, n: nat, c: nat, count: int, stamp: int)
    requires n > 0
  {
    && count == |InCell(log, n, c)|
    && forall i :: i in InCell(log, n, c) ==> log[i] == stamp
  }

  class RingWindow {
    const cells: array<int>
    const stamp: array<int>
    /** The minutes added so far, in arrival order. */
    ghost var log: seq<int>

    ghost predicate Valid()
      reads this, cells, stamp
    {
      && cells != stamp && 0 < cells.Length == stamp.Length
      && (forall c :: 0 <= c < cells.Length ==> CellOk(log, cells.Length, c, cells[c], stamp[c]))
    }

    constructor (n: nat)
      requires n > 0
      ensures Valid() && fresh(cells) && fresh(stamp) && cells.Length == n && log == []
    {
      cells := new int[n](_ => 0);
      stamp := new int[n](_ => 0);
      log := [];
      new;
      assert forall c: nat :: InCell([], n, c) == {};
    }

    /** Before 1970 the index is negative, and the add panics unless the minute is a
        multiple of the ring's length. */
    method Add(unix: int) returns (ok: bool)
      requires Valid()
      modifies this, cells, stamp
      ensures Valid() && (ok <==> Minute(unix) >= 0 || Minute(unix) % cells.Length == 0)
      ensures log == if ok then old(log) + [Minute(unix)] else old(log)
    {
      var min := Minute(unix);
      var idx := Remainder(min, cells.Length);
      ok := idx >= 0;
      if !ok { return; }
      ghost var more := log + [min];
      forall c | 0 <= c < cells.Length ensures AddEffect(log, min, cells.Length, c, cells[c], stamp[c]) {
        AddToCell(log, min, cells.Length, c, cells[c], stamp[c]);
      }
      assert AddEffect(log, min, cells.Length, idx, cells[idx], stamp[idx]);
      if stamp[idx] != min {
        cells[idx] := 0;
        stamp[idx] := min;
      }
      cells[idx] := cells[idx] + 1;
      log := more;
    }

    /** The sum over cells stamped in the window is the number of surviving entries
        in it. */
    method Sum(now: int) returns (sum: int)
      requires Valid()
      ensures sum == |Surviving(log, cells.Length, Minute(now) - cells.Length + 1)|
    {
      var cutoff := Minute(now) - cells.Length + 1;
      sum := 0;
      assert SurvivingUpTo(log, cells.Length, cutoff, 0) == {};
      for c := 0 to cells.Length
        invariant sum == |SurvivingUpTo(log, cells.Length, cutoff, c)|
      {
        SurvivingSplit(log, cells.Length, cutoff, c, stamp[c]);
        if stamp[c] >= cutoff {
          sum := sum + cells[c];
        }
      }
      assert SurvivingUpTo(log, cells.Length, cutoff, cells.Length) == Surviving(log, cells.Length, cutoff);
    }
  }

  // ---------- one add ----------

  /** How adding `min` changes cell `c`. */
  ghost predicate AddEffect(log: seq<int>, min: int, n: nat, c: nat, count: int, stamp: int)
    requires n > 0
  {
    if min % n != c then CellOk(log + [min], n, c, count, stamp)
    else CellOk(log + [min], n, c, if stamp == min then count + 1 else 1, min)
  }

  lemma AddToCell(log: seq<int>, min: int, n: nat, c: nat, count: int, stamp: int)
    requires n > 0 && CellOk(log, n, c, count, stamp)
    ensures AddEffect(log, min, n, c, count, stamp)
  {
    var more := log + [min];
    forall i: nat | i < |log| ensures Overwritten(more, i, n) <==> Overwritten(log, i, n) || (min % n == log[i] % n && min != log[i]) {
      if Overwritten(log, i, n) {
        var j :| i < j < |log| && log[j] % n == log[i] % n && log[j] != log[i];
        assert more[j] == log[j];
      }
      assert more[|log|] == min;
    }
    assert !Overwritten(more, |log|, n);
    if min % n != c {
      assert InCell(more, n, c) == InCell(log, n, c);
    } else if stamp == min {
      assert InCell(more, n, c) == InCell(log, n, c) + {|log|};
    } else {
      assert InCell(more, n, c) == {|log|};
    }
  }

  // ---------- summing the cells ----------

  ghost function SurvivingUpTo(log: seq<int>, n: nat, cutoff: int, c: nat): set<nat>
    requires n > 0
  {
    set i: nat | i < |log| && log[i] >= cutoff && !Overwritten(log, i, n) && log[i] % n < c
  }

  lemma SurvivingSplit(log: seq<int>, n: nat, cutoff: int, c: nat, stamp: int)
    requires n > 0 && forall i :: i in InCell(log, n, c) ==> log[i] == stamp
    ensures |SurvivingUpTo(log, n, cutoff, c + 1)| ==
            |SurvivingUpTo(log, n, cutoff, c)| + (if stamp >= cutoff then |InCell(log, n, c)| else 0)
  {
    var a, b := SurvivingUpTo(log, n, cutoff, c), SurvivingUpTo(log, n, cutoff, c + 1);
    if stamp >= cutoff {
      assert b == a + InCell(log, n, c);
      assert a !! InCell(log, n, c);
    } else {
      assert b == a;
    }
  }

  // ---------- against the log ----------

  /** Entries in the `n` minutes ending at `now`. */
  ghost function InWindow(log: seq<int>, n: nat, now: int): set<nat> {
    set i: nat | i < |log| && now - n < log[i] <= now
  }

  /** Every add is less than `n` minutes behind the newest so far. */
  predicate NeverLate(log: seq<int>, n: nat) {
    forall i, j :: 0 <= i < j < |log| ==> log[j] > log[i] - n
  }

  /** The ring equals the log: if no add came `n` or more minutes behind the newest
      and `now` is not before any of them, the ring's sum is exactly the number of
      adds in the `n` minutes ending at `now`, in any arrival order. */
  lemma RingEqualsLog(log: seq<int>, n: nat, now: int)
    requires n > 0 && NeverLate(log, n)
    requires forall i :: 0 <= i < |log| ==> log[i] <= now
    ensures Surviving(log, n, now - n + 1) == InWindow(log, n, now)
  {
    forall i: nat | i < |log| && now - n < log[i] ensures !Overwritten(log, i, n) {
      forall j | i < j < |log| && log[j] % n == log[i] % n ensures log[j] == log[i] {
        SameResidue(log[j], log[i], n);
      }
    }
  }

  /** Two minutes in one cell less than a lap apart are the same minute. */
  lemma SameResidue(a: int, b: int, n: nat)
    requires n > 0 && a % n == b % n && -(n as int) < a - b < n
    ensures a == b
  {
    var p, q := a / n, b / n;
    assert n * (p - q) == a - b;
    if p != q { MultipleAtLeast(n, p - q); }
  }

  /** In general the sum is the window count exactly when no entry of the window was
      overwritten (given that `now` is not before any entry). */
  lemma RingEqualsLogExactlyWhen(log: seq<int>, n: nat, now: int)
    requires n > 0 && forall i :: 0 <= i < |log| ==> log[i] <= now
    ensures |Surviving(log, n, now - n + 1)| == |InWindow(log, n, now)| <==>
            forall i: nat :: i in InWindow(log, n, now) ==> !Overwritten(log, i, n)
  {
    var s, w := Surviving(log, n, now - n + 1), InWindow(log, n, now);
    assert s <= w;
    if s != w {
      assert w == s + (w - s);
      var i :| i in w && i !in s;
    }
  }

  function Minutes(times: seq<int>): seq<int> {
    seq(|times|, i requires 0 <= i < |times| => Minute(times[i]))
  }

  /** In seconds: if no add comes a whole ring late, the ring's sum at `now` is the number
      of adds since the start of the running minute, less `n - 1` minutes. */
  lemma RingCountsSeconds(times: seq<int>, n: nat, now: int)
    requires n > 0 && NeverLate(Minutes(times), n) && forall i :: 0 <= i < |times| ==> 0 <= times[i] <= now
    requires 0 <= now
    ensures |Surviving(Minutes(times), n, Minute(now) - n + 1)| ==
            |set i: nat | i < |times| && now - now % 60 - 60 * (n - 1) <= times[i]|
  {
    var log := Minutes(times);
    forall i: nat | i < |times|
      ensures log[i] <= Minute(now) && (Minute(now) - n < log[i] <==> now - now % 60 - 60 * (n - 1) <= times[i])
    {
      WindowInSeconds(times[i], now, n);
      MinutesApart(now, Minute(now));
    }
    RingEqualsLog(log, n, Minute(now));
    assert InWindow(log, n, Minute(now)) == set i: nat | i < |times| && now - now % 60 - 60 * (n - 1) <= times[i];
  }

  /** A late add erases a newer minute: the very next sum is short. */
  lemma LateAddLosesNewer(m: nat, n: nat)
    requires 0 < n <= m
    ensures Overwritten([m, m - n], 0, n) && 0 in InWindow([m, m - n], n, m) && !NeverLate([m, m - n], n)
  {
    var log := [m, m - n];
    assert (m - n) % n == m % n by {
      DivModUnique(m - n, n, m / n - 1, m % n);
    }
    assert log[1] % n == log[0] % n && log[1] != log[0];
  }
}

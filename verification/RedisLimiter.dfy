/** The cross-node limiter: one Lua script over a sorted set, called by nodes whose
    clocks disagree. */
module RedisLimiters {
  import opened Sets
  import opened Text

  /** A sorted-set member: the call's nonce and the index of the charged event. */
  datatype Member = Member(nonce: string, i: nat)

  /** The sorted set: each member with its score, a millisecond stamp. */
  type ZSet = map<Member, int>

  datatype Reply = Reply(allowed: bool, remaining: int, reset: int)

  /** ZREMRANGEBYSCORE -inf cutoff: the cutoff itself goes too. */
  function Trim(z: ZSet, cutoff: int): ZSet {
    map m | m in z && z[m] > cutoff :: z[m]
  }

  /** `n` ZADDs at `now`, members `nonce:1` to `nonce:n`. */
  function AddAll(z: ZSet, nonce: string, n: nat, now: int): ZSet {
    if n == 0 then z else AddAll(z, nonce, n - 1, now)[Member(nonce, n) := now]
  }

  predicate Admits(z: ZSet, maxCount: int, window: int, now: int, n: nat) {
    |Trim(z, now - window)| + n <= maxCount
  }

  /** The set after one call of the script. */
  function Script(z: ZSet, maxCount: int, window: int, now: int, n: nat, nonce: string): ZSet {
    var t := Trim(z, now - window);
    if Admits(z, maxCount, window, now, n) then AddAll(t, nonce, n, now) else t
  }

  /** How much longer than the window an idle key lives, in milliseconds. */
  const EXPIRY_SLACK := 10_000

  /** A Redis key: its set, and when the server drops it (never, if there is no key). */
  datatype Key = Key(z: ZSet, expire: Option<int>)

  /** What the script finds when the server's clock reads `server`. */
  function Alive(k: Key, server: int): ZSet {
    if k.expire.Some? && server >= k.expire.value then map[] else k.z
  }

  /** The key after one call: an admission renews its expiry, an empty set drops it. */
  function After(k: Key, maxCount: int, window: int, c: Call, server: int): Key {
    var z := Script(Alive(k, server), maxCount, window, c.now, c.n, c.nonce);
    Key(z,
        if z == map[] then None
        else if Admits(Alive(k, server), maxCount, window, c.now, c.n) then Some(server + window + EXPIRY_SLACK)
        else k.expire)
  }

  ghost predicate IsOldest(z: ZSet, score: int) {
    (exists m :: m in z && z[m] == score) && forall m :: m in z ==> score <= z[m]
  }

  /** Time until the oldest entry ages out; the whole window when there is none. */
  ghost predicate ResetFor(z: ZSet, window: int, now: int, reset: int) {
    if z == map[] then reset == window
    else exists oldest :: IsOldest(z, oldest)
           && reset == if window - (now - oldest) < 0 then 0 else window - (now - oldest)
  }

  method Oldest(z: ZSet) returns (score: int)
    requires z != map[]
    ensures IsOldest(z, score)
  {
    var m :| m in z;
    score := z[m];
    var todo := z.Keys - {m};
    while todo != {}
      invariant todo <= z.Keys
      invariant exists k :: k in z && z[k] == score
      invariant forall k :: k in z && k !in todo ==> score <= z[k]
    {
      var k :| k in todo;
      if z[k] < score { score := z[k]; }
      todo := todo - {k};
    }
  }

  /** No member carries the nonce. */
  ghost predicate NewIn(z: ZSet, nonce: string) {
    forall m :: m in z ==> m.nonce != nonce
  }

  /** One Redis key holding the set. */
  class SortedSet {
    var z: ZSet
    var expire: Option<int>

    constructor ()
      ensures Value() == Key(map[], None)
    {
      z := map[];
      expire := None;
    }

    ghost function Value(): Key
      reads this
    {
      Key(z, expire)
    }

    /** `luaSlidingWindow`, at a moment when the server's clock reads `server`. */
    method SlidingWindow(maxCount: int, window: int, now: int, n: nat, nonce: string, server: int) returns (r: Reply)
      modifies this
      ensures Value() == After(old(Value()), maxCount, window, Call(now, n, nonce), server)
      ensures r.allowed == Admits(Alive(old(Value()), server), maxCount, window, now, n)
      ensures r.remaining == if r.allowed then maxCount - |Trim(Alive(old(Value()), server), now - window)| - n else 0
      ensures r.allowed && NewIn(old(z), nonce) ==> r.remaining + |z| == maxCount
      ensures ResetFor(z, window, now, r.reset)
    {
      if expire.Some? && server >= expire.value { z := map[]; }
      z := Trim(z, now - window);
      var count := |z|;
      if count + n <= maxCount {
        if NewIn(z, nonce) { AddAllSize(z, nonce, n, now); }
        AddMembers(now, n, nonce);
        expire := if z == map[] then None else Some(server + window + EXPIRY_SLACK);
        var reset := ResetAfter(window, now);
        return Reply(true, maxCount - count - n, reset);
      }
      if z == map[] { expire := None; }
      var reset := ResetAfter(window, now);
      return Reply(false, 0, reset);
    }

    /** The ZADD loop. */
    method AddMembers(now: int, n: nat, nonce: string)
      modifies this
      ensures z == AddAll(old(z), nonce, n, now) && expire == old(expire)
    {
      for i := 0 to n
        invariant z == AddAll(old(z), nonce, i, now) && expire == old(expire)
      {
        z := z[Member(nonce, i + 1) := now];
      }
    }

    method ResetAfter(window: int, now: int) returns (reset: int)
      ensures ResetFor(z, window, now, reset)
    {
      reset := window;
      if z != map[] {
        var oldest := Oldest(z);
        reset := window - (now - oldest);
        if reset < 0 { reset := 0; }
      }
    }
  }

  // ---------- runs under clock skew ----------

  datatype Call = Call(now: int, n: nat, nonce: string)

  function Run(calls: seq<Call>, maxCount: int, window: int): ZSet {
    if calls == [] then map[]
    else
      var c := calls[|calls| - 1];
      Script(Run(calls[..|calls| - 1], maxCount, window), maxCount, window, c.now, c.n, c.nonce)
  }

  predicate Admitted(calls: seq<Call>, maxCount: int, window: int)
    requires calls != []
  {
    var c := calls[|calls| - 1];
    Admits(Run(calls[..|calls| - 1], maxCount, window), maxCount, window, c.now, c.n)
  }

  /** How many events the run admitted with stamps in `[lo, hi)`. */
  function Stamped(calls: seq<Call>, maxCount: int, window: int, lo: int, hi: int): nat {
    if calls == [] then 0
    else
      var c := calls[|calls| - 1];
      Stamped(calls[..|calls| - 1], maxCount, window, lo, hi)
      + (if Admitted(calls, maxCount, window) && lo <= c.now < hi then c.n else 0)
  }

  predicate UniqueNonces(calls: seq<Call>) {
    forall i, j :: 0 <= i < j < |calls| ==> calls[i].nonce != calls[j].nonce
  }

  /** No call's clock is more than `skew` behind an earlier call's. */
  predicate SkewAtMost(calls: seq<Call>, skew: nat) {
    forall i, j :: 0 <= i < j < |calls| ==> calls[j].now >= calls[i].now - skew
  }

  lemma {:induction false} AddAllMembers(z: ZSet, nonce: string, n: nat, now: int)
    ensures forall m :: m in AddAll(z, nonce, n, now) ==>
              m in z || (m.nonce == nonce && m.i <= n && AddAll(z, nonce, n, now)[m] == now)
  {
    if n == 0 {
    } else {
      AddAllMembers(z, nonce, n - 1, now);
    }
  }

  /** Members come from the calls' nonces. */
  lemma {:induction false} MembersFromCalls(calls: seq<Call>, maxCount: int, window: int, m: Member)
    requires m in Run(calls, maxCount, window)
    ensures exists i :: 0 <= i < |calls| && calls[i].nonce == m.nonce
  {
    var k := |calls| - 1;
    var z := Run(calls[..k], maxCount, window);
    if m in z {
      MembersFromCalls(calls[..k], maxCount, window, m);
      var i :| 0 <= i < k && calls[..k][i].nonce == m.nonce;
      assert calls[i].nonce == m.nonce;
    } else {
      AddAllMembers(Trim(z, calls[k].now - window), calls[k].nonce, calls[k].n, calls[k].now);
      assert calls[k].nonce == m.nonce;
    }
  }

  /** No member carries the last call's nonce before that call. */
  lemma NewNonce(calls: seq<Call>, maxCount: int, window: int)
    requires UniqueNonces(calls) && calls != []
    ensures var k := |calls| - 1; forall m :: m in Run(calls[..k], maxCount, window) ==> m.nonce != calls[k].nonce
  {
    var k := |calls| - 1;
    forall m | m in Run(calls[..k], maxCount, window) ensures m.nonce != calls[k].nonce {
      MembersFromCalls(calls[..k], maxCount, window, m);
      var i :| 0 <= i < k && calls[..k][i].nonce == m.nonce;
      assert calls[i].nonce == m.nonce;
    }
  }

  /** The members stamped in `[lo, hi)`. */
  ghost function Within(z: ZSet, lo: int, hi: int): set<Member> {
    set m | m in z && lo <= z[m] < hi
  }

  lemma TrimWithin(z: ZSet, cutoff: int, lo: int, hi: int)
    requires cutoff < lo
    ensures Within(Trim(z, cutoff), lo, hi) == Within(z, lo, hi)
  {
  }

  lemma {:induction false} AddWithin(z: ZSet, nonce: string, n: nat, now: int, lo: int, hi: int)
    requires forall m :: m in z ==> m.nonce != nonce
    ensures |Within(AddAll(z, nonce, n, now), lo, hi)| == |Within(z, lo, hi)| + (if lo <= now < hi then n else 0)
  {
    if n == 0 {
    } else {
      AddWithin(z, nonce, n - 1, now, lo, hi);
      AddAllMembers(z, nonce, n - 1, now);
      AddOneWithin(AddAll(z, nonce, n - 1, now), Member(nonce, n), now, lo, hi);
    }
  }

  lemma AddOneWithin(z: ZSet, m: Member, now: int, lo: int, hi: int)
    requires m !in z
    ensures |Within(z[m := now], lo, hi)| == |Within(z, lo, hi)| + (if lo <= now < hi then 1 else 0)
  {
    if lo <= now < hi {
      assert Within(z[m := now], lo, hi) == Within(z, lo, hi) + {m};
    } else {
      assert Within(z[m := now], lo, hi) == Within(z, lo, hi);
    }
  }

  lemma ScriptWithin(z: ZSet, maxCount: int, window: int, c: Call, lo: int, hi: int)
    requires c.now - window < lo
    requires forall m :: m in z ==> m.nonce != c.nonce
    ensures var z' := Script(z, maxCount, window, c.now, c.n, c.nonce);
            |Within(z', lo, hi)| == |Within(z, lo, hi)|
              + (if Admits(z, maxCount, window, c.now, c.n) && lo <= c.now < hi then c.n else 0)
  {
    var t := Trim(z, c.now - window);
    TrimWithin(z, c.now - window, lo, hi);
    assert forall m :: m in t ==> m in z;
    if Admits(z, maxCount, window, c.now, c.n) {
      AddWithin(t, c.nonce, c.n, c.now, lo, hi);
    }
  }

  /** As long as no call's cutoff reaches `lo`, the set still holds every event the
      run admitted in `[lo, hi)`. */
  lemma {:induction false} StampedStillPresent(calls: seq<Call>, maxCount: int, window: int, lo: int, hi: int)
    requires UniqueNonces(calls)
    requires forall i :: 0 <= i < |calls| ==> calls[i].now - window < lo
    ensures |Within(Run(calls, maxCount, window), lo, hi)| == Stamped(calls, maxCount, window, lo, hi)
  {
    if calls == [] {
      assert Within(Run(calls, maxCount, window), lo, hi) == {};
    } else {
      var k := |calls| - 1;
      assert forall i :: 0 <= i < k ==> calls[..k][i] == calls[i];
      StampedStillPresent(calls[..k], maxCount, window, lo, hi);
      var z := Run(calls[..k], maxCount, window);
      NewNonce(calls, maxCount, window);
      ScriptWithin(z, maxCount, window, calls[k], lo, hi);
    }
  }

  lemma WithinTrimmed(z: ZSet, cutoff: int, lo: int, hi: int)
    requires cutoff < lo
    ensures |Within(z, lo, hi)| <= |Trim(z, cutoff)|
  {
    assert Within(z, lo, hi) <= Trim(z, cutoff).Keys;
    SubsetSize(Within(z, lo, hi), Trim(z, cutoff).Keys);
  }

  /** An admitted call sees every event stamped in the interval before it. */
  lemma AdmittedFits(calls: seq<Call>, c: Call, maxCount: nat, window: int, lo: int, hi: int)
    requires UniqueNonces(calls) && c.now - window < lo
    requires forall i :: 0 <= i < |calls| ==> calls[i].now - window < lo
    requires Admits(Run(calls, maxCount, window), maxCount, window, c.now, c.n)
    ensures Stamped(calls, maxCount, window, lo, hi) + c.n <= maxCount
  {
    StampedStillPresent(calls, maxCount, window, lo, hi);
    WithinTrimmed(Run(calls, maxCount, window), c.now - window, lo, hi);
  }

  lemma PrefixOk(calls: seq<Call>, skew: nat)
    requires UniqueNonces(calls) && SkewAtMost(calls, skew) && calls != []
    ensures UniqueNonces(calls[..|calls| - 1]) && SkewAtMost(calls[..|calls| - 1], skew)
  {
  }

  /** The shared budget under skew: with clocks disagreeing by at most `skew`, every
      half-open interval of stamps of length `window - skew` holds at most
      `maxCount` admitted events. */
  lemma {:induction false} SkewedWindowBound(calls: seq<Call>, maxCount: nat, window: int, skew: nat, lo: int)
    requires UniqueNonces(calls) && SkewAtMost(calls, skew)
    ensures Stamped(calls, maxCount, window, lo, lo + window - skew) <= maxCount
  {
    if calls == [] {
    } else {
      var k := |calls| - 1;
      var c := calls[k];
      var hi := lo + window - skew;
      PrefixOk(calls, skew);
      SkewedWindowBound(calls[..k], maxCount, window, skew, lo);
      if Admitted(calls, maxCount, window) && lo <= c.now < hi {
        forall i | 0 <= i < k ensures calls[..k][i].now - window < lo {
          assert calls[..k][i] == calls[i] && calls[k].now >= calls[i].now - skew;
        }
        AdmittedFits(calls[..k], c, maxCount, window, lo, hi);
      }
    }
  }

  /** The interval cannot be one millisecond longer: a call from a node ahead by
      the skew trims the first batch, even though it is refused itself. */
  lemma SkewedWindowBoundTight(maxCount: nat, window: int, skew: nat, t: int, a: string, b: string, c: string)
    requires 1 <= maxCount && skew <= window && a != b && b != c && a != c
    ensures var calls := [Call(t, maxCount, a), Call(t + window, maxCount + 1, b), Call(t + window - skew, maxCount, c)];
            && UniqueNonces(calls) && SkewAtMost(calls, skew)
            && Stamped(calls, maxCount, window, t, t + window - skew + 1) == 2 * maxCount
  {
    var calls := [Call(t, maxCount, a), Call(t + window, maxCount + 1, b), Call(t + window - skew, maxCount, c)];
    TrimmedBatch([], maxCount, window, t, a, b, t + window - skew + 1);
    var two := [] + [calls[0]] + [calls[1]];
    assert two + [calls[2]] == calls;
    FullBatch(maxCount, window, calls[2].now, c);
    RunOne(two, calls[2], maxCount, window, t, t + window - skew + 1);
  }

  /** A full batch followed by a refused oversized call leaves the set empty. */
  lemma TrimmedBatch(calls: seq<Call>, maxCount: nat, window: int, t: int, a: string, b: string, hi: int)
    requires Run(calls, maxCount, window) == map[] && t < hi
    ensures var two := calls + [Call(t, maxCount, a)] + [Call(t + window, maxCount + 1, b)];
            && Run(two, maxCount, window) == map[]
            && Stamped(two, maxCount, window, t, hi) == Stamped(calls, maxCount, window, t, hi) + maxCount
  {
    var one := calls + [Call(t, maxCount, a)];
    FullBatch(maxCount, window, t, a);
    RunOne(calls, Call(t, maxCount, a), maxCount, window, t, hi);
    OversizedTrims(maxCount, window, t, a, b);
    RunOne(one, Call(t + window, maxCount + 1, b), maxCount, window, t, hi);
  }

  lemma FullBatch(maxCount: nat, window: int, t: int, nonce: string)
    ensures Admits(map[], maxCount, window, t, maxCount)
    ensures Script(map[], maxCount, window, t, maxCount, nonce) == AddAll(map[], nonce, maxCount, t)
  {
    var empty: ZSet := map[];
    assert Trim(empty, t - window) == empty;
  }

  lemma OversizedTrims(maxCount: nat, window: int, t: int, a: string, b: string)
    ensures var z := AddAll(map[], a, maxCount, t);
            !Admits(z, maxCount, window, t + window, maxCount + 1)
            && Script(z, maxCount, window, t + window, maxCount + 1, b) == map[]
  {
    var empty: ZSet := map[];
    AddAllMembers(empty, a, maxCount, t);
    assert Trim(AddAll(empty, a, maxCount, t), t) == empty;
  }

  lemma RunOne(calls: seq<Call>, c: Call, maxCount: int, window: int, lo: int, hi: int)
    ensures Run(calls + [c], maxCount, window) ==
            Script(Run(calls, maxCount, window), maxCount, window, c.now, c.n, c.nonce)
    ensures Stamped(calls + [c], maxCount, window, lo, hi) == Stamped(calls, maxCount, window, lo, hi)
            + (if Admits(Run(calls, maxCount, window), maxCount, window, c.now, c.n) && lo <= c.now < hi then c.n else 0)
  {
    assert (calls + [c])[..|calls|] == calls;
  }

  // ---------- what is admitted, exactly ----------

  function Max(a: int, b: int): int { if a > b then a else b }

  /** How many admitted events count against a call at `peak`: those whose stamp is less
      than a window behind it and behind every call since theirs. */
  function Counting(calls: seq<Call>, maxCount: int, window: int, peak: int): nat {
    if calls == [] then 0
    else
      var c := calls[|calls| - 1];
      Counting(calls[..|calls| - 1], maxCount, window, Max(peak, c.now))
      + (if Admitted(calls, maxCount, window) && peak - c.now < window then c.n else 0)
  }

  lemma {:induction false} AddAllSize(z: ZSet, nonce: string, n: nat, now: int)
    requires forall m :: m in z ==> m.nonce != nonce
    ensures |AddAll(z, nonce, n, now)| == |z| + n
  {
    if n == 0 {
    } else {
      AddAllSize(z, nonce, n - 1, now);
      AddAllMembers(z, nonce, n - 1, now);
      AddOneSize(AddAll(z, nonce, n - 1, now), Member(nonce, n), now);
    }
  }

  lemma AddOneSize(z: ZSet, m: Member, now: int)
    requires m !in z
    ensures |z[m := now]| == |z| + 1
  {
    assert z[m := now].Keys == z.Keys + {m};
  }

  /** A later trim removes all of a call's events or none. */
  lemma {:induction false} TrimAdded(z: ZSet, nonce: string, n: nat, now: int, cutoff: int)
    requires forall m :: m in z ==> m.nonce != nonce
    ensures Trim(AddAll(z, nonce, n, now), cutoff) ==
            if now > cutoff then AddAll(Trim(z, cutoff), nonce, n, now) else Trim(z, cutoff)
  {
    if n == 0 {
    } else {
      TrimAdded(z, nonce, n - 1, now, cutoff);
      AddAllMembers(z, nonce, n - 1, now);
    }
  }

  lemma TrimTwice(z: ZSet, a: int, b: int)
    ensures Trim(Trim(z, a), b) == Trim(z, Max(b, a)) && Trim(z, a).Keys <= z.Keys
  {
  }

  lemma ScriptTrimmed(z: ZSet, maxCount: int, window: int, c: Call, peak: int)
    requires forall m :: m in z ==> m.nonce != c.nonce
    ensures |Trim(Script(z, maxCount, window, c.now, c.n, c.nonce), peak - window)| ==
            |Trim(z, Max(peak, c.now) - window)|
            + (if Admits(z, maxCount, window, c.now, c.n) && peak - c.now < window then c.n else 0)
  {
    var t := Trim(z, c.now - window);
    TrimTwice(z, c.now - window, peak - window);
    if Admits(z, maxCount, window, c.now, c.n) {
      TrimAdded(t, c.nonce, c.n, c.now, peak - window);
      if c.now > peak - window { AddAllSize(Trim(t, peak - window), c.nonce, c.n, c.now); }
    }
  }

  lemma {:induction false} TrimmedIsCounting(calls: seq<Call>, maxCount: int, window: int, peak: int)
    requires UniqueNonces(calls)
    ensures |Trim(Run(calls, maxCount, window), peak - window)| == Counting(calls, maxCount, window, peak)
  {
    if calls == [] {
      assert Trim(Run(calls, maxCount, window), peak - window) == map[];
    } else {
      var k := |calls| - 1;
      var z := Run(calls[..k], maxCount, window);
      TrimmedIsCounting(calls[..k], maxCount, window, Max(peak, calls[k].now));
      NewNonce(calls, maxCount, window);
      ScriptTrimmed(z, maxCount, window, calls[k], peak);
    }
  }

  /** Never too much and never too little, whatever the clocks: the next call is admitted
      if and only if its charge fits beside what still counts. */
  lemma AdmittedExactlyWhen(calls: seq<Call>, c: Call, maxCount: int, window: int)
    requires UniqueNonces(calls)
    ensures Admitted(calls + [c], maxCount, window) <==> Counting(calls, maxCount, window, c.now) + c.n <= maxCount
  {
    AdmittedLast(calls, c, maxCount, window);
    TrimmedIsCounting(calls, maxCount, window, c.now);
  }

  lemma AdmittedLast(calls: seq<Call>, c: Call, maxCount: int, window: int)
    ensures Admitted(calls + [c], maxCount, window) <==>
            |Trim(Run(calls, maxCount, window), c.now - window)| + c.n <= maxCount
  {
    assert (calls + [c])[..|calls|] == calls;
  }

  /** If no earlier clock was ahead, what counts is what was admitted with a stamp in the
      window that ends at the call: the script decides as the full log would. */
  lemma {:induction false} CountingIsStamped(calls: seq<Call>, maxCount: int, window: int, now: int)
    requires forall i :: 0 <= i < |calls| ==> calls[i].now <= now
    ensures Counting(calls, maxCount, window, now) == Stamped(calls, maxCount, window, now - window + 1, now + 1)
  {
    if calls == [] {
    } else {
      var k := |calls| - 1;
      assert forall i :: 0 <= i < k ==> calls[..k][i] == calls[i];
      CountingIsStamped(calls[..k], maxCount, window, now);
    }
  }

  lemma ScriptEqualsLog(calls: seq<Call>, c: Call, maxCount: int, window: int)
    requires UniqueNonces(calls) && forall i :: 0 <= i < |calls| ==> calls[i].now <= c.now
    ensures Admitted(calls + [c], maxCount, window) <==>
            Stamped(calls, maxCount, window, c.now - window + 1, c.now + 1) + c.n <= maxCount
  {
    AdmittedExactlyWhen(calls, c, maxCount, window);
    CountingIsStamped(calls, maxCount, window, c.now);
  }

  /** The reported reset is exact: something that counts now stops counting after that
      many milliseconds, and nothing does a millisecond before. */
  lemma ResetIsExact(z: ZSet, window: int, now: int, reset: int)
    requires z != map[] && ResetFor(z, window, now, reset) && forall m :: m in z ==> z[m] > now - window
    ensures reset > 0 && |Trim(z, now + reset - window)| < |z| && Trim(z, now + reset - 1 - window) == z
  {
    var oldest :| IsOldest(z, oldest) && reset == window - (now - oldest);
    var m :| m in z && z[m] == oldest;
    var t := Trim(z, now + reset - window);
    assert t.Keys <= z.Keys - {m};
    SubsetSize(t.Keys, z.Keys - {m});
  }

  // ---------- the key's own expiry ----------

  /** The key after a run whose calls found the server's clock at `servers`. */
  function ExpiringRun(calls: seq<Call>, servers: seq<int>, maxCount: int, window: int): Key
    requires |servers| == |calls|
  {
    if calls == [] then Key(map[], None)
    else
      var k := |calls| - 1;
      After(ExpiringRun(calls[..k], servers[..k], maxCount, window), maxCount, window, calls[k], servers[k])
  }

  /** The server's clock runs forward, and no caller's is off by more than `drift`. */
  predicate Drifting(calls: seq<Call>, servers: seq<int>, drift: nat)
    requires |servers| == |calls|
  {
    && (forall i :: 0 <= i < |calls| ==> -(drift as int) <= calls[i].now - servers[i] <= drift)
    && (forall i, j :: 0 <= i < j < |servers| ==> servers[i] <= servers[j])
  }

  /** The key outlives every stamp by the window and what the drift leaves of the slack. */
  ghost predicate Outlives(k: Key, window: int, drift: nat) {
    k.z != map[] ==>
      k.expire.Some? && forall m :: m in k.z ==> k.z[m] <= k.expire.value - window - EXPIRY_SLACK + drift
  }

  /** No key lives longer than an admission just now would grant it. */
  ghost predicate NotBefore(k: Key, window: int, server: int) {
    k.expire.Some? ==> k.expire.value <= server + window + EXPIRY_SLACK
  }

  /** An expired key holds nothing that the trim would have kept. */
  lemma ExpiredIsTrimmed(k: Key, maxCount: int, window: int, c: Call, server: int, drift: nat)
    requires Outlives(k, window, drift) && server - drift <= c.now && 2 * drift <= EXPIRY_SLACK
    ensures Trim(Alive(k, server), c.now - window) == Trim(k.z, c.now - window)
  {
    if k.expire.Some? && server >= k.expire.value {
      assert forall m :: m in k.z ==> k.z[m] <= c.now - window;
    }
  }

  lemma AfterOutlives(k: Key, maxCount: int, window: int, c: Call, server: int, drift: nat)
    requires Outlives(k, window, drift) && NotBefore(k, window, server) && c.now <= server + drift
    ensures Outlives(After(k, maxCount, window, c, server), window, drift)
    ensures NotBefore(After(k, maxCount, window, c, server), window, server)
  {
    var z := Alive(k, server);
    AddAllStamps(Trim(z, c.now - window), c.nonce, c.n, c.now);
  }

  lemma {:induction false} AddAllStamps(z: ZSet, nonce: string, n: nat, now: int)
    ensures forall m :: m in AddAll(z, nonce, n, now) ==>
              AddAll(z, nonce, n, now)[m] == now || (m in z && AddAll(z, nonce, n, now)[m] == z[m])
  {
    if n == 0 {
    } else {
      AddAllStamps(z, nonce, n - 1, now);
    }
  }

  lemma {:induction false} ExpiryKeeps(calls: seq<Call>, servers: seq<int>, maxCount: int, window: int, drift: nat)
    requires |servers| == |calls| && Drifting(calls, servers, drift) && 2 * drift <= EXPIRY_SLACK
    ensures var k := ExpiringRun(calls, servers, maxCount, window);
            && k.z == Run(calls, maxCount, window) && Outlives(k, window, drift)
            && (calls != [] ==> NotBefore(k, window, servers[|servers| - 1])) && (calls == [] ==> k.expire == None)
  {
    if calls == [] {
    } else {
      var k := |calls| - 1;
      assert forall i :: 0 <= i < k ==> calls[..k][i] == calls[i] && servers[..k][i] == servers[i];
      ExpiryKeeps(calls[..k], servers[..k], maxCount, window, drift);
      var key := ExpiringRun(calls[..k], servers[..k], maxCount, window);
      assert NotBefore(key, window, servers[k]);
      ScriptIgnoresExpiry(key, maxCount, window, calls[k], servers[k], drift);
      AfterOutlives(key, maxCount, window, calls[k], servers[k], drift);
    }
  }

  lemma ScriptIgnoresExpiry(k: Key, maxCount: int, window: int, c: Call, server: int, drift: nat)
    requires Outlives(k, window, drift) && server - drift <= c.now && 2 * drift <= EXPIRY_SLACK
    ensures After(k, maxCount, window, c, server).z == Script(k.z, maxCount, window, c.now, c.n, c.nonce)
  {
    ExpiredIsTrimmed(k, maxCount, window, c, server, drift);
  }

  /** PEXPIRE changes nothing: with callers' clocks within five seconds of the
      server's, half the slack, the key holds after every run what it would hold without expiring. */
  lemma ExpiryIsInvisible(calls: seq<Call>, servers: seq<int>, maxCount: int, window: int, drift: nat)
    requires |servers| == |calls| && Drifting(calls, servers, drift) && drift <= 5_000
    ensures ExpiringRun(calls, servers, maxCount, window).z == Run(calls, maxCount, window)
  {
    ExpiryKeeps(calls, servers, maxCount, window, drift);
  }

  /** With any more drift it does: an event stamped ahead is forgotten while a caller
      whose clock is behind would still count it. */
  lemma ExpiryVisibleBeyondSlack(window: nat, t: int, drift: nat, a: string, b: string)
    requires 5_000 < drift <= window && a != b
    ensures var calls := [Call(t + drift, 1, a), Call(t + window + 10_000 - drift, 1, b)];
            var servers := [t, t + window + 10_000];
            && Drifting(calls, servers, drift)
            && Member(a, 1) in Run(calls, 2, window) && Member(a, 1) !in ExpiringRun(calls, servers, 2, window).z
  {
    ForgottenEvent(Call(t + drift, 1, a), Call(t + window + EXPIRY_SLACK - drift, 1, b), t, t + window + EXPIRY_SLACK, window);
  }

  /** The second call finds the key expired, while its own window still has the first. */
  lemma ForgottenEvent(c: Call, d: Call, server: int, server': int, window: nat)
    requires c.n == d.n == 1 && c.nonce != d.nonce && c.now > d.now - window && server' >= server + window + EXPIRY_SLACK
    ensures Member(c.nonce, 1) in Run([c, d], 2, window)
    ensures Member(c.nonce, 1) !in ExpiringRun([c, d], [server, server'], 2, window).z
  {
    FirstCall(c, server, window);
    TwoCalls(c, d, server, server', window);
    SecondCall(map[Member(c.nonce, 1) := c.now], d, window);
  }

  lemma TwoCalls(c: Call, d: Call, server: int, server': int, window: int)
    ensures Run([c, d], 2, window) == Script(Run([c], 2, window), 2, window, d.now, d.n, d.nonce)
    ensures ExpiringRun([c, d], [server, server'], 2, window)
         == After(ExpiringRun([c], [server], 2, window), 2, window, d, server')
  {
    assert [c, d][..1] == [c] && [server, server'][..1] == [server];
  }

  lemma FirstCall(c: Call, server: int, window: nat)
    requires c.n == 1
    ensures Run([c], 2, window) == map[Member(c.nonce, 1) := c.now]
    ensures ExpiringRun([c], [server], 2, window) == Key(map[Member(c.nonce, 1) := c.now], Some(server + window + EXPIRY_SLACK))
  {
    assert [c][..0] == [] && [server][..0] == [];
    assert Trim(map[], c.now - window) == map[];
    assert AddAll(map[], c.nonce, 1, c.now) == map[Member(c.nonce, 1) := c.now];
  }

  lemma SecondCall(z: ZSet, c: Call, window: nat)
    requires |z| == 1 && c.n == 1
    ensures forall m :: m in z && m.nonce != c.nonce && z[m] > c.now - window ==> m in Script(z, 2, window, c.now, c.n, c.nonce)
    ensures forall m: Member :: m.nonce != c.nonce ==> m !in Script(map[], 2, window, c.now, c.n, c.nonce)
  {
    assert AddAll(Trim(z, c.now - window), c.nonce, 1, c.now) == Trim(z, c.now - window)[Member(c.nonce, 1) := c.now];
    assert Trim(map[], c.now - window) == map[];
    assert AddAll(map[], c.nonce, 1, c.now) == map[Member(c.nonce, 1) := c.now];
    assert Trim(z, c.now - window).Keys <= z.Keys;
  }
}

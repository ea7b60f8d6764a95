/** The in-process sliding-window limiter: per-key event lists trimmed on touch,
    against the full admission log. */
module MemoryLimiters {
  import opened Times
  import opened Limits

  datatype Decision = Decision(allowed: bool, remaining: int, reset: int)

  const UNLIMITED_DECISION := Decision(true, -1, 0)

  type Buckets = map<string, seq<int>>

  /** What is left after dropping the leading events before `cutoff`. */
  function DropOld(events: seq<int>, cutoff: int): seq<int> {
    if events != [] && events[0] < cutoff then DropOld(events[1..], cutoff) else events
  }

  function Bucket(b: Buckets, key: string): seq<int> {
    if key in b then b[key] else []
  }

  function Copies(t: int, n: nat): (s: seq<int>)
    ensures |s| == n && forall i :: 0 <= i < n ==> s[i] == t
  {
    seq(n, _ => t)
  }

  /** Negative or zero charges count as one. */
  function Charge(n: int): nat {
    if n <= 0 then 1 else n
  }

  function Wait(events: seq<int>, per: int, now: int): int {
    if events == [] || events[0] + per - now < 0 then 0 else events[0] + per - now
  }

  /** The trimmed bucket has room for the charge. */
  predicate Admits(b: Buckets, key: string, n: int, lim: Limit, now: int) {
    |DropOld(Bucket(b, key), now - lim.per)| + Charge(n) <= Ceiling(lim)
  }

  /** The bucket map after a call under a normalized, limited budget. */
  function Allow(b: Buckets, key: string, n: int, lim: Limit, now: int): Buckets {
    var kept := DropOld(Bucket(b, key), now - lim.per);
    b[key := if Admits(b, key, n, lim, now) then kept + Copies(now, Charge(n)) else kept]
  }

  function Swept(b: Buckets, cutoff: int): Buckets {
    map k | k in b && DropOld(b[k], cutoff) != [] :: DropOld(b[k], cutoff)
  }

  method CountOld(events: seq<int>, cutoff: int) returns (drop: nat)
    ensures drop <= |events| && events[drop..] == DropOld(events, cutoff)
  {
    drop := 0;
    assert events[0..] == events;
    while drop < |events| && events[drop] < cutoff
      invariant 0 <= drop <= |events|
      invariant DropOld(events, cutoff) == DropOld(events[drop..], cutoff)
    {
      assert events[drop..][1..] == events[drop + 1..];
      drop := drop + 1;
    }
  }

  /** One event per unit charged. */
  method Append(events: seq<int>, now: int, charge: nat) returns (all: seq<int>)
    ensures all == events + Copies(now, charge)
  {
    all := events;
    for i := 0 to charge
      invariant all == events + Copies(now, i)
    {
      all := all + [now];
    }
  }

  method ResetAfter(events: seq<int>, per: int, now: int) returns (reset: int)
    ensures reset == Wait(events, per, now)
  {
    reset := 0;
    if |events| > 0 {
      reset := events[0] + per - now;
      if reset < 0 { reset := 0; }
    }
  }

  class MemoryLimiter {
    const limit: Limit
    var buckets: Buckets

    constructor (limit: Limit)
      ensures this.limit == Normalize(limit) && buckets == map[]
    {
      this.limit := Normalize(limit);
      buckets := map[];
    }

    method AllowWithLimit(key: string, n: int, lim: Limit, now: int) returns (d: Decision)
      modifies this
      ensures Unlimited(lim) ==> d.allowed && d.remaining == -1 && d.reset == 0 && buckets == old(buckets)
      ensures !Unlimited(lim) ==> buckets == Allow(old(buckets), key, n, Normalize(lim), now)
      ensures !Unlimited(lim) ==> d.allowed == Admits(old(buckets), key, n, Normalize(lim), now)
      ensures !Unlimited(lim) ==>
                && d.remaining == (if d.allowed then Ceiling(Normalize(lim)) - |buckets[key]| else 0)
                && d.reset == Wait(buckets[key], Normalize(lim).per, now)
    {
      var l := Normalize(lim);
      if l.rate == 0 { return UNLIMITED_DECISION; }
      var charge := n;
      if charge <= 0 { charge := 1; }
      var cutoff := now - l.per;
      if key !in buckets { buckets := buckets[key := []]; }
      var events := buckets[key];
      var drop := CountOld(events, cutoff);
      events := events[drop..];
      buckets := buckets[key := events];
      assert events == DropOld(Bucket(old(buckets), key), cutoff) && buckets == old(buckets)[key := events];
      var ceiling := l.burst;
      if ceiling < l.rate { ceiling := l.rate; }
      if |events| + charge > ceiling {
        var reset := ResetAfter(events, l.per, now);
        return Decision(false, 0, reset);
      }
      events := Append(events, now, charge);
      buckets := buckets[key := events];
      var remaining := ceiling - |events|;
      if remaining < 0 { remaining := 0; }
      var reset := ResetAfter(events, l.per, now);
      return Decision(true, remaining, reset);
    }

    /** The body of the sweep loop. */
    method TrimKey(k: string, cutoff: int) returns (gone: bool)
      requires k in buckets
      modifies this
      ensures gone == (DropOld(old(buckets)[k], cutoff) == [])
      ensures buckets == TrimmedAt(old(buckets), k, cutoff)
    {
      var drop := CountOld(buckets[k], cutoff);
      buckets := buckets[k := buckets[k][drop..]];
      gone := |buckets[k]| == 0;
      if gone { buckets := buckets - {k}; }
    }

    /** Trims every bucket with the limiter's own window and drops empty ones. */
    method Sweep(now: int) returns (removed: nat)
      modifies this
      ensures buckets == Swept(old(buckets), now - limit.per)
      ensures removed == |old(buckets)| - |buckets|
    {
      removed := 0;
      var cutoff := now - limit.per;
      var todo := buckets.Keys;
      assert buckets == SweptPart(buckets, {}, cutoff);
      ghost var done: set<string> := {};
      while todo != {}
        invariant done + todo == old(buckets).Keys && done !! todo
        invariant buckets == SweptPart(old(buckets), done, cutoff)
        invariant removed == |old(buckets)| - |buckets|
      {
        var k :| k in todo;
        SweepOne(old(buckets), done, k, cutoff);
        assert buckets[k] == old(buckets)[k];
        var gone := TrimKey(k, cutoff);
        if gone { removed := removed + 1; }
        todo := todo - {k};
        done := done + {k};
      }
      SweptAll(old(buckets), done, cutoff);
    }
  }

  /** A sweep that has got through the keys in `done`. */
  ghost function SweptPart(b: Buckets, done: set<string>, cutoff: int): Buckets {
    map k | k in b && (k in done ==> DropOld(b[k], cutoff) != []) :: if k in done then DropOld(b[k], cutoff) else b[k]
  }

  /** One bucket trimmed, and dropped if nothing is left. */
  function TrimmedAt(b: Buckets, k: string, cutoff: int): Buckets
    requires k in b
  {
    var t := b[k := DropOld(b[k], cutoff)];
    if t[k] == [] then t - {k} else t
  }

  lemma SweptAll(b: Buckets, done: set<string>, cutoff: int)
    requires done == b.Keys
    ensures SweptPart(b, done, cutoff) == Swept(b, cutoff)
  {
  }

  lemma SweepOne(b: Buckets, done: set<string>, k: string, cutoff: int)
    requires k in b && k !in done
    ensures var cur := SweptPart(b, done, cutoff);
            var kept := DropOld(b[k], cutoff);
            var next := SweptPart(b, done + {k}, cutoff);
            && k in cur && cur[k] == b[k] && next == TrimmedAt(cur, k, cutoff)
            && |next| == |cur| - (if kept == [] then 1 else 0)
  {
    var cur := SweptPart(b, done, cutoff);
    var kept := DropOld(b[k], cutoff);
    var next := SweptPart(b, done + {k}, cutoff);
    if kept == [] {
      assert next == cur[k := kept] - {k};
      assert next.Keys == cur.Keys - {k};
    } else {
      assert next == cur[k := kept];
      assert next.Keys == cur.Keys;
    }
  }

  // ---------- the log it stands for ----------

  /** How many logged events are at or after `from`. */
  function CountSince(log: seq<int>, from: int): nat {
    if log == [] then 0
    else CountSince(log[..|log| - 1], from) + (if log[|log| - 1] >= from then 1 else 0)
  }

  ghost predicate Ascending(log: seq<int>) {
    forall i, j :: 0 <= i < j < |log| ==> log[i] <= log[j]
  }

  lemma {:induction false} SuffixCount(log: seq<int>, d: nat, from: int)
    requires d <= |log|
    requires forall i :: 0 <= i < d ==> log[i] < from
    requires forall i :: d <= i < |log| ==> log[i] >= from
    ensures CountSince(log, from) == |log| - d
  {
    if log == [] {
    } else {
      var k := |log| - 1;
      SuffixCount(log[..k], if d > k then k else d, from);
    }
  }

  /** On an ascending list, dropping old events leaves exactly the recent ones. */
  lemma {:induction false} DropOldAscending(events: seq<int>, cutoff: int)
    requires Ascending(events)
    ensures var kept := DropOld(events, cutoff);
            && |kept| <= |events| && kept == events[|events| - |kept|..]
            && (forall i :: 0 <= i < |events| - |kept| ==> events[i] < cutoff)
            && (forall i :: |events| - |kept| <= i < |events| ==> events[i] >= cutoff)
  {
    if events == [] || events[0] >= cutoff {
    } else {
      DropOldAscending(events[1..], cutoff);
    }
  }

  datatype Op = Call(key: string, n: int, at: int) | SweepAt(at: int)

  /** The limiter beside the full log of what it admitted. */
  datatype State = State(buckets: Buckets, log: map<string, seq<int>>, now: int, admitted: seq<bool>)

  /** The reference limiter: count the whole log, forget nothing. */
  predicate LogAdmits(log: map<string, seq<int>>, key: string, n: int, lim: Limit, now: int) {
    CountSince(Bucket(log, key), now - lim.per) <= Ceiling(lim) - Charge(n)
  }

  function LogAllow(log: map<string, seq<int>>, key: string, n: int, lim: Limit, now: int): map<string, seq<int>> {
    if LogAdmits(log, key, n, lim, now) then log[key := Bucket(log, key) + Copies(now, Charge(n))] else log
  }

  /** The budget a call works with. */
  function Budget(limits: string -> Limit, key: string): Limit {
    Normalize(limits(key))
  }

  /** One step; an unlimited call is admitted and leaves no trace. */
  function Next(s: State, op: Op, limits: string -> Limit, sweepPer: int): State {
    match op
    case Call(key, n, at) =>
      if Unlimited(limits(key)) then s.(now := at, admitted := s.admitted + [true])
      else LimitedCall(s, key, n, Budget(limits, key), at)
    case SweepAt(at) => s.(buckets := Swept(s.buckets, at - sweepPer), now := at)
  }

  function LimitedCall(s: State, key: string, n: int, lim: Limit, at: int): State {
    var ok := Admits(s.buckets, key, n, lim, at);
    State(Allow(s.buckets, key, n, lim, at),
          if ok then s.log[key := Bucket(s.log, key) + Copies(at, Charge(n))] else s.log,
          at, s.admitted + [ok])
  }

  function Run(ops: seq<Op>, limits: string -> Limit, sweepPer: int, start: int): State {
    if ops == [] then State(map[], map[], start, [])
    else Next(Run(ops[..|ops| - 1], limits, sweepPer, start), ops[|ops| - 1], limits, sweepPer)
  }

  /** The reference run: sweeps do nothing, decisions come from the log. */
  datatype LogState = LogState(log: map<string, seq<int>>, admitted: seq<bool>)

  function LogRun(ops: seq<Op>, limits: string -> Limit): LogState {
    if ops == [] then LogState(map[], []) else LogNext(LogRun(ops[..|ops| - 1], limits), ops[|ops| - 1], limits)
  }

  function LogNext(l: LogState, op: Op, limits: string -> Limit): LogState {
    match op
    case Call(key, n, at) =>
      if Unlimited(limits(key)) then l.(admitted := l.admitted + [true])
      else
        var lim := Budget(limits, key);
        LogState(LogAllow(l.log, key, n, lim, at), l.admitted + [LogAdmits(l.log, key, n, lim, at)])
    case SweepAt(_) => l
  }

  /** The clock never runs backwards, from `start` on. */
  predicate ClockForward(ops: seq<Op>, start: int) {
    && (forall i :: 0 <= i < |ops| ==> start <= ops[i].at)
    && (forall i, j :: 0 <= i < j < |ops| ==> ops[i].at <= ops[j].at)
  }

  lemma ClockPrefix(ops: seq<Op>, start: int)
    requires ClockForward(ops, start) && ops != []
    ensures var k := |ops| - 1;
            ClockForward(ops[..k], start) && Last(ops[..k], start) <= ops[k].at
  {
    var k := |ops| - 1;
    assert forall i :: 0 <= i < k ==> ops[..k][i] == ops[i];
  }

  /** The latest clock reading. */
  function Last(ops: seq<Op>, start: int): int {
    if ops == [] then start else ops[|ops| - 1].at
  }

  /** The bucket is the log minus events no later call will look at. */
  ghost predicate Covers(bucket: seq<int>, log: seq<int>, horizon: int) {
    && Ascending(log)
    && |bucket| <= |log| && bucket == log[|log| - |bucket|..]
    && forall i :: 0 <= i < |log| - |bucket| ==> log[i] < horizon
  }

  /** ... and nothing is logged after `now`. */
  ghost predicate CoversAt(bucket: seq<int>, log: seq<int>, now: int, per: int) {
    Covers(bucket, log, now - per) && forall i :: 0 <= i < |log| ==> log[i] <= now
  }

  ghost predicate KeyInv(s: State, key: string, per: int) {
    CoversAt(Bucket(s.buckets, key), Bucket(s.log, key), s.now, per)
  }

  /** Trimming a covering bucket leaves exactly the logged events in the window. */
  lemma TrimmedIsWindow(bucket: seq<int>, log: seq<int>, horizon: int, cutoff: int)
    requires Covers(bucket, log, horizon) && horizon <= cutoff
    ensures Covers(DropOld(bucket, cutoff), log, cutoff)
    ensures |DropOld(bucket, cutoff)| == CountSince(log, cutoff)
  {
    assert forall i :: 0 <= i < |bucket| ==> bucket[i] == log[|log| - |bucket| + i];
    DropOldAscending(bucket, cutoff);
    var kept := DropOld(bucket, cutoff);
    var d := |log| - |kept|;
    assert kept == log[d..];
    forall i | d <= i < |log| ensures log[i] >= cutoff {
      assert bucket[i - (|log| - |bucket|)] == log[i];
    }
    forall i | 0 <= i < d ensures log[i] < cutoff {
      if i >= |log| - |bucket| { assert bucket[i - (|log| - |bucket|)] == log[i]; }
    }
    SuffixCount(log, d, cutoff);
  }

  /** A sweep whose window is no shorter than the key's forgets nothing the key needs. */
  lemma SweepKeepsKey(s: State, at: int, key: string, per: int, sweepPer: int)
    requires KeyInv(s, key, per) && s.now <= at && per <= sweepPer
    ensures KeyInv(s.(buckets := Swept(s.buckets, at - sweepPer), now := at), key, per)
  {
    var bucket, log := Bucket(s.buckets, key), Bucket(s.log, key);
    assert forall i :: 0 <= i < |bucket| ==> bucket[i] == log[|log| - |bucket| + i];
    DropOldAscending(bucket, at - sweepPer);
    var kept := DropOld(bucket, at - sweepPer);
    assert Bucket(Swept(s.buckets, at - sweepPer), key) == kept;
    assert kept == log[|log| - |kept|..];
    forall i | 0 <= i < |log| - |kept| ensures log[i] < at - per {
      if i >= |log| - |bucket| { assert bucket[i - (|log| - |bucket|)] == log[i]; }
    }
  }

  lemma CoversLater(bucket: seq<int>, log: seq<int>, horizon: int, later: int)
    requires Covers(bucket, log, horizon) && horizon <= later
    ensures Covers(bucket, log, later)
  {
  }

  lemma CoversAppend(bucket: seq<int>, log: seq<int>, horizon: int, t: int, n: nat)
    requires Covers(bucket, log, horizon) && forall i :: 0 <= i < |log| ==> log[i] <= t
    ensures Covers(bucket + Copies(t, n), log + Copies(t, n), horizon)
    ensures forall i :: 0 <= i < |log + Copies(t, n)| ==> (log + Copies(t, n))[i] <= t
  {
    var more := Copies(t, n);
    assert (log + more)[|log| - |bucket|..] == bucket + more;
  }

  lemma AppendCovers(bucket: seq<int>, log: seq<int>, at: int, per: int, n: nat)
    requires Covers(DropOld(bucket, at - per), log, at - per) && forall i :: 0 <= i < |log| ==> log[i] <= at
    ensures CoversAt(DropOld(bucket, at - per) + Copies(at, n), log + Copies(at, n), at, per)
  {
    CoversAppend(DropOld(bucket, at - per), log, at - per, at, n);
  }

  /** A call decides as the log would. */
  lemma CallDecidesByLog(s: State, key: string, n: int, lim: Limit, at: int)
    requires KeyInv(s, key, lim.per) && s.now <= at
    ensures Admits(s.buckets, key, n, lim, at) == LogAdmits(s.log, key, n, lim, at)
  {
    TrimmedIsWindow(Bucket(s.buckets, key), Bucket(s.log, key), s.now - lim.per, at - lim.per);
  }

  /** How many events the call adds. */
  ghost function Admitted(s: State, key: string, n: int, lim: Limit, at: int): nat {
    if Admits(s.buckets, key, n, lim, at) then Charge(n) else 0
  }

  /** The touched bucket and log after a call. */
  lemma CallTouches(s: State, key: string, n: int, at: int, limits: string -> Limit, sweepPer: int)
    requires !Unlimited(limits(key))
    ensures var s' := Next(s, Call(key, n, at), limits, sweepPer);
            var kept, log := DropOld(Bucket(s.buckets, key), at - Budget(limits, key).per), Bucket(s.log, key);
            var c := Admitted(s, key, n, Budget(limits, key), at);
            && s'.now == at && Bucket(s'.buckets, key) == kept + Copies(at, c) && Bucket(s'.log, key) == log + Copies(at, c)
  {
  }

  lemma CallKeepsOwnKey(s: State, key: string, n: int, at: int, limits: string -> Limit, sweepPer: int)
    requires s.now <= at && KeyInv(s, key, Budget(limits, key).per) && !Unlimited(limits(key))
    ensures KeyInv(Next(s, Call(key, n, at), limits, sweepPer), key, Budget(limits, key).per)
  {
    var lim := Budget(limits, key);
    var bucket, log, c := Bucket(s.buckets, key), Bucket(s.log, key), Admitted(s, key, n, lim, at);
    CallTouches(s, key, n, at, limits, sweepPer);
    CallCovers(bucket, log, s.now, at, lim.per, c);
  }

  lemma CallCovers(bucket: seq<int>, log: seq<int>, now: int, at: int, per: int, n: nat)
    requires CoversAt(bucket, log, now, per) && now <= at
    ensures CoversAt(DropOld(bucket, at - per) + Copies(at, n), log + Copies(at, n), at, per)
  {
    TrimmedIsWindow(bucket, log, now - per, at - per);
    AppendCovers(bucket, log, at, per, n);
  }

  lemma CallKeepsOtherKey(s: State, other: string, n: int, at: int, key: string, limits: string -> Limit, sweepPer: int)
    requires s.now <= at && (key != other || Unlimited(limits(key))) && KeyInv(s, key, Budget(limits, key).per)
    ensures KeyInv(Next(s, Call(other, n, at), limits, sweepPer), key, Budget(limits, key).per)
  {
    var s' := Next(s, Call(other, n, at), limits, sweepPer);
    assert Bucket(s'.buckets, key) == Bucket(s.buckets, key) && Bucket(s'.log, key) == Bucket(s.log, key);
    CoversLater(Bucket(s.buckets, key), Bucket(s.log, key), s.now - Budget(limits, key).per, at - Budget(limits, key).per);
  }

  lemma NextKeepsKey(s: State, op: Op, limits: string -> Limit, sweepPer: int, key: string)
    requires KeyInv(s, key, Budget(limits, key).per) && s.now <= op.at && Budget(limits, key).per <= sweepPer
    ensures KeyInv(Next(s, op, limits, sweepPer), key, Budget(limits, key).per)
  {
    match op
    case Call(other, n, at) =>
      if key == other && !Unlimited(limits(key)) {
        CallKeepsOwnKey(s, key, n, at, limits, sweepPer);
      } else {
        CallKeepsOtherKey(s, other, n, at, key, limits, sweepPer);
      }
    case SweepAt(at) => SweepKeepsKey(s, at, key, Budget(limits, key).per, sweepPer);
  }

  lemma {:induction false} RunInv(ops: seq<Op>, limits: string -> Limit, sweepPer: int, start: int, key: string)
    requires ClockForward(ops, start) && Budget(limits, key).per <= sweepPer
    ensures KeyInv(Run(ops, limits, sweepPer, start), key, Budget(limits, key).per)
    ensures Run(ops, limits, sweepPer, start).now == Last(ops, start)
  {
    if ops == [] {
    } else {
      var k := |ops| - 1;
      ClockPrefix(ops, start);
      RunInv(ops[..k], limits, sweepPer, start, key);
      NextKeepsKey(Run(ops[..k], limits, sweepPer, start), ops[k], limits, sweepPer, key);
    }
  }

  /** The limiter equals the log: over every run with a forward clock and one fixed
      budget per key, the trimmed buckets make exactly the decisions the full log
      makes, and interleaved sweeps change none of them. */
  lemma {:induction false} LimiterEqualsLog(ops: seq<Op>, limits: string -> Limit, sweepPer: int, start: int)
    requires ClockForward(ops, start)
    requires forall k :: Budget(limits, k).per <= sweepPer
    ensures var s := Run(ops, limits, sweepPer, start);
            s.admitted == LogRun(ops, limits).admitted && s.log == LogRun(ops, limits).log
  {
    if ops == [] {
    } else {
      var k := |ops| - 1;
      ClockPrefix(ops, start);
      LimiterEqualsLog(ops[..k], limits, sweepPer, start);
      if ops[k].Call? && !Unlimited(limits(ops[k].key)) {
        RunInv(ops[..k], limits, sweepPer, start, ops[k].key);
        CallDecidesByLog(Run(ops[..k], limits, sweepPer, start), ops[k].key, ops[k].n, Budget(limits, ops[k].key), ops[k].at);
      }
    }
  }

  /** Key by key, only the key's own window has to fit the sweeper's. */
  lemma {:induction false} KeyLogAgrees(ops: seq<Op>, limits: string -> Limit, sweepPer: int, start: int, key: string)
    requires ClockForward(ops, start) && Budget(limits, key).per <= sweepPer
    ensures Bucket(Run(ops, limits, sweepPer, start).log, key) == Bucket(LogRun(ops, limits).log, key)
  {
    if ops == [] {
    } else {
      var k := |ops| - 1;
      ClockPrefix(ops, start);
      KeyLogAgrees(ops[..k], limits, sweepPer, start, key);
      RunInv(ops[..k], limits, sweepPer, start, key);
      NextLogAgrees(Run(ops[..k], limits, sweepPer, start), LogRun(ops[..k], limits), ops[k], limits, sweepPer, key);
    }
  }

  lemma NextLogAgrees(s: State, l: LogState, op: Op, limits: string -> Limit, sweepPer: int, key: string)
    requires KeyInv(s, key, Budget(limits, key).per) && s.now <= op.at && Bucket(s.log, key) == Bucket(l.log, key)
    ensures Bucket(Next(s, op, limits, sweepPer).log, key) == Bucket(LogNext(l, op, limits).log, key)
  {
    if op.Call? {
      if op.key == key && !Unlimited(limits(key)) {
        OwnCallAgrees(s, l, key, op.n, op.at, limits, sweepPer);
      } else {
        OtherCallAgrees(s, l, op, limits, sweepPer, key);
      }
    }
  }

  lemma OwnCallAgrees(s: State, l: LogState, key: string, n: int, at: int, limits: string -> Limit, sweepPer: int)
    requires KeyInv(s, key, Budget(limits, key).per) && s.now <= at && Bucket(s.log, key) == Bucket(l.log, key)
    requires !Unlimited(limits(key))
    ensures Bucket(Next(s, Call(key, n, at), limits, sweepPer).log, key) == Bucket(LogNext(l, Call(key, n, at), limits).log, key)
  {
    CallTouches(s, key, n, at, limits, sweepPer);
    CallDecidesByLog(s, key, n, Budget(limits, key), at);
    LogTouches(l, key, n, at, limits);
    assert LogAdmits(s.log, key, n, Budget(limits, key), at) == LogAdmits(l.log, key, n, Budget(limits, key), at);
  }

  lemma OtherCallAgrees(s: State, l: LogState, op: Op, limits: string -> Limit, sweepPer: int, key: string)
    requires op.Call? && (op.key != key || Unlimited(limits(key)))
    ensures Bucket(Next(s, op, limits, sweepPer).log, key) == Bucket(s.log, key)
    ensures Bucket(LogNext(l, op, limits).log, key) == Bucket(l.log, key)
  {
  }

  lemma LogTouches(l: LogState, key: string, n: int, at: int, limits: string -> Limit)
    requires !Unlimited(limits(key))
    ensures Bucket(LogNext(l, Call(key, n, at), limits).log, key)
         == Bucket(l.log, key) + Copies(at, if LogAdmits(l.log, key, n, Budget(limits, key), at) then Charge(n) else 0)
  {
    assert Bucket(l.log, key) + Copies(at, 0) == Bucket(l.log, key);
  }

  // ---------- what the log guarantees ----------

  /** Any `ceiling + 1` consecutive admissions span more than the window. */
  ghost predicate Spaced(log: seq<int>, per: int, ceiling: int) {
    && Ascending(log)
    && forall i, j :: 0 <= i <= j < |log| && j - i >= ceiling ==> log[j] - log[i] > per
  }

  lemma SpacedAppend(log: seq<int>, d: nat, n: nat, per: int, ceiling: int, now: int)
    requires Spaced(log, per, ceiling) && d <= |log| && |log| - d + n <= ceiling
    requires forall i :: 0 <= i < |log| ==> log[i] <= now
    requires forall i :: 0 <= i < d ==> log[i] < now - per
    ensures Spaced(log + Copies(now, n), per, ceiling)
  {
    var out := log + Copies(now, n);
    assert Ascending(out);
    forall i, j | 0 <= i <= j < |out| && j - i >= ceiling ensures out[j] - out[i] > per {
      if j < |log| {
        assert out[j] == log[j] && out[i] == log[i];
      } else {
        assert i < d && out[i] == log[i] && out[j] == now;
      }
    }
  }

  lemma AdmitKeepsSpacing(log: seq<int>, n: nat, lim: Limit, now: int)
    requires Spaced(log, lim.per, Ceiling(lim)) && (forall i :: 0 <= i < |log| ==> log[i] <= now)
    requires CountSince(log, now - lim.per) <= Ceiling(lim) - n
    ensures Spaced(log + Copies(now, n), lim.per, Ceiling(lim))
  {
    var cutoff := now - lim.per;
    DropOldAscending(log, cutoff);
    var d := |log| - |DropOld(log, cutoff)|;
    SuffixCount(log, d, cutoff);
    SpacedAppend(log, d, n, lim.per, Ceiling(lim), now);
  }

  lemma {:induction false} LogSpaced(ops: seq<Op>, limits: string -> Limit, start: int, key: string)
    requires ClockForward(ops, start)
    ensures var log := Bucket(LogRun(ops, limits).log, key);
            && Spaced(log, Budget(limits, key).per, Ceiling(Budget(limits, key)))
            && forall i :: 0 <= i < |log| ==> log[i] <= Last(ops, start)
  {
    if ops == [] {
    } else {
      var k := |ops| - 1;
      ClockPrefix(ops, start);
      LogSpaced(ops[..k], limits, start, key);
      var log := Bucket(LogRun(ops[..k], limits).log, key);
      if ops[k].Call? && ops[k].key == key && !Unlimited(limits(key))
         && LogAdmits(LogRun(ops[..k], limits).log, key, ops[k].n, Budget(limits, key), ops[k].at) {
        AdmitKeepsSpacing(log, Charge(ops[k].n), Budget(limits, key), ops[k].at);
      }
    }
  }

  /** How many admissions fall in the closed interval. */
  function CountIn(log: seq<int>, lo: int, hi: int): nat {
    if log == [] then 0
    else CountIn(log[..|log| - 1], lo, hi) + (if lo <= log[|log| - 1] <= hi then 1 else 0)
  }

  /** Where the counted events of an ascending log start. */
  lemma {:induction false} CountInIsRun(log: seq<int>, lo: int, hi: int) returns (i: nat)
    requires Ascending(log)
    ensures i + CountIn(log, lo, hi) <= |log|
    ensures forall k :: i <= k < i + CountIn(log, lo, hi) ==> lo <= log[k] <= hi
    ensures CountIn(log, lo, hi) > 0 && log[|log| - 1] <= hi ==> i + CountIn(log, lo, hi) == |log|
  {
    if log == [] {
      i := 0;
    } else {
      var k := |log| - 1;
      i := CountInIsRun(log[..k], lo, hi);
      if lo <= log[k] <= hi && CountIn(log[..k], lo, hi) == 0 { i := k; }
    }
  }

  lemma AtMostCeiling(log: seq<int>, i: nat, c: nat, lo: int, per: int, ceiling: int)
    requires Spaced(log, per, ceiling) && i + c <= |log| && ceiling >= 0
    requires forall k :: i <= k < i + c ==> lo <= log[k] <= lo + per
    ensures c <= ceiling
  {
    if c > 0 {
      var j := i + c - 1;
      assert log[j] - log[i] <= per;
    }
  }

  /** The closed interval of length `Per` from `lo` holds at most the ceiling. */
  ghost predicate WithinCeiling(ops: seq<Op>, limits: string -> Limit, sweepPer: int, start: int, key: string, lo: int) {
    CountIn(Bucket(Run(ops, limits, sweepPer, start).log, key), lo, lo + Budget(limits, key).per) <= Ceiling(Budget(limits, key))
  }

  /** No closed interval of length `Per` ever holds more admissions of a key than
      its ceiling, whatever else the limiter and its sweeper do. */
  lemma WindowNeverExceedsCeiling(ops: seq<Op>, limits: string -> Limit, sweepPer: int, start: int, key: string, lo: int)
    requires ClockForward(ops, start) && !Unlimited(limits(key)) && Budget(limits, key).per <= sweepPer
    ensures WithinCeiling(ops, limits, sweepPer, start, key, lo)
  {
    KeyLogAgrees(ops, limits, sweepPer, start, key);
    LogSpaced(ops, limits, start, key);
    var log := Bucket(LogRun(ops, limits).log, key);
    var hi := lo + Budget(limits, key).per;
    var i := CountInIsRun(log, lo, hi);
    AtMostCeiling(log, i, CountIn(log, lo, hi), lo, Budget(limits, key).per, Ceiling(Budget(limits, key)));
  }

  /** Fill the budget, sweep, fill it again. */
  function SweepBetween(key: string, c: int, t: int, later: int): seq<Op> {
    [Call(key, c, t), SweepAt(later), Call(key, c, later)]
  }

  lemma {:induction false} AllCounted(log: seq<int>, lo: int, hi: int)
    requires forall i :: 0 <= i < |log| ==> lo <= log[i] <= hi
    ensures CountIn(log, lo, hi) == |log|
  {
    if log == [] {
    } else {
      AllCounted(log[..|log| - 1], lo, hi);
    }
  }

  /** A sweeper with a shorter window than the key's lets the key double its
      ceiling inside one window. */
  lemma ShortSweepDoublesCeiling(limits: string -> Limit, sweepPer: int, key: string, t: int)
    requires !Unlimited(limits(key)) && 0 <= sweepPer < Budget(limits, key).per
    ensures var ops := SweepBetween(key, Ceiling(Budget(limits, key)), t, t + sweepPer + 1);
            ClockForward(ops, t) && !WithinCeiling(ops, limits, sweepPer, t, key, t)
  {
    var c, later := Ceiling(Budget(limits, key)), t + sweepPer + 1;
    RefilledLog(limits, sweepPer, key, t);
    AllCounted(Copies(t, c) + Copies(later, c), t, t + Budget(limits, key).per);
  }

  lemma RefilledLog(limits: string -> Limit, sweepPer: int, key: string, t: int)
    requires !Unlimited(limits(key))
    ensures var c, later := Ceiling(Budget(limits, key)), t + sweepPer + 1;
            Bucket(Run(SweepBetween(key, c, t, later), limits, sweepPer, t).log, key) == Copies(t, c) + Copies(later, c)
  {
    var c, later := Ceiling(Budget(limits, key)), t + sweepPer + 1;
    var ops := SweepBetween(key, c, t, later);
    RunThree(ops, limits, sweepPer, t);
    var s0 := State(map[], map[], t, []);
    FillsEmpty(s0, limits, sweepPer, key, t);
    var s1 := Next(s0, ops[0], limits, sweepPer);
    ForgetsAll(s1, limits, sweepPer, key, later);
    FillsEmpty(Next(s1, ops[1], limits, sweepPer), limits, sweepPer, key, later);
    assert [] + Copies(t, c) == Copies(t, c);
  }

  lemma ForgetsAll(s: State, limits: string -> Limit, sweepPer: int, key: string, at: int)
    requires s.buckets.Keys == {key} && forall i :: 0 <= i < |s.buckets[key]| ==> s.buckets[key][i] < at - sweepPer
    ensures Next(s, SweepAt(at), limits, sweepPer).buckets == map[]
    ensures Next(s, SweepAt(at), limits, sweepPer).log == s.log
  {
    AllOldGo(s.buckets[key], at - sweepPer);
  }

  /** With nothing in the buckets, a call for the whole ceiling is admitted. */
  lemma FillsEmpty(s: State, limits: string -> Limit, sweepPer: int, key: string, at: int)
    requires s.buckets == map[] && !Unlimited(limits(key))
    ensures var c := Ceiling(Budget(limits, key));
            var s' := Next(s, Call(key, c, at), limits, sweepPer);
            s'.buckets == map[key := Copies(at, c)] && s'.log == s.log[key := Bucket(s.log, key) + Copies(at, c)]
  {
    var c := Ceiling(Budget(limits, key));
    assert [] + Copies(at, c) == Copies(at, c);
  }

  lemma {:induction false} AllOldGo(events: seq<int>, cutoff: int)
    requires forall i :: 0 <= i < |events| ==> events[i] < cutoff
    ensures DropOld(events, cutoff) == []
  {
    if events == [] {
    } else {
      AllOldGo(events[1..], cutoff);
    }
  }

  lemma RunThree(ops: seq<Op>, limits: string -> Limit, sweepPer: int, start: int)
    requires |ops| == 3
    ensures Run(ops, limits, sweepPer, start)
         == Next(Next(Next(State(map[], map[], start, []), ops[0], limits, sweepPer), ops[1], limits, sweepPer),
                 ops[2], limits, sweepPer)
  {
    assert ops[..2][..1] == ops[..1] && ops[..1][..0] == [];
    assert Run(ops[..1], limits, sweepPer, start) == Next(State(map[], map[], start, []), ops[0], limits, sweepPer);
  }

  /** The ceiling holds over every run exactly when the limiter's own window, which
      its sweeper trims by, is at least the key's. */
  lemma CeilingHoldsExactlyWhen(limits: string -> Limit, sweepPer: int, key: string)
    requires !Unlimited(limits(key)) && 0 <= sweepPer
    ensures (forall ops, start, lo :: ClockForward(ops, start) ==> WithinCeiling(ops, limits, sweepPer, start, key, lo))
            <==> Budget(limits, key).per <= sweepPer
  {
    if Budget(limits, key).per <= sweepPer {
      forall ops, start, lo | ClockForward(ops, start) ensures WithinCeiling(ops, limits, sweepPer, start, key, lo) {
        WindowNeverExceedsCeiling(ops, limits, sweepPer, start, key, lo);
      }
    } else {
      ShortSweepDoublesCeiling(limits, sweepPer, key, 0);
    }
  }

  // ---------- what is admitted, exactly ----------

  /** The last operation of the run was a call that was let through. */
  predicate LetThrough(ops: seq<Op>, limits: string -> Limit, sweepPer: int, start: int)
    requires ops != []
  {
    var admitted := Run(ops, limits, sweepPer, start).admitted;
    ops[|ops| - 1].Call? && admitted != [] && admitted[|admitted| - 1]
  }

  /** What the calls of `key` that were let through at or after `from` asked for; every
      call asks for at least one. */
  function Spent(ops: seq<Op>, limits: string -> Limit, sweepPer: int, start: int, key: string, from: int): nat {
    if ops == [] then 0
    else
      var k := |ops| - 1;
      Spent(ops[..k], limits, sweepPer, start, key, from)
      + (if LetThrough(ops, limits, sweepPer, start) && ops[k].key == key && ops[k].at >= from
         then (if ops[k].n > 1 then ops[k].n else 1) else 0)
  }

  lemma {:induction false} CountCopies(log: seq<int>, t: int, n: nat, from: int)
    ensures CountSince(log + Copies(t, n), from) == CountSince(log, from) + (if t >= from then n else 0)
  {
    if n == 0 {
      assert log + Copies(t, n) == log;
    } else {
      CountCopies(log, t, n - 1, from);
      assert (log + Copies(t, n))[..|log| + n - 1] == log + Copies(t, n - 1);
    }
  }

  /** What a step adds to the log of a limited key. */
  lemma LogStep(s: State, op: Op, limits: string -> Limit, sweepPer: int, key: string)
    requires limits(key).rate > 0
    ensures var s' := Next(s, op, limits, sweepPer);
            Bucket(s'.log, key) == Bucket(s.log, key)
              + if op.Call? && op.key == key && s'.admitted[|s.admitted|] then Copies(op.at, Charge(op.n)) else []
    ensures op.Call? ==> |Next(s, op, limits, sweepPer).admitted| == |s.admitted| + 1
  {
    NegativeRateIsUnlimited(limits(key).rate, limits(key).per, limits(key).burst);
  }

  lemma {:induction false} SpentIsLogged(ops: seq<Op>, limits: string -> Limit, sweepPer: int, start: int, key: string, from: int)
    requires limits(key).rate > 0
    ensures Spent(ops, limits, sweepPer, start, key, from) ==
            CountSince(Bucket(Run(ops, limits, sweepPer, start).log, key), from)
  {
    if ops == [] {
    } else {
      var k := |ops| - 1;
      var s := Run(ops[..k], limits, sweepPer, start);
      SpentIsLogged(ops[..k], limits, sweepPer, start, key, from);
      LogStep(s, ops[k], limits, sweepPer, key);
      if ops[k].Call? { CountCopies(Bucket(s.log, key), ops[k].at, Charge(ops[k].n), from); }
    }
  }

  /** The window of a limit as configured, and the most it admits in one. */
  function Window(l: Limit): int { if l.per > 0 then l.per else SECOND }
  function Most(l: Limit): int { if l.burst > l.rate then l.burst else l.rate }

  /** A call on a limited key, by the limit as configured. */
  lemma CallFits(s: State, key: string, n: int, l: Limit, at: int)
    requires l.rate > 0 && KeyInv(s, key, Normalize(l).per) && s.now <= at
    ensures Admits(s.buckets, key, n, Normalize(l), at) <==>
            CountSince(Bucket(s.log, key), at - Window(l)) + (if n > 1 then n else 1) <= Most(l)
  {
    LimitMeans(l);
    CallDecidesByLog(s, key, n, Normalize(l), at);
  }

  /** Whether a run's last call is let through depends on the state it finds. */
  lemma LastDecision(ops: seq<Op>, limits: string -> Limit, sweepPer: int, start: int)
    requires ops != [] && ops[|ops| - 1].Call?
    ensures var k := |ops| - 1;
            LetThrough(ops, limits, sweepPer, start) <==>
            Unlimited(limits(ops[k].key))
            || Admits(Run(ops[..k], limits, sweepPer, start).buckets, ops[k].key, ops[k].n, Budget(limits, ops[k].key), ops[k].at)
  {
  }

  /** Never too much and never too little: over every forward-clock run, sweeps or not,
      its last call is let through if and only if the key has no positive rate, or what
      the key spent in the window that ends at the call leaves room for it. Everything is
      said in terms of the limit as configured. */
  lemma AdmittedExactlyWhen(ops: seq<Op>, limits: string -> Limit, sweepPer: int, start: int)
    requires ClockForward(ops, start) && ops != [] && ops[|ops| - 1].Call?
    requires Budget(limits, ops[|ops| - 1].key).per <= sweepPer
    ensures var k := |ops| - 1;
            var c, l := ops[k], limits(ops[k].key);
            LetThrough(ops, limits, sweepPer, start) <==>
            l.rate <= 0
            || Spent(ops[..k], limits, sweepPer, start, c.key, c.at - Window(l)) + (if c.n > 1 then c.n else 1) <= Most(l)
  {
    var k := |ops| - 1;
    var c, l := ops[k], limits(ops[k].key);
    LastDecision(ops, limits, sweepPer, start);
    NegativeRateIsUnlimited(l.rate, l.per, l.burst);
    if l.rate > 0 {
      ClockPrefix(ops, start);
      FitsAfter(ops[..k], limits, sweepPer, start, c.key, c.n, c.at);
    }
  }

  /** Whether one more call on a limited key would fit after a run. */
  lemma FitsAfter(ops: seq<Op>, limits: string -> Limit, sweepPer: int, start: int, key: string, n: int, at: int)
    requires ClockForward(ops, start) && Last(ops, start) <= at && limits(key).rate > 0 && Budget(limits, key).per <= sweepPer
    ensures var l := limits(key);
            Admits(Run(ops, limits, sweepPer, start).buckets, key, n, Budget(limits, key), at) <==>
            Spent(ops, limits, sweepPer, start, key, at - Window(l)) + (if n > 1 then n else 1) <= Most(l)
  {
    RunInv(ops, limits, sweepPer, start, key);
    CallFits(Run(ops, limits, sweepPer, start), key, n, limits(key), at);
    SpentIsLogged(ops, limits, sweepPer, start, key, at - Window(limits(key)));
  }

  /** After a call the bucket holds what its key spent in the window, so that the reported
      remainder is what is left of the ceiling. */
  lemma BucketIsSpent(ops: seq<Op>, limits: string -> Limit, sweepPer: int, start: int)
    requires ClockForward(ops, start) && ops != [] && ops[|ops| - 1].Call?
    requires Budget(limits, ops[|ops| - 1].key).per <= sweepPer && limits(ops[|ops| - 1].key).rate > 0
    ensures var c := ops[|ops| - 1];
            |Bucket(Run(ops, limits, sweepPer, start).buckets, c.key)|
            == Spent(ops, limits, sweepPer, start, c.key, c.at - Window(limits(c.key)))
  {
    var c := ops[|ops| - 1];
    BucketIsLogged(ops, limits, sweepPer, start);
    SpentIsLogged(ops, limits, sweepPer, start, c.key, c.at - Window(limits(c.key)));
  }

  lemma BucketIsLogged(ops: seq<Op>, limits: string -> Limit, sweepPer: int, start: int)
    requires ClockForward(ops, start) && ops != [] && ops[|ops| - 1].Call?
    requires Budget(limits, ops[|ops| - 1].key).per <= sweepPer && limits(ops[|ops| - 1].key).rate > 0
    ensures var c, s := ops[|ops| - 1], Run(ops, limits, sweepPer, start);
            |Bucket(s.buckets, c.key)| == CountSince(Bucket(s.log, c.key), c.at - Window(limits(c.key)))
  {
    var k := |ops| - 1;
    var c := ops[k];
    LimitMeans(limits(c.key));
    ClockPrefix(ops, start);
    RunInv(ops[..k], limits, sweepPer, start, c.key);
    CallBucket(Run(ops[..k], limits, sweepPer, start), c.key, c.n, c.at, limits, sweepPer);
  }

  lemma CallBucket(s: State, key: string, n: int, at: int, limits: string -> Limit, sweepPer: int)
    requires !Unlimited(limits(key)) && KeyInv(s, key, Budget(limits, key).per) && s.now <= at
    ensures var s' := Next(s, Call(key, n, at), limits, sweepPer);
            |Bucket(s'.buckets, key)| == CountSince(Bucket(s'.log, key), at - Budget(limits, key).per)
  {
    var lim := Budget(limits, key);
    TrimmedIsWindow(Bucket(s.buckets, key), Bucket(s.log, key), s.now - lim.per, at - lim.per);
    CallTouches(s, key, n, at, limits, sweepPer);
    CountCopies(Bucket(s.log, key), at, Admitted(s, key, n, lim, at), at - lim.per);
  }

  // ---------- edges ----------

  /** A sweep is invisible to a call at the same instant exactly when no event lies
      between the two cutoffs: a limiter whose own window is shorter than a key's
      forgets events that key still counts. */
  lemma SweepInvisibleExactlyWhen(events: seq<int>, sweepCutoff: int, cutoff: int)
    requires Ascending(events)
    ensures DropOld(DropOld(events, sweepCutoff), cutoff) == DropOld(events, cutoff) <==>
            forall i :: 0 <= i < |events| ==> !(cutoff <= events[i] < sweepCutoff)
  {
    DropOldAscending(events, sweepCutoff);
    DropOldAscending(events, cutoff);
    var a, b := DropOld(events, sweepCutoff), DropOld(events, cutoff);
    assert forall i :: 0 <= i < |a| ==> a[i] == events[|events| - |a| + i];
    DropOldAscending(a, cutoff);
    if |a| < |b| {
      var i := |events| - |b|;
      assert cutoff <= events[i] < sweepCutoff;
      assert |DropOld(a, cutoff)| < |b|;
    } else {
      assert forall i :: 0 <= i < |events| ==> !(cutoff <= events[i] < sweepCutoff);
      var d := |a| - |DropOld(a, cutoff)|;
      assert |DropOld(a, cutoff)| == |b|;
    }
  }

  /** Waiting exactly the advertised reset is one tick short: the oldest event sits
      on the window's closed edge and still counts; one nanosecond later it is gone. */
  lemma ResetIsOneTickShort(events: seq<int>, per: int, now: int)
    requires Ascending(events) && events != [] && events[0] + per >= now
    ensures DropOld(events, now + Wait(events, per, now) - per) == events
    ensures |DropOld(events, now + Wait(events, per, now) + 1 - per)| < |events|
  {
    DropOldAscending(events, now + Wait(events, per, now) + 1 - per);
  }
}

/** Whole runs of the cache: recency order, eviction, latest values, tenants. */
module CacheRuns {
  import opened Text
  import opened Sets
  import opened Caches

  datatype Op =
    | Get(key: string, now: int)
    | Put(key: string, env: Envelope, ttl: int, now: int)
    | Delete(key: string)
    | Sweep(now: int)

  function Step(c: Cache, op: Op, max: int): Cache {
    match op
    case Get(k, now) => AfterGet(c, k, now)
    case Put(k, env, ttl, now) => AfterPut(c, k, env, ttl, now, max)
    case Delete(k) => AfterDelete(c, k)
    case Sweep(now) => AfterSweep(c, now)
  }

  function Run(ops: seq<Op>, max: int): Cache {
    if ops == [] then EMPTY else Step(Run(ops[..|ops| - 1], max), ops[|ops| - 1], max)
  }

  /** `op` stores `k` or finds it. */
  predicate Touches(c: Cache, op: Op, k: string) {
    (op.Put? && op.key == k) || (op.Get? && op.key == k && Hit(c, k, op.now))
  }

  /** `op` deletes `k` or finds it expired. */
  predicate Drops(c: Cache, op: Op, k: string) {
    k in c.entries
    && match op
       case Get(key, now) => key == k && Expired(c.entries[k], now)
       case Put(_, _, _, _) => false
       case Delete(key) => key == k
       case Sweep(now) => Expired(c.entries[k], now)
  }

  /** The index of the last operation that touched `k`, or -1. */
  function LastTouch(ops: seq<Op>, max: int, k: string): (t: int)
    ensures -1 <= t < |ops|
  {
    if ops == [] then -1
    else if Touches(Run(ops[..|ops| - 1], max), ops[|ops| - 1], k) then |ops| - 1
    else LastTouch(ops[..|ops| - 1], max, k)
  }

  /** The index of the last operation that dropped `k`, or -1. */
  function LastDrop(ops: seq<Op>, max: int, k: string): (t: int)
    ensures -1 <= t < |ops|
  {
    if ops == [] then -1
    else if Drops(Run(ops[..|ops| - 1], max), ops[|ops| - 1], k) then |ops| - 1
    else LastDrop(ops[..|ops| - 1], max, k)
  }

  /** The keys touched after operation `t`. */
  function TouchedSince(ops: seq<Op>, max: int, t: int): set<string> {
    if |ops| <= t + 1 || ops == [] then {}
    else
      var op := ops[|ops| - 1];
      var before := TouchedSince(ops[..|ops| - 1], max, t);
      if (op.Put? || op.Get?) && Touches(Run(ops[..|ops| - 1], max), op, op.key) then before + {op.key} else before
  }

  /** Later in the list means touched earlier. */
  ghost predicate Recency(order: seq<string>, ops: seq<Op>, max: int) {
    forall p, q :: 0 <= p < q < |order| ==> LastTouch(ops, max, order[p]) > LastTouch(ops, max, order[q])
  }

  /** Same relative order, possibly fewer elements. */
  ghost predicate SubOrder(w: seq<string>, order: seq<string>) {
    forall p, q :: 0 <= p < q < |w| ==> Precedes(order, w[p], w[q])
  }

  ghost function Bound(max: int): nat { if max < 0 then 0 else max }

  ghost predicate Within(c: Cache, max: int) {
    Valid(c) && |c.entries| <= Bound(max)
  }

  // ---------- every step keeps map, list and bound ----------

  lemma RemoveValid(c: Cache, k: string)
    requires Valid(c)
    ensures Valid(Remove(c, k)) && |Remove(c, k).entries| <= |c.entries|
    ensures SubOrder(Remove(c, k).order, c.order)
  {
    WithoutKeeps(c.order, k);
    var w := Without(c.order, k);
    forall p, q | 0 <= p < q < |w| ensures Precedes(c.order, w[p], w[q]) {
      WithoutOrder(c.order, k, p, q);
    }
    SubsetSize(Remove(c, k).entries.Keys, c.entries.Keys);
  }

  lemma ToFrontValid(c: Cache, k: string)
    requires Valid(c) && k in c.entries
    ensures Valid(ToFront(c, k)) && SubOrder(ToFront(c, k).order[1..], c.order)
    ensures ToFront(c, k).order[0] == k
  {
    RemoveValid(c, k);
    WithoutKeeps(c.order, k);
    FrontOrder(k, Without(c.order, k), c.entries.Keys);
    assert ToFront(c, k).order[1..] == Without(c.order, k);
  }

  lemma FrontOrder(k: string, rest: seq<string>, keys: set<string>)
    requires k in keys && forall i, j :: 0 <= i < j < |rest| ==> rest[i] != rest[j]
    requires forall x :: x in rest <==> x in keys && x != k
    ensures var order := [k] + rest;
            && (forall i, j :: 0 <= i < j < |order| ==> order[i] != order[j])
            && (forall x :: x in order <==> x in keys)
  {
    var order := [k] + rest;
    assert forall i :: 0 < i < |order| ==> order[i] == rest[i - 1] && order[i] in rest;
    assert order[0] == k;
  }

  lemma SweepValid(c: Cache, now: int)
    requires Valid(c)
    ensures Valid(AfterSweep(c, now)) && |AfterSweep(c, now).entries| <= |c.entries|
    ensures SubOrder(AfterSweep(c, now).order, c.order)
  {
    KeptKeeps(c.order, c.entries, now);
    var w := Kept(c.order, c.entries, now);
    forall p, q | 0 <= p < q < |w| ensures Precedes(c.order, w[p], w[q]) {
      KeptOrder(c.order, c.entries, now, p, q);
    }
    assert AfterSweep(c, now).entries.Keys <= c.entries.Keys;
    SubsetSize(AfterSweep(c, now).entries.Keys, c.entries.Keys);
  }

  /** Storing a new key: the list gains it in front and loses at most its back. */
  lemma PutNewValid(c: Cache, k: string, e: Entry, max: int)
    requires Within(c, max) && k !in c.entries
    ensures var full := Cache(c.entries[k := e], [k] + c.order);
            && Valid(full) && Within(EvictTo(full, max), max)
            && (max < 0 ==> EvictTo(full, max) == EMPTY)
            && (0 <= max && |full.order| <= max ==> EvictTo(full, max) == full)
            && (0 <= max && |full.order| > max ==>
                  && |full.order| == max + 1
                  && EvictTo(full, max) == Cache(full.entries - {full.order[max]}, full.order[..max]))
  {
    var full := Cache(c.entries[k := e], [k] + c.order);
    assert forall x :: x in full.order <==> x == k || x in c.order;
    assert Valid(full);
    ValidSize(c);
    ValidSize(full);
    if max < 0 {
      EvictAll(full, max);
    } else {
      EvictOne(full, max);
    }
  }

  lemma StepWithin(c: Cache, op: Op, max: int)
    requires Within(c, max)
    ensures Within(Step(c, op, max), max)
  {
    match op {
      case Get(k, now) =>
        RemoveValid(c, k);
        if k in c.entries { ToFrontValid(c, k); }
      case Put(k, env, ttl, now) =>
        var e := Entry(env, Expiry(ttl, now));
        if k in c.entries {
          var d := c.(entries := c.entries[k := e]);
          assert d.entries.Keys == c.entries.Keys;
          ToFrontValid(d, k);
        } else {
          PutNewValid(c, k, e, max);
        }
      case Delete(k) => RemoveValid(c, k);
      case Sweep(now) => SweepValid(c, now);
    }
  }

  lemma {:induction false} RunWithin(ops: seq<Op>, max: int)
    ensures Within(Run(ops, max), max)
  {
    if ops == [] {
    } else {
      RunWithin(ops[..|ops| - 1], max);
      StepWithin(Run(ops[..|ops| - 1], max), ops[|ops| - 1], max);
    }
  }

  // ---------- list order is last-touch order ----------

  /** A key the last operation did not touch keeps its stamp; a touched one gets the newest. */
  lemma SubOrderRecency(w: seq<string>, order: seq<string>, ops: seq<Op>, max: int)
    requires ops != [] && Recency(order, ops[..|ops| - 1], max) && SubOrder(w, order)
    requires forall p :: 0 <= p < |w| ==> !Touches(Run(ops[..|ops| - 1], max), ops[|ops| - 1], w[p])
    ensures Recency(w, ops, max)
  {
    forall p, q | 0 <= p < q < |w| ensures LastTouch(ops, max, w[p]) > LastTouch(ops, max, w[q]) {
      assert Precedes(order, w[p], w[q]);
    }
  }

  /** With the touched key in front of an untouched, ordered tail. */
  lemma FrontRecency(order: seq<string>, ops: seq<Op>, max: int)
    requires ops != [] && order != []
    requires Touches(Run(ops[..|ops| - 1], max), ops[|ops| - 1], order[0])
    requires Recency(order[1..], ops, max)
    requires forall p :: 1 <= p < |order| ==> !Touches(Run(ops[..|ops| - 1], max), ops[|ops| - 1], order[p])
    ensures Recency(order, ops, max)
  {
    forall p, q | 0 <= p < q < |order| ensures LastTouch(ops, max, order[p]) > LastTouch(ops, max, order[q]) {
      if p > 0 { assert order[1..][p - 1] == order[p] && order[1..][q - 1] == order[q]; }
    }
  }

  lemma PrefixRecency(order: seq<string>, n: nat, ops: seq<Op>, max: int)
    requires Recency(order, ops, max) && n <= |order|
    ensures Recency(order[..n], ops, max)
  {
  }

  lemma SelfSubOrder(order: seq<string>)
    ensures SubOrder(order, order)
  {
    forall p, q | 0 <= p < q < |order| ensures Precedes(order, order[p], order[q]) {
    }
  }

  /** Moving the touched key to the front. */
  lemma TouchRecency(c: Cache, k: string, ops: seq<Op>, max: int)
    requires ops != [] && Valid(c) && k in c.entries && Recency(c.order, ops[..|ops| - 1], max)
    requires ops[|ops| - 1].Get? || ops[|ops| - 1].Put?
    requires ops[|ops| - 1].key == k && Touches(Run(ops[..|ops| - 1], max), ops[|ops| - 1], k)
    ensures Recency(ToFront(c, k).order, ops, max)
  {
    ToFrontValid(c, k);
    var order := ToFront(c, k).order;
    assert forall p :: 1 <= p < |order| ==> order[p] != k;
    SubOrderRecency(order[1..], c.order, ops, max);
    FrontRecency(order, ops, max);
  }

  /** The list after storing a new key, before any eviction. */
  lemma PutNewRecency(c: Cache, ops: seq<Op>, max: int)
    requires ops != [] && Valid(c) && Recency(c.order, ops[..|ops| - 1], max)
    requires ops[|ops| - 1].Put? && ops[|ops| - 1].key !in c.entries
    ensures Recency([ops[|ops| - 1].key] + c.order, ops, max)
  {
    var order := [ops[|ops| - 1].key] + c.order;
    SelfSubOrder(c.order);
    assert order[1..] == c.order;
    SubOrderRecency(c.order, c.order, ops, max);
    FrontRecency(order, ops, max);
  }

  /** List order is last-touch order, after any run. */
  lemma {:induction false} OrderIsRecency(ops: seq<Op>, max: int)
    ensures Recency(Run(ops, max).order, ops, max)
  {
    if ops == [] {
    } else {
      var n := |ops| - 1;
      var c, op := Run(ops[..n], max), ops[n];
      OrderIsRecency(ops[..n], max);
      RunWithin(ops[..n], max);
      SelfSubOrder(c.order);
      match op {
        case Get(k, now) =>
          if Hit(c, k, now) {
            TouchRecency(c, k, ops, max);
          } else {
            RemoveValid(c, k);
            SubOrderRecency(Run(ops, max).order, c.order, ops, max);
          }
        case Put(k, env, ttl, now) =>
          var e := Entry(env, Expiry(ttl, now));
          if k in c.entries {
            TouchRecency(c.(entries := c.entries[k := e]), k, ops, max);
          } else {
            PutNewValid(c, k, e, max);
            PutNewRecency(c, ops, max);
            if 0 <= max && |c.order| + 1 > max { PrefixRecency([k] + c.order, max, ops, max); }
          }
        case Delete(k) =>
          RemoveValid(c, k);
          SubOrderRecency(Run(ops, max).order, c.order, ops, max);
        case Sweep(now) =>
          SweepValid(c, now);
          SubOrderRecency(Run(ops, max).order, c.order, ops, max);
      }
    }
  }

  // ---------- only recency pressure evicts ----------

  lemma {:induction false} TouchedAfter(ops: seq<Op>, max: int, k: string, t: int)
    requires LastTouch(ops, max, k) > t >= -1
    ensures k in TouchedSince(ops, max, t)
  {
    var n := |ops| - 1;
    if Touches(Run(ops[..n], max), ops[n], k) {
    } else {
      TouchedAfter(ops[..n], max, k, t);
    }
  }

  lemma TouchedGrows(ops: seq<Op>, max: int, t: int)
    requires ops != []
    ensures TouchedSince(ops[..|ops| - 1], max, t) <= TouchedSince(ops, max, t)
  {
  }

  /** When storing `k'` pushes `k` off the back, everything ahead of `k` was
      touched since. */
  lemma EvictedUnderPressure(ops: seq<Op>, max: int, k: string, order: seq<string>)
    requires 0 <= max && Recency(order, ops, max) && |order| == max + 1 && order[max] == k
    requires forall i, j :: 0 <= i < j < |order| ==> order[i] != order[j]
    ensures |TouchedSince(ops, max, LastTouch(ops, max, k)) - {k}| >= max
  {
    var t := LastTouch(ops, max, k);
    var ahead := set i | 0 <= i < max :: order[i];
    forall x | x in ahead ensures x in TouchedSince(ops, max, t) - {k} {
      var i :| 0 <= i < max && order[i] == x;
      TouchedAfter(ops, max, x, t);
    }
    DistinctCount(order[..max]);
    assert ahead == set x | x in order[..max];
    SubsetSize(ahead, TouchedSince(ops, max, t) - {k});
  }

  lemma {:induction false} DistinctCount(s: seq<string>)
    requires forall i, j :: 0 <= i < j < |s| ==> s[i] != s[j]
    ensures |set x | x in s| == |s|
  {
    if s == [] {
    } else {
      var n := |s| - 1;
      DistinctCount(s[..n]);
      assert (set x | x in s) == (set x | x in s[..n]) + {s[n]};
    }
  }

  /** A key that is stored stays unless it is dropped or pushed off the back. */
  lemma StepKeeps(c: Cache, op: Op, max: int, k: string)
    requires Within(c, max) && k in c.entries && !Drops(c, op, k)
    ensures k in Step(c, op, max).entries
            || (op.Put? && op.key !in c.entries
                && (max < 0 || (|[op.key] + c.order| == max + 1 && ([op.key] + c.order)[max] == k)))
  {
    match op {
      case Get(k', now) =>
      case Put(k', env, ttl, now) =>
        if k' !in c.entries { PutNewValid(c, k', Entry(env, Expiry(ttl, now)), max); }
      case Delete(k') =>
      case Sweep(now) =>
    }
  }

  lemma TouchStores(c: Cache, op: Op, max: int, k: string)
    requires Within(c, max) && Touches(c, op, k) && max > 0
    ensures k in Step(c, op, max).entries
  {
    if op.Put? && k !in c.entries {
      PutNewValid(c, k, Entry(op.env, Expiry(op.ttl, op.now)), max);
    }
  }

  /** LRU exactness: after any run, a key that was stored or hit at operation `t`
      and neither deleted nor found expired since is missing only if at least
      `MaxEntries` distinct other keys were touched after `t`. */
  lemma {:induction false} OnlyPressureEvicts(ops: seq<Op>, max: int, k: string)
    requires LastTouch(ops, max, k) >= 0 && LastDrop(ops, max, k) < LastTouch(ops, max, k)
    ensures k in Run(ops, max).entries
            || |TouchedSince(ops, max, LastTouch(ops, max, k)) - {k}| >= max
  {
    var n := |ops| - 1;
    var c, op := Run(ops[..n], max), ops[n];
    RunWithin(ops[..n], max);
    if Touches(c, op, k) {
      if max > 0 { TouchStores(c, op, max, k); }
    } else {
      var t := LastTouch(ops, max, k);
      OnlyPressureEvicts(ops[..n], max, k);
      TouchedGrows(ops, max, t);
      if k in c.entries {
        StepKeeps(c, op, max, k);
        if k !in Run(ops, max).entries && max >= 0 {
          OrderIsRecency(ops[..n], max);
          PutNewRecency(c, ops, max);
          PutNewValid(c, op.key, Entry(op.env, Expiry(op.ttl, op.now)), max);
          EvictedUnderPressure(ops, max, k, [op.key] + c.order);
        }
      } else {
        SubsetSize(TouchedSince(ops[..n], max, t) - {k}, TouchedSince(ops, max, t) - {k});
      }
    }
  }

  // ---------- values ----------

  /** The entry the last Put of `k` stored. */
  function LastPut(ops: seq<Op>, k: string): Option<Entry> {
    if ops == [] then None
    else
      var op := ops[|ops| - 1];
      if op.Put? && op.key == k then Some(Entry(op.env, Expiry(op.ttl, op.now))) else LastPut(ops[..|ops| - 1], k)
  }

  lemma {:induction false} EvictKeepsEntries(c: Cache, max: int)
    ensures forall k :: k in EvictTo(c, max).entries ==> k in c.entries && EvictTo(c, max).entries[k] == c.entries[k]
    decreases |c.order|
  {
    if |c.entries| <= max || c.order == [] {
    } else {
      EvictKeepsEntries(Cache(c.entries - {c.order[|c.order| - 1]}, c.order[..|c.order| - 1]), max);
    }
  }

  /** Whatever is stored under a key is what the last Put stored there. */
  lemma {:induction false} StoredIsLatest(ops: seq<Op>, max: int, k: string)
    requires k in Run(ops, max).entries
    ensures LastPut(ops, k) == Some(Run(ops, max).entries[k])
  {
    var n := |ops| - 1;
    var c, op := Run(ops[..n], max), ops[n];
    if op.Put? {
      EvictKeepsEntries(Cache(c.entries[op.key := Entry(op.env, Expiry(op.ttl, op.now))], [op.key] + c.order), max);
    }
    if op.Put? && op.key == k {
    } else {
      assert k in c.entries && Run(ops, max).entries[k] == c.entries[k];
      StoredIsLatest(ops[..n], max, k);
    }
  }

  // ---------- expiry ----------

  /** The last Put of `k`, as it was called. */
  function LastPutCall(ops: seq<Op>, k: string): Option<Op> {
    if ops == [] then None
    else if ops[|ops| - 1].Put? && ops[|ops| - 1].key == k then Some(ops[|ops| - 1])
    else LastPutCall(ops[..|ops| - 1], k)
  }

  /** What a Put stores lasts up to and including the end of its TTL, and forever without
      one. */
  predicate Lasts(put: Op, now: int)
    requires put.Put?
  {
    put.ttl <= 0 || now <= put.now + put.ttl
  }

  lemma {:induction false} LastPutCalled(ops: seq<Op>, k: string)
    requires LastPut(ops, k).Some?
    ensures var p := LastPutCall(ops, k);
            && p.Some? && p.value.Put?
            && LastPut(ops, k).value == Entry(p.value.env, Expiry(p.value.ttl, p.value.now))
  {
    if ops[|ops| - 1].Put? && ops[|ops| - 1].key == k {
    } else {
      LastPutCalled(ops[..|ops| - 1], k);
    }
  }

  /** Expiry over runs: whatever is stored after any run is served and survives a sweep if
      and only if its last Put still lasts, and what is served is what that Put brought. */
  lemma ServedExactlyWhileItLasts(ops: seq<Op>, max: int, k: string, now: int)
    requires k in Run(ops, max).entries
    ensures var p := LastPutCall(ops, k);
            && p.Some? && p.value.Put?
            && Answer(Run(ops, max), k, now) == (if Lasts(p.value, now) then Some(p.value.env) else None)
            && (k in AfterSweep(Run(ops, max), now).entries <==> Lasts(p.value, now))
  {
    StoredIsLatest(ops, max, k);
    LastPutCalled(ops, k);
  }

  // ---------- counters ----------

  /** How one call may change the counters. */
  ghost predicate Counts(s: Stats, s': Stats, c: Cache, op: Op, max: int) {
    var after := |Step(c, op, max).order|;
    match op
    case Get(k, now) => s' == CountGet(s, c, k, now)
    case Put(k, _, _, _) =>
      CountEvictions(s.(puts := s.puts + 1), s', |c.order| + (if k in c.entries then 0 else 1), after)
    case Delete(_) => s' == s
    case Sweep(_) => CountEvictions(s, s', |c.order|, after)
  }

  ghost predicate CountedRun(ops: seq<Op>, max: int, stats: seq<Stats>) {
    && |stats| == |ops| + 1 && stats[0] == Stats(0, 0, 0, 0)
    && forall i :: 0 <= i < |ops| ==> Counts(stats[i], stats[i + 1], Run(ops[..i], max), ops[i], max)
  }

  /** How many lookups were answered, how many were made, and how many Puts. */
  function Answered(ops: seq<Op>, max: int): nat {
    if ops == [] then 0
    else
      var n := |ops| - 1;
      Answered(ops[..n], max) + (if ops[n].Get? && Answer(Run(ops[..n], max), ops[n].key, ops[n].now).Some? then 1 else 0)
  }

  function Lookups(ops: seq<Op>): nat {
    if ops == [] then 0 else Lookups(ops[..|ops| - 1]) + (if ops[|ops| - 1].Get? then 1 else 0)
  }

  function Puts(ops: seq<Op>): nat {
    if ops == [] then 0 else Puts(ops[..|ops| - 1]) + (if ops[|ops| - 1].Put? then 1 else 0)
  }

  /** How many Puts brought a key that was not stored, and how many Deletes took one. */
  function Insertions(ops: seq<Op>, max: int): nat {
    if ops == [] then 0
    else
      var n := |ops| - 1;
      Insertions(ops[..n], max) + (if ops[n].Put? && ops[n].key !in Run(ops[..n], max).entries then 1 else 0)
  }

  function Deletions(ops: seq<Op>, max: int): nat {
    if ops == [] then 0
    else
      var n := |ops| - 1;
      Deletions(ops[..n], max) + (if ops[n].Delete? && ops[n].key in Run(ops[..n], max).entries then 1 else 0)
  }

  /** Nothing gets lost: in every run the lookups are the hits and the misses, and every
      key that came in is still stored, was deleted, or is counted as an eviction. */
  lemma {:induction false} CountersConserve(ops: seq<Op>, max: int, stats: seq<Stats>)
    requires CountedRun(ops, max, stats)
    ensures var s := stats[|ops|];
            && s.hits == Answered(ops, max) && s.hits + s.misses == Lookups(ops) && s.puts == Puts(ops)
            && |Run(ops, max).order| + s.evictions + Deletions(ops, max) == Insertions(ops, max)
  {
    if ops == [] {
    } else {
      var n := |ops| - 1;
      assert forall i :: 0 <= i < n ==> ops[..n][..i] == ops[..i];
      CountersConserve(ops[..n], max, stats[..n + 1]);
      assert Counts(stats[n], stats[n + 1], Run(ops[..n], max), ops[n], max);
      RunWithin(ops[..n], max);
      StepSize(Run(ops[..n], max), ops[n], max);
    }
  }

  /** Removing a stored key shortens the list by one; a hit leaves its length alone. */
  lemma StepSize(c: Cache, op: Op, max: int)
    requires Valid(c)
    ensures op.Get? || op.Delete? ==>
              var gone := op.key in c.entries && (op.Delete? || Answer(c, op.key, op.now).None?);
              |Step(c, op, max).order| == |c.order| - (if gone then 1 else 0)
  {
    if op.Get? || op.Delete? { WithoutSize(c.order, op.key); }
  }

  lemma {:induction false} WithoutSize(order: seq<string>, k: string)
    requires forall i, j :: 0 <= i < j < |order| ==> order[i] != order[j]
    ensures |Without(order, k)| == |order| - (if k in order then 1 else 0)
  {
    if order == [] {
    } else {
      WithoutSize(order[1..], k);
      assert order == [order[0]] + order[1..];
    }
  }

  // ---------- tenants ----------

  datatype TenantOp =
    | TGet(tenant: string, key: string, now: int)
    | TPut(tenant: string, key: string, env: Envelope, ttl: int, now: int)
    | TDelete(tenant: string, key: string)
    | TSweep(now: int)

  function Scoped(op: TenantOp): Op {
    match op
    case TGet(t, k, now) => Get(ScopedKey(t, k), now)
    case TPut(t, k, env, ttl, now) => Put(ScopedKey(t, k), env, ttl, now)
    case TDelete(t, k) => Delete(ScopedKey(t, k))
    case TSweep(now) => Sweep(now)
  }

  function ScopedAll(ops: seq<TenantOp>): seq<Op> {
    seq(|ops|, i requires 0 <= i < |ops| => Scoped(ops[i]))
  }

  /** One id is the other followed by a colon and more. */
  predicate Collide(t: string, t': string) {
    t + ":" <= t' || t' + ":" <= t
  }

  /** No other tenant of the run collides with `t`. */
  predicate ClearOf(ops: seq<TenantOp>, t: string) {
    forall i :: 0 <= i < |ops| && !ops[i].TSweep? && ops[i].tenant != t ==> !Collide(ops[i].tenant, t)
  }

  /** The last Put of exactly this tenant and key. */
  function LastTenantPut(ops: seq<TenantOp>, t: string, k: string): Option<Entry> {
    if ops == [] then None
    else
      var op := ops[|ops| - 1];
      if op.TPut? && op.tenant == t && op.key == k then Some(Entry(op.env, Expiry(op.ttl, op.now)))
      else LastTenantPut(ops[..|ops| - 1], t, k)
  }

  /** A colon-free id collides with no other colon-free id. */
  lemma ColonFreeIsClear(t: string, t': string)
    requires ':' !in t && ':' !in t'
    ensures !Collide(t, t')
  {
    PrefixHasColon(t, t');
    PrefixHasColon(t', t);
  }

  lemma PrefixHasColon(t: string, t': string)
    ensures t + ":" <= t' ==> ':' in t'
  {
    if t + ":" <= t' { assert t'[|t|] == (t + ":")[|t|]; }
  }

  /** Ids that do not collide are recovered from the scoped key. */
  lemma ScopedKeyInjective(t: string, k: string, t': string, k': string)
    requires (t != t' ==> !Collide(t, t')) && ScopedKey(t, k) == ScopedKey(t', k')
    ensures t == t' && k == k'
  {
    if t != t' { PrefixCollision(t, k, t', k'); }
    assert k == ScopedKey(t, k)[|t| + 1..] && k' == ScopedKey(t', k')[|t'| + 1..];
  }

  /** Two tenants can collide exactly when one id is the other followed by a colon
      and more: that is what the layout needs to rule out. */
  lemma CollisionExactlyWhen(t: string, t': string)
    requires t != t'
    ensures (exists k, k' :: ScopedKey(t, k) == ScopedKey(t', k')) <==> Collide(t, t')
  {
    if t + ":" <= t' {
      var k := t'[|t| + 1..] + ":";
      assert t' == t + ":" + t'[|t| + 1..];
      assert ScopedKey(t, k) == ScopedKey(t', "");
    } else if t' + ":" <= t {
      var k' := t[|t'| + 1..] + ":";
      assert t == t' + ":" + t[|t'| + 1..];
      assert ScopedKey(t, "") == ScopedKey(t', k');
    } else if k, k' :| ScopedKey(t, k) == ScopedKey(t', k') {
      PrefixCollision(t, k, t', k');
    }
  }

  lemma PrefixCollision(t: string, k: string, t': string, k': string)
    requires t != t' && ScopedKey(t, k) == ScopedKey(t', k')
    ensures Collide(t, t')
  {
    var s := ScopedKey(t, k);
    assert forall i :: 0 <= i < |t| ==> s[i] == t[i];
    assert forall i :: 0 <= i < |t'| ==> s[i] == t'[i];
    assert s[|t|] == ':' && s[|t'|] == ':';
    assert t == s[..|t|] && t' == s[..|t'|];
    if |t| < |t'| {
      assert t + ":" == s[..|t| + 1] == t'[..|t| + 1];
    } else if |t'| < |t| {
      assert t' + ":" == s[..|t'| + 1] == t[..|t'| + 1];
    }
  }

  lemma {:induction false} LastPutIsTenants(ops: seq<TenantOp>, t: string, k: string)
    requires ClearOf(ops, t)
    ensures LastPut(ScopedAll(ops), ScopedKey(t, k)) == LastTenantPut(ops, t, k)
  {
    if ops == [] {
    } else {
      var n := |ops| - 1;
      assert ScopedAll(ops)[..n] == ScopedAll(ops[..n]);
      LastPutIsTenants(ops[..n], t, k);
      var op := ops[n];
      if op.TPut? && ScopedKey(op.tenant, op.key) == ScopedKey(t, k) {
        ScopedKeyInjective(op.tenant, op.key, t, k);
      }
    }
  }

  /** A hit for a tenant's key is that same tenant's latest Put of that key. */
  ghost predicate OwnHit(ops: seq<TenantOp>, max: int, t: string, k: string, now: int) {
    Hit(Run(ScopedAll(ops), max), ScopedKey(t, k), now) ==>
      LastTenantPut(ops, t, k) == Some(Run(ScopedAll(ops), max).entries[ScopedKey(t, k)])
  }

  /** Tenant non-interference: across any interleaving with any tenants whose ids do
      not collide with this one's. */
  lemma TenantsDoNotInterfere(ops: seq<TenantOp>, max: int, t: string, k: string, now: int)
    requires ClearOf(ops, t)
    ensures OwnHit(ops, max, t, k, now)
  {
    if Hit(Run(ScopedAll(ops), max), ScopedKey(t, k), now) {
      StoredIsLatest(ScopedAll(ops), max, ScopedKey(t, k));
      LastPutIsTenants(ops, t, k);
    }
  }

  /** With colliding ids it fails at once: the other tenant's first Put is a hit. */
  lemma CollidingTenantIsRead(t: string, t': string, env: Envelope, max: int, now: int) returns (k: string, k': string)
    requires t != t' && Collide(t, t') && max >= 1
    ensures !OwnHit([TPut(t', k', env, 0, now)], max, t, k, now)
  {
    CollisionExactlyWhen(t, t');
    k, k' :| ScopedKey(t, k) == ScopedKey(t', k');
    var ops := [TPut(t', k', env, 0, now)];
    assert ScopedAll(ops) == [Put(ScopedKey(t', k'), env, 0, now)];
    FirstPut(ScopedKey(t', k'), env, max, now);
    assert ops[..0] == [] && LastTenantPut(ops, t, k) == None;
  }

  lemma FirstPut(k: string, env: Envelope, max: int, now: int)
    requires max >= 1
    ensures Run([Put(k, env, 0, now)], max) == Cache(map[k := Entry(env, None)], [k])
  {
    var c := Cache(map[k := Entry(env, None)], [k]);
    assert [Put(k, env, 0, now)][..0] == [] && Run([], max) == EMPTY;
    assert c.entries.Keys == {k} && |c.entries| == |c.entries.Keys|;
    assert [k] + [] == [k];
    assert AfterPut(EMPTY, k, env, 0, now, max) == EvictTo(c, max) == c;
  }

  predicate OnlyTenants(ops: seq<TenantOp>, t: string, t': string) {
    forall i :: 0 <= i < |ops| && !ops[i].TSweep? ==> ops[i].tenant == t || ops[i].tenant == t'
  }

  /** Two tenants keep out of each other's way in every run if and only if neither id
      is the other followed by a colon and more. */
  lemma NonInterferenceExactlyWhen(t: string, t': string, env: Envelope, max: int)
    requires t != t' && max >= 1
    ensures (forall ops, k, now :: OnlyTenants(ops, t, t') ==> OwnHit(ops, max, t, k, now)) <==> !Collide(t, t')
  {
    if Collide(t, t') {
      var k, k' := CollidingTenantIsRead(t, t', env, max, 0);
      assert OnlyTenants([TPut(t', k', env, 0, 0)], t, t');
    } else {
      forall ops, k, now | OnlyTenants(ops, t, t') ensures OwnHit(ops, max, t, k, now) {
        TenantsDoNotInterfere(ops, max, t, k, now);
      }
    }
  }
}

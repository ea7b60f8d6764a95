/** The in-process LRU cache with per-entry expiry: a map plus a recency list. */
module Caches {
  import opened Text

  datatype Envelope = Envelope(payload: string)

  /** `expires` is absent for entries stored without a TTL. */
  datatype Entry = Entry(env: Envelope, expires: Option<int>)

  /** The value of a cache; `order` lists keys, most recently used first. */
  datatype Cache = Cache(entries: map<string, Entry>, order: seq<string>)

  const EMPTY := Cache(map[], [])

  predicate Expired(e: Entry, now: int) {
    e.expires.Some? && now > e.expires.value
  }

  function Without(order: seq<string>, k: string): seq<string> {
    if order == [] then []
    else if order[0] == k then Without(order[1..], k)
    else [order[0]] + Without(order[1..], k)
  }

  function Remove(c: Cache, k: string): Cache {
    Cache(c.entries - {k}, Without(c.order, k))
  }

  function ToFront(c: Cache, k: string): Cache {
    c.(order := [k] + Without(c.order, k))
  }

  predicate Hit(c: Cache, k: string, now: int) {
    k in c.entries && !Expired(c.entries[k], now)
  }

  /** What a lookup returns. */
  function Answer(c: Cache, k: string, now: int): Option<Envelope> {
    if Hit(c, k, now) then Some(c.entries[k].env) else None
  }

  function AfterGet(c: Cache, k: string, now: int): Cache {
    if k !in c.entries then c
    else if Expired(c.entries[k], now) then Remove(c, k)
    else ToFront(c, k)
  }

  /** Drops the least recently used entries until at most `max` remain. */
  function EvictTo(c: Cache, max: int): Cache
    decreases |c.order|
  {
    if |c.entries| <= max || c.order == [] then c
    else EvictTo(Cache(c.entries - {c.order[|c.order| - 1]}, c.order[..|c.order| - 1]), max)
  }

  function Expiry(ttl: int, now: int): Option<int> {
    if ttl > 0 then Some(now + ttl) else None
  }

  function AfterPut(c: Cache, k: string, env: Envelope, ttl: int, now: int, max: int): Cache {
    var e := Entry(env, Expiry(ttl, now));
    if k in c.entries then ToFront(c.(entries := c.entries[k := e]), k)
    else EvictTo(Cache(c.entries[k := e], [k] + c.order), max)
  }

  function AfterDelete(c: Cache, k: string): Cache {
    if k in c.entries then Remove(c, k) else c
  }

  function Kept(order: seq<string>, entries: map<string, Entry>, now: int): seq<string> {
    if order == [] then []
    else
      var rest := Kept(order[1..], entries, now);
      if order[0] in entries && Expired(entries[order[0]], now) then rest else [order[0]] + rest
  }

  function AfterSweep(c: Cache, now: int): Cache {
    Cache(map k | k in c.entries && !Expired(c.entries[k], now) :: c.entries[k], Kept(c.order, c.entries, now))
  }

  /** The map and the list hold the same keys, each once. */
  ghost predicate Valid(c: Cache) {
    && (forall i, j :: 0 <= i < j < |c.order| ==> c.order[i] != c.order[j])
    && (forall k :: k in c.order <==> k in c.entries)
  }

  // ---------- list facts ----------

  lemma {:induction false} WithoutKeeps(order: seq<string>, k: string)
    requires forall i, j :: 0 <= i < j < |order| ==> order[i] != order[j]
    ensures var w := Without(order, k);
            && (forall x :: x in w <==> x in order && x != k)
            && (forall i, j :: 0 <= i < j < |w| ==> w[i] != w[j])
            && |w| == |order| - (if k in order then 1 else 0)
  {
    if order == [] {
    } else {
      WithoutKeeps(order[1..], k);
      assert forall x :: x in order <==> x == order[0] || x in order[1..];
      assert order[0] !in order[1..];
    }
  }

  /** `x` stands before `y`. */
  ghost predicate Precedes(order: seq<string>, x: string, y: string) {
    exists i, j :: 0 <= i < j < |order| && order[i] == x && order[j] == y
  }

  lemma PrecedesTail(order: seq<string>, x: string, y: string)
    requires order != []
    ensures Precedes(order[1..], x, y) ==> Precedes(order, x, y)
    ensures y in order[1..] ==> Precedes(order, order[0], y)
  {
    if Precedes(order[1..], x, y) {
      var i, j :| 0 <= i < j < |order[1..]| && order[1..][i] == x && order[1..][j] == y;
      assert order[i + 1] == x && order[j + 1] == y;
    }
    if y in order[1..] {
      var j :| 0 <= j < |order[1..]| && order[1..][j] == y;
      assert order[0] == order[0] && order[j + 1] == y;
    }
  }

  /** Removing a key keeps the others in their order. */
  lemma {:induction false} WithoutOrder(order: seq<string>, k: string, p: nat, q: nat)
    requires forall i, j :: 0 <= i < j < |order| ==> order[i] != order[j]
    requires p < q < |Without(order, k)|
    ensures Precedes(order, Without(order, k)[p], Without(order, k)[q])
  {
    var w, w1 := Without(order, k), Without(order[1..], k);
    PrecedesTail(order, w[p], w[q]);
    if order[0] == k {
      WithoutOrder(order[1..], k, p, q);
    } else if p == 0 {
      WithoutKeeps(order[1..], k);
      assert w[q] == w1[q - 1] && w[q] in w1;
    } else {
      WithoutOrder(order[1..], k, p - 1, q - 1);
    }
  }

  lemma {:induction false} KeptKeeps(order: seq<string>, entries: map<string, Entry>, now: int)
    requires forall i, j :: 0 <= i < j < |order| ==> order[i] != order[j]
    ensures var w := Kept(order, entries, now);
            && (forall x :: x in w <==> x in order && !(x in entries && Expired(entries[x], now)))
            && (forall i, j :: 0 <= i < j < |w| ==> w[i] != w[j])
  {
    if order == [] {
    } else {
      KeptKeeps(order[1..], entries, now);
      assert forall x :: x in order <==> x == order[0] || x in order[1..];
      assert order[0] !in order[1..];
    }
  }

  lemma {:induction false} KeptOrder(order: seq<string>, entries: map<string, Entry>, now: int, p: nat, q: nat)
    requires forall i, j :: 0 <= i < j < |order| ==> order[i] != order[j]
    requires p < q < |Kept(order, entries, now)|
    ensures Precedes(order, Kept(order, entries, now)[p], Kept(order, entries, now)[q])
  {
    var w, w1 := Kept(order, entries, now), Kept(order[1..], entries, now);
    PrecedesTail(order, w[p], w[q]);
    if order[0] in entries && Expired(entries[order[0]], now) {
      KeptOrder(order[1..], entries, now, p, q);
    } else if p == 0 {
      KeptKeeps(order[1..], entries, now);
      assert w[q] == w1[q - 1] && w[q] in w1;
    } else {
      KeptOrder(order[1..], entries, now, p - 1, q - 1);
    }
  }

  /** Sizes of the map and the list agree. */
  lemma {:induction false} ValidSize(c: Cache)
    requires Valid(c)
    ensures |c.entries| == |c.order|
    decreases |c.order|
  {
    if c.order == [] {
      assert c.entries.Keys == {};
    } else {
      var k := |c.order| - 1;
      var last := c.order[k];
      DropLast(c);
      ValidSize(Cache(c.entries - {last}, c.order[..k]));
      assert last in c.entries;
      assert (c.entries - {last}).Keys == c.entries.Keys - {last};
    }
  }

  lemma DropLast(c: Cache)
    requires Valid(c) && c.order != []
    ensures Valid(Cache(c.entries - {c.order[|c.order| - 1]}, c.order[..|c.order| - 1]))
  {
    var k := |c.order| - 1;
    assert forall x :: x in c.order <==> x in c.order[..k] || x == c.order[k];
  }

  /** Inserting into a cache within bounds evicts at most the last entry. */
  lemma EvictOne(c: Cache, max: int)
    requires Valid(c) && |c.entries| <= max + 1 && 0 <= max
    ensures EvictTo(c, max) ==
            if |c.entries| <= max then c
            else Cache(c.entries - {c.order[|c.order| - 1]}, c.order[..|c.order| - 1])
    ensures Valid(EvictTo(c, max)) && |EvictTo(c, max).entries| <= max
  {
    ValidSize(c);
    if |c.entries| > max {
      DropLast(c);
      var d := Cache(c.entries - {c.order[|c.order| - 1]}, c.order[..|c.order| - 1]);
      ValidSize(d);
    }
  }

  lemma {:induction false} EvictAll(c: Cache, max: int)
    requires Valid(c) && max < 0
    ensures EvictTo(c, max) == EMPTY
    decreases |c.order|
  {
    if c.order == [] {
      assert c.entries.Keys == {};
    } else {
      DropLast(c);
      EvictAll(Cache(c.entries - {c.order[|c.order| - 1]}, c.order[..|c.order| - 1]), max);
    }
  }

  /** A sweep that has walked from the back down to position `i`. */
  ghost function SweptFrom(c: Cache, i: nat, now: int): Cache
    requires i <= |c.order|
  {
    Cache(map k | k in c.entries && !(k in c.order[i..] && Expired(c.entries[k], now)) :: c.entries[k],
          c.order[..i] + Kept(c.order[i..], c.entries, now))
  }

  lemma SweepEnds(c: Cache, now: int)
    requires Valid(c)
    ensures SweptFrom(c, |c.order|, now) == c && SweptFrom(c, 0, now) == AfterSweep(c, now)
  {
    assert c.order[0..] == c.order && c.order[..|c.order|] == c.order && c.order[|c.order|..] == [];
    assert SweptFrom(c, |c.order|, now).entries == c.entries;
    assert SweptFrom(c, 0, now).entries == AfterSweep(c, now).entries;
  }

  /** The entry at list position `i` goes if it is expired. */
  function DropAt(c: Cache, i: nat, now: int): Cache {
    if i < |c.order| && c.order[i] in c.entries && Expired(c.entries[c.order[i]], now)
    then Cache(c.entries - {c.order[i]}, c.order[..i] + c.order[i + 1..]) else c
  }

  /** The walk from the back down to position `i`. */
  ghost function SweptDown(c: Cache, i: nat, now: int): Cache
    decreases |c.order| - i
  {
    if i >= |c.order| then c else DropAt(SweptDown(c, i + 1, now), i, now)
  }

  lemma {:induction false} SweptDownIs(c: Cache, i: nat, now: int)
    requires Valid(c) && i <= |c.order|
    ensures SweptDown(c, i, now) == SweptFrom(c, i, now)
    decreases |c.order| - i
  {
    if i == |c.order| {
      SweepEnds(c, now);
    } else {
      SweptDownIs(c, i + 1, now);
      SweepStep(c, i + 1, now);
      assert SweptDown(c, i, now) == DropAt(SweptDown(c, i + 1, now), i, now);
    }
  }

  lemma SweptDownAt(c: Cache, i: nat, now: int)
    requires Valid(c) && 0 < i <= |c.order|
    ensures var s := SweptDown(c, i, now); i <= |s.order| && s.order[i - 1] in s.entries
    ensures SweptDown(c, i - 1, now) == DropAt(SweptDown(c, i, now), i - 1, now)
  {
    SweptDownIs(c, i, now);
    SweepStep(c, i, now);
  }

  lemma SweepStep(c: Cache, i: nat, now: int)
    requires Valid(c) && 0 < i <= |c.order|
    ensures var s, t := SweptFrom(c, i, now), SweptFrom(c, i - 1, now);
            var key := c.order[i - 1];
            && i <= |s.order| && s.order[i - 1] == key && key in s.entries && s.entries[key] == c.entries[key]
            && t == DropAt(s, i - 1, now)
  {
    var s, t := SweptFrom(c, i, now), SweptFrom(c, i - 1, now);
    var key := c.order[i - 1];
    assert c.order[..i] == c.order[..i - 1] + [key] && key in c.order;
    SweepStepOrder(c.order, c.entries, i, now);
    SweepStepEntries(c, i, now);
  }

  lemma SweepStepOrder(order: seq<string>, entries: map<string, Entry>, i: nat, now: int)
    requires 0 < i <= |order| && order[i - 1] in entries
    ensures var s := order[..i] + Kept(order[i..], entries, now);
            order[..i - 1] + Kept(order[i - 1..], entries, now)
            == if Expired(entries[order[i - 1]], now) then s[..i - 1] + s[i..] else s
  {
    assert order[i - 1..][1..] == order[i..];
    assert order[..i] == order[..i - 1] + [order[i - 1]];
  }

  lemma SweepStepEntries(c: Cache, i: nat, now: int)
    requires Valid(c) && 0 < i <= |c.order|
    ensures var s, key := SweptFrom(c, i, now).entries, c.order[i - 1];
            SweptFrom(c, i - 1, now).entries == if Expired(c.entries[key], now) then s - {key} else s
    ensures c.order[i - 1] in SweptFrom(c, i, now).entries
  {
    var key := c.order[i - 1];
    assert key !in c.order[i..] && key in c.order;
    assert forall k :: k in c.order[i - 1..] <==> k == key || k in c.order[i..];
  }

  // ---------- the class ----------

  datatype Stats = Stats(hits: nat, misses: nat, puts: nat, evictions: nat)

  /** One hit, or one miss that also counts the eviction of an expired entry. */
  function CountGet(s: Stats, c: Cache, k: string, now: int): Stats {
    if Hit(c, k, now) then s.(hits := s.hits + 1)
    else s.(misses := s.misses + 1, evictions := s.evictions + if k in c.entries then 1 else 0)
  }

  /** Everything that left the list was counted as an eviction. */
  predicate CountEvictions(s: Stats, s': Stats, before: nat, after: nat) {
    && s'.hits == s.hits && s'.misses == s.misses && s'.puts == s.puts
    && s'.evictions + after == s.evictions + before
  }

  class MemoryCache {
    const maxEntries: int
    var entries: map<string, Entry>
    var order: seq<string>
    var stats: Stats

    ghost function Value(): Cache
      reads this
    {
      Cache(entries, order)
    }

    constructor (maxEntries: int)
      ensures Value() == EMPTY && Valid(Value())
      ensures this.maxEntries == (if maxEntries <= 0 then 4096 else maxEntries) && stats == Stats(0, 0, 0, 0)
    {
      this.maxEntries := if maxEntries <= 0 then 4096 else maxEntries;
      entries := map[];
      order := [];
      stats := Stats(0, 0, 0, 0);
    }

    method Get(key: string, now: int) returns (r: Option<Envelope>)
      requires Valid(Value())
      modifies this
      ensures Value() == AfterGet(old(Value()), key, now)
      ensures r == Answer(old(Value()), key, now)
      ensures stats == CountGet(old(stats), old(Value()), key, now)
    {
      if key !in entries {
        stats := stats.(misses := stats.misses + 1);
        return None;
      }
      var e := entries[key];
      if e.expires.Some? && now > e.expires.value {
        order := Without(order, key);
        entries := entries - {key};
        stats := stats.(misses := stats.misses + 1, evictions := stats.evictions + 1);
        return None;
      }
      order := [key] + Without(order, key);
      stats := stats.(hits := stats.hits + 1);
      return Some(e.env);
    }

    method Put(key: string, env: Envelope, ttl: int, now: int)
      requires Valid(Value())
      modifies this
      ensures Value() == AfterPut(old(Value()), key, env, ttl, now, maxEntries)
      ensures CountEvictions(old(stats.(puts := stats.puts + 1)), stats,
                             |old(order)| + (if key in old(entries) then 0 else 1), |order|)
    {
      stats := stats.(puts := stats.puts + 1);
      var exp := None;
      if ttl > 0 { exp := Some(now + ttl); }
      if key in entries {
        entries := entries[key := Entry(env, exp)];
        WithoutKeeps(order, key);
        order := [key] + Without(order, key);
        return;
      }
      order := [key] + order;
      entries := entries[key := Entry(env, exp)];
      ghost var full := Value();
      while |entries| > maxEntries && order != []
        invariant EvictTo(full, maxEntries) == EvictTo(Value(), maxEntries)
        invariant CountEvictions(old(stats.(puts := stats.puts + 1)), stats, |old(order)| + 1, |order|)
        decreases |order|
      {
        var back := order[|order| - 1];
        order := order[..|order| - 1];
        entries := entries - {back};
        stats := stats.(evictions := stats.evictions + 1);
      }
    }

    method Delete(key: string)
      modifies this
      ensures Value() == AfterDelete(old(Value()), key) && stats == old(stats)
    {
      if key in entries {
        order := Without(order, key);
        entries := entries - {key};
      }
    }

    /** The body of the sweep loop, at list position `i`. */
    method DropIfExpired(i: nat, now: int)
      requires i < |order| && order[i] in entries
      modifies this
      ensures Value() == DropAt(old(Value()), i, now)
      ensures CountEvictions(old(stats), stats, |old(order)|, |order|)
    {
      var key := order[i];
      var e := entries[key];
      if e.expires.Some? && now > e.expires.value {
        order := order[..i] + order[i + 1..];
        entries := entries - {key};
        stats := stats.(evictions := stats.evictions + 1);
      }
    }

    /** Walks the list from the back, removing expired entries. */
    method SweepOnce(now: int)
      requires Valid(Value())
      modifies this
      ensures Value() == AfterSweep(old(Value()), now)
      ensures CountEvictions(old(stats), stats, |old(order)|, |order|)
    {
      var i := |order|;
      ghost var c := Value();
      while i > 0
        invariant 0 <= i <= |c.order| && Value() == SweptDown(c, i, now)
        invariant CountEvictions(old(stats), stats, |old(order)|, |order|)
      {
        SweptDownAt(c, i, now);
        DropIfExpired(i - 1, now);
        i := i - 1;
      }
      SweptDownIs(c, 0, now);
      SweepEnds(c, now);
    }

    method GetForTenant(tenant: string, key: string, now: int) returns (r: Option<Envelope>)
      requires Valid(Value())
      modifies this
      ensures Value() == AfterGet(old(Value()), ScopedKey(tenant, key), now)
      ensures r == Answer(old(Value()), ScopedKey(tenant, key), now)
      ensures stats == CountGet(old(stats), old(Value()), ScopedKey(tenant, key), now)
    {
      r := Get(ScopedKey(tenant, key), now);
    }

    method PutForTenant(tenant: string, key: string, env: Envelope, ttl: int, now: int)
      requires Valid(Value())
      modifies this
      ensures Value() == AfterPut(old(Value()), ScopedKey(tenant, key), env, ttl, now, maxEntries)
      ensures CountEvictions(old(stats.(puts := stats.puts + 1)), stats,
                             |old(order)| + (if ScopedKey(tenant, key) in old(entries) then 0 else 1), |order|)
    {
      Put(ScopedKey(tenant, key), env, ttl, now);
    }

    method DeleteForTenant(tenant: string, key: string)
      modifies this
      ensures Value() == AfterDelete(old(Value()), ScopedKey(tenant, key)) && stats == old(stats)
    {
      Delete(ScopedKey(tenant, key));
    }
  }

  function ScopedKey(tenant: string, key: string): string {
    tenant + ":" + key
  }
}

/** The Redis key-ring store and the node's rotation loop as running code: what the
    holder of a node's lock does. Other nodes act through `Interfere`, between any two
    Redis commands. The node's own watcher is not running meanwhile; what it can do
    to a rotation is the subject of `FleetRaces`. */
module KeyRingStore {
  import opened Text
  import opened KeyRings
  import opened Fleet
  import opened FleetKeeps
  import opened FleetRuns

  /** The history grew from `h` to `h'`, none of the new versions is by `me`, and a
      chain stays a chain. */
  ghost predicate ByOthers(h: seq<Entry>, h': seq<Entry>, me: nat) {
    && h <= h' && (forall i :: |h| <= i < |h'| ==> h'[i].author != me)
    && (Chain(h) ==> Chain(h'))
  }

  /** The same, and then `me` wrote `e` on top. */
  ghost predicate ThenWrote(h: seq<Entry>, h': seq<Entry>, me: nat, e: Entry) {
    h' != [] && h'[|h'| - 1] == e && e.author == me && ByOthers(h, h'[..|h'| - 1], me)
  }

  lemma OthersTwice(h: seq<Entry>, mid: seq<Entry>, h': seq<Entry>, me: nat)
    requires ByOthers(h, mid, me) && ByOthers(mid, h', me)
    ensures ByOthers(h, h', me)
  {
  }

  lemma WroteOnTop(h: seq<Entry>, mid: seq<Entry>, me: nat, e: Entry)
    requires ByOthers(h, mid, me) && e.author == me
    ensures ThenWrote(h, mid + [e], me, e)
  {
    assert (mid + [e])[..|mid|] == mid;
  }

  /** The shared Redis keys, with the history of everything written to them. */
  class RedisCell {
    var body: Option<Snapshot>
    var version: nat
    ghost var history: seq<Entry>

    ghost predicate Valid()
      reads this
    {
      && version == |history| && Stored(history)
      && (body.None? <==> history == [])
      && (body.Some? ==> SnapshotOf(body.value, Base(history, |history|)))
    }

    constructor ()
      ensures Valid() && history == []
    {
      body := None;
      version := 0;
      history := [];
    }

    /** Whatever nodes other than `me` commit before its next command. */
    method Interfere(ghost me: nat)
      requires Valid()
      modifies this
      ensures Valid() && ByOthers(old(history), history, me)
    {
    }

    /** MULTI SET body SET version EXEC. */
    method Commit(s: Snapshot, v: nat, ghost e: Entry)
      requires Valid() && v == version + 1 && SnapshotOf(s, e.ring) && Stored(history + [e])
      modifies this
      ensures Valid() && history == old(history) + [e]
    {
      body := Some(s);
      version := v;
      history := history + [e];
    }
  }

  datatype LoadError = NotExist | KeptChanging

  datatype SaveResult = SavedAs(version: nat) | ConflictFound | Contention

  class RedisKeyRingStore {
    const redis: RedisCell
    ghost const author: nat
    var lastVersion: int

    constructor (redis: RedisCell, ghost author: nat)
      ensures this.redis == redis && this.author == author && lastVersion == VERSION_UNKNOWN
    {
      this.redis := redis;
      this.author := author;
      lastVersion := VERSION_UNKNOWN;
    }

    /** Version, body, version; a pair is returned only if the version stood still.
        What comes back is the snapshot written under the recorded version, and at
        least as new as the store was when the load began. It writes nothing, and it
        gives up only if every attempt was crossed by another node's write. */
    method Load() returns (r: Result<Snapshot, LoadError>)
      requires redis.Valid()
      modifies this, redis
      ensures redis.Valid() && ByOthers(old(redis.history), redis.history, author)
      ensures r.Ok? ==> 1 <= lastVersion <= |redis.history| && SnapshotOf(r.value, Base(redis.history, lastVersion))
      ensures r.Ok? ==> |old(redis.history)| <= lastVersion
      ensures r == Err(NotExist) ==> lastVersion == 0 && old(redis.history) == []
      ensures r == Err(KeptChanging) ==> lastVersion == old(lastVersion)
      ensures r == Err(KeptChanging) ==> |old(redis.history)| + MAX_STORE_ATTEMPTS <= |redis.history|
    {
      for attempt := 0 to MAX_STORE_ATTEMPTS
        invariant redis.Valid() && ByOthers(old(redis.history), redis.history, author)
        invariant |old(redis.history)| + attempt <= |redis.history|
        invariant lastVersion == old(lastVersion)
      {
        var before, body := ReadVersionThenBody();
        if body.None? {
          lastVersion := before;
          return Err(NotExist);
        }
        redis.Interfere(author);
        var after := redis.version;
        if before == after {
          lastVersion := after;
          return Ok(body.value);
        }
      }
      return Err(KeptChanging);
    }

    /** GET of the version, then of the body, which may belong to a later version. */
    method ReadVersionThenBody() returns (before: nat, body: Option<Snapshot>)
      requires redis.Valid()
      modifies redis
      ensures redis.Valid() && ByOthers(old(redis.history), redis.history, author)
      ensures |old(redis.history)| <= before <= |redis.history| && body == redis.body
    {
      redis.Interfere(author);
      before := redis.version;
      redis.Interfere(author);
      body := redis.body;
    }

    /** Writes only if the stored version is still the recorded one, or blindly if
        none is recorded; the new version is one past the one it replaces, and what
        other nodes wrote before it is a chain if the history was. It writes once or
        not at all: a conflict is a version other than the recorded one, and it gives
        up only if every attempt was crossed by another node's write. */
    method Save(ring: KeyRing, ghost pending: seq<Mutation>) returns (r: SaveResult)
      requires redis.Valid() && WellFormed(ring.Value()) && VERSION_UNKNOWN <= lastVersion <= |redis.history|
      modifies this, redis
      ensures redis.Valid() && old(redis.history) <= redis.history
      ensures r.SavedAs? ==>
                && lastVersion == r.version == |redis.history|
                && ThenWrote(old(redis.history), redis.history, author,
                             Entry(Live(ring.Value()), pending, r.version == 1, author))
      ensures r.SavedAs? && old(lastVersion) != VERSION_UNKNOWN ==>
                r.version == old(lastVersion) + 1 && |old(redis.history)| == old(lastVersion)
      ensures !r.SavedAs? ==> lastVersion == old(lastVersion) && ByOthers(old(redis.history), redis.history, author)
      ensures r.ConflictFound? ==> old(lastVersion) != VERSION_UNKNOWN && lastVersion < |redis.history|
      ensures r.Contention? ==> |old(redis.history)| + MAX_STORE_ATTEMPTS <= |redis.history|
    {
      var s := ring.TakeSnapshot();
      var expected := lastVersion;
      for attempt := 0 to MAX_STORE_ATTEMPTS
        invariant redis.Valid() && ByOthers(old(redis.history), redis.history, author)
        invariant |old(redis.history)| + attempt <= |redis.history|
        invariant lastVersion == expected
      {
        r := Transact(s, expected, ring.Value(), pending);
        if r.SavedAs? { lastVersion := r.version; }
        if !r.Contention? { return; }
      }
      return Contention;
    }

    /** One WATCH transaction; `Contention` means that it has to be tried again. */
    method Transact(s: Snapshot, expected: int, ghost ring: Ring, ghost pending: seq<Mutation>) returns (r: SaveResult)
      requires redis.Valid() && WellFormed(ring) && SnapshotOf(s, ring) && VERSION_UNKNOWN <= expected
      modifies redis
      ensures redis.Valid() && old(redis.history) <= redis.history
      ensures r.SavedAs? ==>
                && r.version == |redis.history| && (expected != VERSION_UNKNOWN ==> r.version == expected + 1)
                && ThenWrote(old(redis.history), redis.history, author, Entry(Live(ring), pending, r.version == 1, author))
      ensures !r.SavedAs? ==> ByOthers(old(redis.history), redis.history, author)
      ensures r.ConflictFound? ==> expected != VERSION_UNKNOWN && expected != |redis.history|
      ensures r.Contention? ==> |old(redis.history)| + 1 <= |redis.history|
    {
      var watched, current := WatchThenRead();
      if expected != VERSION_UNKNOWN && current != expected { return ConflictFound; }
      ghost var mid := redis.history;
      redis.Interfere(author);
      OthersTwice(old(redis.history), mid, redis.history, author);
      ghost var h, e := redis.history, Entry(Live(ring), pending, current == 0, author);
      var ok := Exec(s, watched, current, ring, pending);
      if !ok { return Contention; }
      WroteOnTop(old(redis.history), h, author, e);
      return SavedAs(current + 1);
    }

    /** WATCH, then GET of the version. */
    method WatchThenRead() returns (watched: nat, current: nat)
      requires redis.Valid()
      modifies redis
      ensures redis.Valid() && ByOthers(old(redis.history), redis.history, author)
      ensures |old(redis.history)| <= watched <= current == |redis.history|
    {
      redis.Interfere(author);
      watched := redis.version;
      redis.Interfere(author);
      current := redis.version;
    }

    /** EXEC: commits if the watched version has not changed. */
    method Exec(s: Snapshot, watched: nat, current: nat, ghost ring: Ring, ghost pending: seq<Mutation>) returns (ok: bool)
      requires redis.Valid() && WellFormed(ring) && SnapshotOf(s, ring) && watched <= current <= redis.version
      modifies redis
      ensures redis.Valid() && (ok <==> watched == |old(redis.history)|)
      ensures !ok ==> redis.history == old(redis.history)
      ensures ok ==> redis.history == old(redis.history) + [Entry(Live(ring), pending, current == 0, author)]
    {
      ok := redis.version == watched;
      if ok {
        LiveSnapshot(s, ring);
        SaveStores(redis.history, ring, pending, author);
        redis.Commit(s, current + 1, Entry(Live(ring), pending, current == 0, author));
      }
    }
  }

  /** A snapshot of a ring is a snapshot of its live part. */
  lemma LiveSnapshot(s: Snapshot, r: Ring)
    requires WellFormed(r) && SnapshotOf(s, r)
    ensures SnapshotOf(s, Live(r))
  {
    LiveWellFormed(r);
  }

  /** What one more entry written from `ring` does to the history. */
  lemma SaveStores(h: seq<Entry>, ring: Ring, pending: seq<Mutation>, author: nat)
    requires Stored(h) && WellFormed(ring)
    ensures Stored(h + [Entry(Live(ring), pending, |h| == 0, author)])
  {
    LiveWellFormed(ring);
    StoredGrows(h, Entry(Live(ring), pending, |h| == 0, author));
  }

  /** A save whose ring is in step with the version it replaces keeps the chain. */
  lemma SaveChains(h: seq<Entry>, v: nat, ring: Ring, pending: seq<Mutation>, author: nat)
    requires 1 <= v == |h| && Chain(h[..v - 1]) && h[v - 1] == Entry(Live(ring), pending, v == 1, author)
    requires HandSane(h[..v - 1], Hand(ring, v - 1, pending))
    ensures Chain(h) && Tracks(ring, ApplyAll(Base(h, v), []))
  {
    CommitChains(h[..v - 1], Hand(ring, v - 1, pending), v == 1, author);
    assert h == h[..v - 1] + [h[v - 1]];
    SavedTracks(h, v, ring);
  }

  datatype RotateResult = RotatedAt(version: nat, m: Mutation) | Refused | Retry | GaveUp

  /** One Parsec process: its store handle and its ring, under one lock. */
  class Node {
    const store: RedisKeyRingStore
    const ring: KeyRing
    /** Mutations applied to the ring since it was last installed or saved. */
    ghost var pending: seq<Mutation>

    constructor (store: RedisKeyRingStore)
      ensures this.store == store && fresh(ring) && ring.Value() == EMPTY && pending == []
    {
      this.store := store;
      ring := new KeyRing();
      pending := [];
    }

    /** The ring is the recorded version plus the pending mutations. */
    ghost predicate InStep()
      reads this, store, store.redis, ring
    {
      && store.redis.Valid() && Chain(store.redis.history) && store.lastVersion >= 0
      && HandSane(store.redis.history, Hand(ring.Value(), store.lastVersion, pending))
    }

    /** In step, and past `Ensure`. */
    ghost predicate Ready()
      reads this, store, store.redis, ring
    {
      InStep() && store.lastVersion >= 1
    }

    method ApplyTo(m: Mutation) returns (ok: bool)
      requires WellFormed(ring.Value())
      modifies ring
      ensures ok == Accepts(old(ring.Value()), m) && ring.Value() == Apply(old(ring.Value()), m)
    {
      match m {
        case Add(id, alg, material, at) =>
          var k := ring.AddKey(id, alg, material, at);
          return k.Some?;
        case Promote(id) => ok := ring.PromoteKey(id);
        case Retire(id, at) => ok := ring.RetireKey(id, at);
      }
    }

    /** A loaded ring replaces the node's. */
    method Install(s: Snapshot)
      requires store.redis.Valid() && Chain(store.redis.history) && 1 <= store.lastVersion <= |store.redis.history|
      requires SnapshotOf(s, Base(store.redis.history, store.lastVersion))
      modifies this, ring
      ensures Ready() && pending == [] && ring.Value() == Base(store.redis.history, store.lastVersion)
      ensures Live(ring.Value()) == ring.Value()
    {
      ghost var b := Base(store.redis.history, store.lastVersion);
      BaseSnapshotted(store.redis.history, store.lastVersion);
      SnapshotThenLoad(s, b);
      var ok := ring.LoadSnapshot(s);
      pending := [];
      ApplyAllEmpty(b);
    }

    /** `reloadKeysLocked`: load and install under one lock. A failing reload leaves a
        ready node as it was, and happens only on an empty store or if other nodes
        kept writing. */
    method Reload() returns (ok: bool)
      requires store.redis.Valid() && Chain(store.redis.history) && WellFormed(ring.Value())
      modifies this, store, store.redis, ring
      ensures store.redis.Valid() && Chain(store.redis.history)
      ensures ByOthers(old(store.redis.history), store.redis.history, store.author)
      ensures !ok ==> old(store.redis.history) == []
                      || |old(store.redis.history)| + MAX_STORE_ATTEMPTS <= |store.redis.history|
      ensures ok ==> Ready() && pending == [] && |old(store.redis.history)| <= store.lastVersion
      ensures ok ==> ring.Value() == Base(store.redis.history, store.lastVersion) == Live(ring.Value())
      ensures !ok ==> ring.Value() == old(ring.Value()) && pending == old(pending)
      ensures !ok && old(Ready()) ==> Ready() && store.lastVersion == old(store.lastVersion)
    {
      var loaded := store.Load();
      ok := loaded.Ok?;
      if ok {
        Install(loaded.value);
      } else {
        assert loaded.error.NotExist? || loaded.error.KeptChanging?;
        HandGrows(old(store.redis.history), store.redis.history, old(ring.Value()), old(store.lastVersion), old(pending));
      }
    }

    /** The ring takes one more pending mutation, if it accepts it. */
    method Mutate(m: Mutation) returns (ok: bool)
      requires InStep()
      modifies this, ring
      ensures InStep() && (ok <==> Accepts(old(ring.Value()), m))
      ensures pending == old(pending) + if ok then [m] else []
      ensures ok ==> Landed(Live(ring.Value()), m)
    {
      ghost var hand := Hand(ring.Value(), store.lastVersion, pending);
      ok := ApplyTo(m);
      if ok {
        MutateKeeps(store.redis.history, hand, m);
        pending := pending + [m];
      }
    }

    /** A successful save leaves nothing pending; a failing one leaves the node in
        step with the version it had recorded. */
    method SaveRing() returns (r: SaveResult)
      requires InStep()
      modifies this, store, store.redis
      ensures InStep() && old(store.redis.history) <= store.redis.history
      ensures r.SavedAs? ==>
                && pending == [] && r.version == store.lastVersion == old(store.lastVersion) + 1
                && store.redis.history[r.version - 1]
                   == Entry(Live(ring.Value()), old(pending), old(store.lastVersion) == 0, store.author)
      ensures r.SavedAs? ==> |old(store.redis.history)| == old(store.lastVersion)
      ensures !r.SavedAs? ==> store.lastVersion == old(store.lastVersion) && pending == old(pending)
      ensures !r.SavedAs? ==> ByOthers(old(store.redis.history), store.redis.history, store.author)
      ensures r.Contention? ==> |old(store.redis.history)| + MAX_STORE_ATTEMPTS <= |store.redis.history|
      ensures r.ConflictFound? ==> store.lastVersion < |store.redis.history|
    {
      r := store.Save(ring, pending);
      if r.SavedAs? {
        ghost var h := store.redis.history;
        assert ByOthers(old(store.redis.history), h[..r.version - 1], store.author);
        HandGrows(old(store.redis.history), h[..r.version - 1], ring.Value(), old(store.lastVersion), pending);
        SaveChains(h, r.version, ring.Value(), pending, store.author);
        pending := [];
      } else {
        HandGrows(old(store.redis.history), store.redis.history, ring.Value(), old(store.lastVersion), pending);
      }
    }

    /** One attempt of `mutateKeys`; after a conflict the next one starts from the
        newer ring. */
    method Attempt(req: Request, m: Mutation) returns (r: RotateResult)
      requires Serves(req, m) && Ready()
      modifies this, store, store.redis, ring
      ensures Ready() && old(store.redis.history) <= store.redis.history
      ensures r.RotatedAt? ==> r.m == m && Rotated(req, r) && |old(store.redis.history)| + 1 == r.version
      ensures r.Refused? <==> !Accepts(old(ring.Value()), m)
      ensures r.Refused? ==> store.redis.history == old(store.redis.history)
      ensures !r.RotatedAt? ==> ByOthers(old(store.redis.history), store.redis.history, store.author)
      ensures r.Retry? ==> Reloaded(old(store.lastVersion)) && |old(store.redis.history)| <= store.lastVersion
      ensures r.GaveUp? ==> |old(store.redis.history)| + MAX_STORE_ATTEMPTS <= |store.redis.history|
    {
      var ok := Mutate(m);
      if !ok { return Refused; }
      r := Persist(req, m);
    }

    /** Save, and on a conflict reload. */
    method Persist(req: Request, m: Mutation) returns (r: RotateResult)
      requires Serves(req, m) && Ready()
      requires pending != [] && pending[|pending| - 1] == m && Landed(Live(ring.Value()), m)
      modifies this, store, store.redis, ring
      ensures Ready() && old(store.redis.history) <= store.redis.history
      ensures r.RotatedAt? ==> r.m == m && Rotated(req, r) && |old(store.redis.history)| + 1 == r.version
      ensures !r.Refused?
      ensures !r.RotatedAt? ==> ByOthers(old(store.redis.history), store.redis.history, store.author)
      ensures r.Retry? ==> Reloaded(old(store.lastVersion)) && |old(store.redis.history)| <= store.lastVersion
      ensures r.GaveUp? ==> |old(store.redis.history)| + MAX_STORE_ATTEMPTS <= |store.redis.history|
    {
      var saved := SaveRing();
      if saved.SavedAs? { return RotatedAt(saved.version, m); }
      if saved == Contention { return GaveUp; }
      var reloaded := Reload();
      return if reloaded then Retry else GaveUp;
    }

    /** The rotation is a version this node wrote, its last mutation is the reported
        one, its ring shows it, and the node holds exactly that version. */
    ghost predicate Rotated(req: Request, r: RotateResult)
      requires r.RotatedAt?
      reads this, store, store.redis, ring
    {
      && Ready() && pending == [] && 1 < r.version == store.lastVersion
      && Acknowledged(store.redis.history, Done(req, r.m, r.version))
      && OwnVersion(store.redis.history, store.author, Done(req, r.m, r.version))
    }

    /** The node holds a version newer than `v`, and nothing else. */
    ghost predicate Reloaded(v: int)
      requires Ready()
      reads this, store, store.redis, ring
    {
      v < store.lastVersion && ring.Value() == Base(store.redis.history, store.lastVersion)
    }

    /** Some attempt met a ring that refused its draw: the first one the ring the call
        started from, a later one a version written since. */
    ghost predicate RefusedBy(draws: seq<Mutation>, first: Ring, v: int)
      requires draws != []
      reads store, store.redis
    {
      || !Accepts(first, draws[0])
      || exists i, w: nat :: 1 <= i < |draws| && v < w <= |store.redis.history|
                             && !Accepts(Base(store.redis.history, w), draws[i])
    }

    /** `mutateKeys`: the caller's `draws` supply fresh randomness for every attempt.
        However it ends, the node is ready for the next call. It writes one version if
        it reports success and none otherwise. It refuses only what some attempt's
        ring refuses. It gives up only if every attempt met another node's write: one
        that the node may have missed before, and the others made meanwhile. */
    method MutateKeys(req: Request, draws: seq<Mutation>) returns (r: RotateResult)
      requires |draws| == MAX_MUTATION_ATTEMPTS && forall i :: 0 <= i < |draws| ==> Serves(req, draws[i])
      requires Ready()
      modifies this, store, store.redis, ring
      ensures Ready() && old(store.redis.history) <= store.redis.history
      ensures !r.Retry? && (r.RotatedAt? ==> Rotated(req, r))
      ensures r.RotatedAt? ==> ByOthers(old(store.redis.history), store.redis.history[..r.version - 1], store.author)
      ensures !r.RotatedAt? ==> ByOthers(old(store.redis.history), store.redis.history, store.author)
      ensures r.Refused? ==> RefusedBy(draws, old(ring.Value()), old(store.lastVersion))
      ensures !Accepts(old(ring.Value()), draws[0]) ==> r.Refused? && store.redis.history == old(store.redis.history)
      ensures r.GaveUp? ==> old(store.lastVersion) + MAX_MUTATION_ATTEMPTS <= |store.redis.history|
      ensures r.GaveUp? ==> |old(store.redis.history)| + MAX_MUTATION_ATTEMPTS - 1 <= |store.redis.history|
    {
      ghost var h, first, v := store.redis.history, ring.Value(), store.lastVersion;
      for attempt := 0 to MAX_MUTATION_ATTEMPTS
        invariant Trying(draws, attempt, h, first, v)
      {
        r := Try(req, draws, attempt, h, first, v);
        if !r.Retry? { return; }
      }
      assert store.lastVersion <= |store.redis.history|;
      return GaveUp;
    }

    /** `k` attempts of a call that started from `h`, `first` and `v` met a conflict. */
    ghost predicate Trying(draws: seq<Mutation>, k: nat, h: seq<Entry>, first: Ring, v: int)
      requires draws != []
      reads this, store, store.redis, ring
    {
      && Ready() && ByOthers(h, store.redis.history, store.author) && v + k <= store.lastVersion
      && (if k == 0 then ring.Value() == first && store.redis.history == h
          else Accepts(first, draws[0]) && Reloaded(v) && |h| + k - 1 <= store.lastVersion)
    }

    method Try(req: Request, draws: seq<Mutation>, k: nat, ghost h: seq<Entry>, ghost first: Ring, ghost v: int)
      returns (r: RotateResult)
      requires k < |draws| && Serves(req, draws[k]) && Trying(draws, k, h, first, v)
      modifies this, store, store.redis, ring
      ensures r.Retry? ==> Trying(draws, k + 1, h, first, v)
      ensures Ready() && h <= store.redis.history
      ensures r.RotatedAt? ==> Rotated(req, r) && ByOthers(h, store.redis.history[..r.version - 1], store.author)
      ensures !r.RotatedAt? ==> ByOthers(h, store.redis.history, store.author)
      ensures r.Refused? ==> RefusedBy(draws, first, v)
      ensures !Accepts(first, draws[0]) ==> r.Refused? && store.redis.history == h
      ensures r.GaveUp? ==> v + MAX_STORE_ATTEMPTS <= |store.redis.history| && |h| + MAX_STORE_ATTEMPTS <= |store.redis.history|
    {
      r := Attempt(req, draws[k]);
      if r.RotatedAt? {
        assert store.redis.history[..r.version - 1] == old(store.redis.history);
      }
    }

    /** `Ensure`: load, or bootstrap against "still empty" and adopt the winner's
        ring on a conflict. Every node that comes up holds a version of the chain, and
        with usable key material none stays down unless other nodes kept writing. */
    method Ensure(mint: Mutation) returns (up: bool, bootstrapped: bool)
      requires store.redis.Valid() && Chain(store.redis.history)
      requires ring.Value() == EMPTY && mint.Add? && mint.alg == HS256
      modifies this, store, store.redis, ring
      ensures store.redis.Valid() && Chain(store.redis.history) && old(store.redis.history) <= store.redis.history
      ensures up ==> Ready() && pending == [] && Live(ring.Value()) == Base(store.redis.history, store.lastVersion)
      ensures bootstrapped ==> up && old(store.redis.history) == [] && store.lastVersion == 1
                               && store.redis.history[0] == Entry(Live(ring.Value()), [mint], true, store.author)
      ensures !bootstrapped ==> ByOthers(old(store.redis.history), store.redis.history, store.author)
      ensures !up && Accepts(EMPTY, mint) ==> |old(store.redis.history)| + MAX_STORE_ATTEMPTS <= |store.redis.history|
      ensures up && !bootstrapped ==> store.redis.history != []
    {
      var s := store.Load();
      if s.Ok? {
        Install(s.value);
        return true, false;
      }
      assert s.error.NotExist? || s.error.KeptChanging?;
      if s != Err(NotExist) { return false, false; }
      var saved := BootstrapRing(mint);
      match saved {
        case Some(SavedAs(_)) => return true, true;
        case Some(ConflictFound) =>
          up := Reload();
          return up, false;
        case _ => return false, false;
      }
    }

    /** Mints the first key and saves it against "still empty". */
    method BootstrapRing(mint: Mutation) returns (r: Option<SaveResult>)
      requires store.redis.Valid() && Chain(store.redis.history)
      requires ring.Value() == EMPTY && store.lastVersion == 0 && mint.Add? && mint.alg == HS256
      modifies this, store, store.redis, ring
      ensures InStep() && old(store.redis.history) <= store.redis.history
      ensures r.Some? && r.value.SavedAs? ==>
                && old(store.redis.history) == [] && pending == [] && store.lastVersion == 1
                && store.redis.history[0] == Entry(Live(ring.Value()), [mint], true, store.author)
      ensures r.None? <==> !Accepts(EMPTY, mint)
      ensures r.None? || !r.value.SavedAs? ==> ByOthers(old(store.redis.history), store.redis.history, store.author)
      ensures r.Some? && r.value.ConflictFound? ==> store.redis.history != []
      ensures r.Some? && r.value.Contention? ==> |old(store.redis.history)| + MAX_STORE_ATTEMPTS <= |store.redis.history|
    {
      ApplyAllEmpty(EMPTY);
      pending := [];
      var ok := Mutate(mint);
      if !ok { return None; }
      assert [] + [mint] == [mint];
      var saved := SaveRing();
      return Some(saved);
    }
  }

  /** A ring stays in step with its version while the history grows. */
  lemma HandGrows(h: seq<Entry>, h': seq<Entry>, ring: Ring, v: int, pending: seq<Mutation>)
    requires h <= h'
    ensures v >= 0 && HandSane(h, Hand(ring, v, pending)) ==>
              HandSane(h', Hand(ring, v, pending)) && Base(h', v) == Base(h, v)
  {
  }
}

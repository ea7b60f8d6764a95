/** Every step of every node keeps what `Fleet.Sane` says. */
module FleetKeeps {
  import opened Text
  import opened KeyRings
  import opened Fleet

  // ---------- rings and versions ----------

  lemma ApplyAllEmpty(r: Ring)
    ensures ApplyAll(r, []) == r
  {
  }

  lemma ApplyAllOne(r: Ring, ms: seq<Mutation>, m: Mutation)
    ensures ApplyAll(r, ms + [m]) == Apply(ApplyAll(r, ms), m)
  {
    assert (ms + [m])[..|ms|] == ms;
  }

  lemma BaseSnapshotted(h: seq<Entry>, v: nat)
    requires Stored(h) && v <= |h|
    ensures WellFormed(Base(h, v)) && Live(Base(h, v)) == Base(h, v)
  {
    if v > 0 {
      assert Snapshotted(h, v - 1);
    } else {
      assert Live(EMPTY).byID == map[];
    }
  }

  lemma AcceptedLands(r: Ring, m: Mutation)
    requires WellFormed(r) && Accepts(r, m)
    ensures Landed(Live(Apply(r, m)), m)
  {
  }

  /** An accepted mutation keeps a ring in step with its base, and shows in it. */
  lemma MutateTracks(base: Ring, pending: seq<Mutation>, ring: Ring, m: Mutation)
    requires WellFormed(base) && WellFormed(ring) && Accepts(ring, m)
    requires Tracks(ring, ApplyAll(base, pending))
    ensures WellFormed(Apply(ring, m)) && Tracks(Apply(ring, m), ApplyAll(base, pending + [m]))
    ensures Landed(Live(Apply(ring, m)), m)
  {
    ApplyAllWellFormed(base, pending);
    ApplyWellFormed(ring, m);
    ApplyTracks(ring, ApplyAll(base, pending), m);
    ApplyAllOne(base, pending, m);
    AcceptedLands(ring, m);
  }

  /** A snapshot tracks itself. */
  lemma InstalledTracks(body: Ring)
    ensures Tracks(body, ApplyAll(body, []))
  {
    ApplyAllEmpty(body);
  }

  // ---------- a write disturbs no other node ----------

  lemma BaseStable(h: seq<Entry>, e: Entry, v: nat)
    requires v <= |h|
    ensures Base(h + [e], v) == Base(h, v)
  {
  }

  lemma SeenStable(h: seq<Entry>, e: Entry, before: nat, body: Ring)
    requires SeenSince(h, before, body)
    ensures SeenSince(h + [e], before, body)
  {
    var u :| 1 <= u <= |h| && before <= u && body == Base(h, u);
    BaseStable(h, e, u);
  }

  lemma WrittenStable(h: seq<Entry>, e: Entry, v: nat, body: Ring)
    requires Written(h, v, body)
    ensures Written(h + [e], v, body)
  {
    BaseStable(h, e, v);
  }

  lemma PCStable(h: seq<Entry>, e: Entry, n: Node)
    requires PCSane(h, n)
    ensures PCSane(h + [e], n)
  {
    match n.pc
    case ReadAfter(_, _, before, body) => SeenStable(h, e, before, body);
    case StoreLoaded(_, v, body) => WrittenStable(h, e, v, body);
    case _ =>
  }

  lemma DeliveryStable(h: seq<Entry>, e: Entry, x: Delivery)
    requires DeliverySane(h, x)
    ensures DeliverySane(h + [e], x)
  {
    match x
    case VersionReread(_, before, body) => SeenStable(h, e, before, body);
    case Recording(v, body) => WrittenStable(h, e, v, body);
    case Recorded(v, body) => WrittenStable(h, e, v, body);
    case Notifying(v, body, _) => WrittenStable(h, e, v, body);
    case Installing(v, body) => WrittenStable(h, e, v, body);
    case _ =>
  }

  lemma ReportsStable(h: seq<Entry>, e: Entry, me: nat, done: seq<Outcome>)
    requires Reports(h, me, done)
    ensures Reports(h + [e], me, done)
  {
    forall a | 0 <= a < |done| ensures Acknowledged(h + [e], done[a]) && OwnVersion(h + [e], me, done[a]) {
      assert Acknowledged(h, done[a]);
    }
  }

  lemma NodeStable(h: seq<Entry>, e: Entry, n: Node)
    requires NodeSane(h, n)
    ensures NodeSane(h + [e], n)
  {
    BaseStable(h, e, n.hand.version);
    PCStable(h, e, n);
    ReportsStable(h, e, n.me, n.done);
    forall d | 0 <= d < |n.deliveries| ensures DeliverySane(h + [e], n.deliveries[d]) {
      DeliveryStable(h, e, n.deliveries[d]);
    }
  }

  // ---------- the lock holder ----------

  /** Failing reports nothing new that needs acknowledging. */
  lemma FailedReports(h: seq<Entry>, me: nat, done: seq<Outcome>, req: Request)
    requires Reports(h, me, done)
    ensures Reports(h, me, done + [Failed(req)])
  {
  }

  lemma DoneReports(h: seq<Entry>, me: nat, done: seq<Outcome>, o: Outcome)
    requires Reports(h, me, done) && o.Done? && Acknowledged(h, o) && OwnVersion(h, me, o) && AllBelow(done, o.version)
    ensures Reports(h, me, done + [o])
  {
  }

  lemma MutateKeeps(h: seq<Entry>, hand: Hand, m: Mutation)
    requires Stored(h) && HandSane(h, hand) && Accepts(hand.ring, m)
    ensures HandSane(h, Changed(hand, m)) && Landed(Live(Changed(hand, m).ring), m)
  {
    BaseSnapshotted(h, hand.version);
    MutateTracks(Base(h, hand.version), hand.pending, hand.ring, m);
  }

  lemma MintKeeps(h: seq<Entry>, n: Node, m: Mutation)
    requires Stored(h) && NodeSane(h, n) && n.pc.Minting?
    ensures NodeSane(h, MintStep(n, m))
  {
    if Accepts(EMPTY, m) {
      ApplyAllEmpty(EMPTY);
      MutateKeeps(h, Hand(EMPTY, 0, []), m);
    }
  }

  lemma ApplyingKeeps(h: seq<Entry>, n: Node, m: Mutation)
    requires Stored(h) && NodeSane(h, n) && n.pc.Applying?
    ensures NodeSane(h, MintStep(n, m))
  {
    if Accepts(n.hand.ring, m) {
      MutateKeeps(h, n.hand, m);
    } else {
      FailedReports(h, n.me, n.done, n.pc.req);
    }
  }

  lemma LoadFailedKeeps(h: seq<Entry>, n: Node, l: LoadFor)
    requires NodeSane(h, n) && (Up(n.pc) <==> Running(l))
    ensures NodeSane(h, LoadFailed(n, l))
  {
    if l.AfterConflict? { FailedReports(h, n.me, n.done, l.req); }
  }

  lemma SaveFailedKeeps(h: seq<Entry>, n: Node, s: SaveFor)
    requires NodeSane(h, n) && (Up(n.pc) <==> s.Rotation?)
    ensures NodeSane(h, SaveFailed(n, s))
  {
    if s.Rotation? { FailedReports(h, n.me, n.done, s.req); }
  }

  lemma BodyKeeps(c: Cell, h: seq<Entry>, n: Node)
    requires CellMatches(c, h) && NodeSane(h, n) && n.pc.ReadBody?
    ensures NodeSane(h, LoadStep(c, n))
  {
    if c.body.None? {
      assert !Running(n.pc.l);
    } else {
      assert SeenSince(h, n.pc.before, Base(h, |h|));
    }
  }

  lemma RereadKeeps(c: Cell, h: seq<Entry>, n: Node)
    requires CellMatches(c, h) && NodeSane(h, n) && n.pc.ReadAfter?
    ensures NodeSane(h, LoadStep(c, n))
  {
    if n.pc.before != c.version && n.pc.tries >= MAX_STORE_ATTEMPTS { LoadFailedKeeps(h, n, n.pc.l); }
  }

  lemma LoadKeeps(c: Cell, h: seq<Entry>, n: Node)
    requires CellMatches(c, h) && NodeSane(h, n) && Loading(n.pc)
    ensures NodeSane(h, LoadStep(c, n))
  {
    if n.pc.ReadBody? { BodyKeeps(c, h, n); }
    if n.pc.ReadAfter? { RereadKeeps(c, h, n); }
  }

  lemma StoreLoadedKeeps(h: seq<Entry>, n: Node)
    requires Stored(h) && NodeSane(h, n) && n.pc.StoreLoaded?
    ensures NodeSane(h, LocalStep(n))
  {
    InstalledSane(h, n.pc.version, n.pc.body);
    if n.pc.l.AfterConflict? { FailedReports(h, n.me, n.done, n.pc.l.req); }
  }

  lemma InstalledSane(h: seq<Entry>, v: nat, body: Ring)
    requires Stored(h) && Written(h, v, body)
    ensures HandSane(h, Hand(body, v, []))
  {
    BaseSnapshotted(h, v);
    InstalledTracks(body);
  }

  lemma StoreSavedKeeps(h: seq<Entry>, n: Node)
    requires NodeSane(h, n) && n.pc.StoreSaved?
    ensures NodeSane(h, LocalStep(n))
  {
    var s, v := n.pc.s, n.pc.version;
    SavedTracks(h, v, n.hand.ring);
    if s.Rotation? { DoneReports(h, n.me, n.done, Done(s.req, s.m, v)); }
  }

  lemma LocalKeeps(h: seq<Entry>, n: Node)
    requires Stored(h) && NodeSane(h, n)
    ensures NodeSane(h, LocalStep(n))
  {
    if n.pc.StoreLoaded? { StoreLoadedKeeps(h, n); }
    if n.pc.StoreSaved? { StoreSavedKeeps(h, n); }
  }

  /** A ring is in step with the version that was written from it. */
  lemma SavedTracks(h: seq<Entry>, v: nat, ring: Ring)
    requires 1 <= v <= |h| && h[v - 1].ring == Live(ring) && WellFormed(ring)
    ensures Tracks(ring, ApplyAll(Base(h, v), []))
  {
    LiveWellFormed(ring);
    ApplyAllEmpty(Live(ring));
  }

  /** The saving steps that write nothing. */
  lemma QuietSaveKeeps(c: Cell, h: seq<Entry>, n: Node, lost: bool)
    requires CellMatches(c, h) && NodeSane(h, n) && Saving(n.pc)
    requires n.pc.Exec? ==> c.version != n.pc.watched
    ensures var e := SaveStep(c, n, lost); e.wrote == None && e.cell == c && NodeSane(h, e.node)
  {
    if n.pc.Exec? { SaveFailedKeeps(h, n, n.pc.s); }
  }

  lemma CommitKeeps(c: Cell, h: seq<Entry>, n: Node, lost: bool)
    requires CellMatches(c, h) && Stored(h) && NodeSane(h, n) && n.pc.Exec? && c.version == n.pc.watched
    ensures var e := SaveStep(c, n, lost);
            var h' := h + [Committed(n.me, n.hand, n.pc.s)];
            e.wrote == Some(Committed(n.me, n.hand, n.pc.s))
            && CellMatches(e.cell, h') && Stored(h') && NodeSane(h', e.node)
  {
    var e := Committed(n.me, n.hand, n.pc.s);
    LiveWellFormed(n.hand.ring);
    StoredGrows(h, e);
    NodeStable(h, e, n);
    if lost {
      SaveFailedKeeps(h + [e], n, n.pc.s);
    } else {
      assert (h + [e])[|h|] == e;
      ReportedBelow(h, n.me, n.done);
    }
  }

  lemma ReportedBelow(h: seq<Entry>, me: nat, done: seq<Outcome>)
    requires Reports(h, me, done)
    ensures AllBelow(done, |h| + 1)
  {
    forall a | 0 <= a < |done| && done[a].Done? ensures done[a].version < |h| + 1 {
      assert Acknowledged(h, done[a]);
    }
  }

  lemma StoredGrows(h: seq<Entry>, e: Entry)
    requires Stored(h) && WellFormed(e.ring) && Live(e.ring) == e.ring && (e.bootstrap <==> h == [])
    ensures Stored(h + [e])
  {
    forall v | 0 <= v < |h + [e]| ensures Snapshotted(h + [e], v) {
      if v < |h| { assert Snapshotted(h, v); }
    }
  }

  lemma FaultKeeps(h: seq<Entry>, n: Node)
    requires NodeSane(h, n)
    ensures NodeSane(h, OwnStep(n, Fault))
  {
    if Loading(n.pc) {
      LoadFailedKeeps(h, n, n.pc.l);
    } else if Saving(n.pc) {
      SaveFailedKeeps(h, n, n.pc.s);
    }
  }

  // ---------- the watcher ----------

  /** Moving one delivery on. */
  lemma AtKeeps(h: seq<Entry>, n: Node, d: nat, x: Delivery)
    requires NodeSane(h, n) && d < |n.deliveries| && DeliverySane(h, x) && Up(n.pc)
    ensures NodeSane(h, At(n, d, x))
  {
  }

  /** The reading steps of a delivery. */
  lemma ReadingKeeps(c: Cell, h: seq<Entry>, n: Node, d: nat)
    requires CellMatches(c, h) && NodeSane(h, n) && d < |n.deliveries| && Up(n.pc)
    requires var x := n.deliveries[d]; x.Quiet? || x.VersionRead? || x.BodyRead? || x.VersionReread?
    ensures NodeSane(h, DeliverStep(c, n, d))
  {
    match n.deliveries[d]
    case Quiet => AtKeeps(h, n, d, VersionRead(1));
    case VersionRead(t) => AtKeeps(h, n, d, BodyRead(t, c.version));
    case BodyRead(t, before) =>
      assert c.body == Some(Base(h, |h|)) && SeenSince(h, before, Base(h, |h|));
      AtKeeps(h, n, d, VersionReread(t, before, c.body.value));
    case VersionReread(t, before, body) => AtKeeps(h, n, d, DeliverStep(c, n, d).deliveries[d]);
  }

  /** The steps that record, compare and install. */
  lemma DeliveringKeeps(c: Cell, h: seq<Entry>, n: Node, d: nat)
    requires Stored(h) && NodeSane(h, n) && d < |n.deliveries| && Up(n.pc)
    requires var x := n.deliveries[d]; x.Recording? || x.Recorded? || x.Notifying? || x.Installing?
    ensures NodeSane(h, DeliverStep(c, n, d))
  {
    var x := n.deliveries[d];
    assert DeliverySane(h, x);
    AtKeeps(h, n, d, DeliverStep(c, n, d).deliveries[d]);
    if x.Installing? { InstalledSane(h, x.version, x.body); }
  }

  lemma DeliverKeeps(c: Cell, h: seq<Entry>, n: Node, d: nat)
    requires CellMatches(c, h) && Stored(h) && NodeSane(h, n) && d < |n.deliveries|
    ensures NodeSane(h, DeliverStep(c, n, d))
  {
    var x := n.deliveries[d];
    if !Up(n.pc) {
      assert x.Quiet?;
    } else if x.Recording? || x.Recorded? || x.Notifying? || x.Installing? {
      DeliveringKeeps(c, h, n, d);
    } else {
      ReadingKeeps(c, h, n, d);
    }
  }

  lemma InterruptKeeps(h: seq<Entry>, n: Node, d: nat)
    requires NodeSane(h, n) && d < |n.deliveries|
    ensures NodeSane(h, Interrupted(n, d))
  {
    if !n.deliveries[d].Quiet? { AtKeeps(h, n, d, Quiet); }
  }

  // ---------- the fleet ----------

  lemma OwnKeeps(h: seq<Entry>, n: Node, ch: Choice)
    requires Stored(h) && NodeSane(h, n)
    ensures NodeSane(h, OwnStep(n, ch))
  {
    match ch
    case Mint(m) =>
      if n.pc.Minting? { MintKeeps(h, n, m); }
      if n.pc.Applying? { ApplyingKeeps(h, n, m); }
    case Fault => FaultKeeps(h, n);
    case Local => LocalKeeps(h, n);
    case _ =>
  }

  /** What a step leaves behind. */
  ghost predicate StepSane(h: seq<Entry>, n: Node, e: Effect) {
    && CellMatches(e.cell, Extended(h, e)) && Stored(Extended(h, e))
    && NodeSane(Extended(h, e), e.node) && e.node.me == n.me
  }

  lemma SaveKeeps(c: Cell, h: seq<Entry>, n: Node, lost: bool)
    requires CellMatches(c, h) && Stored(h) && NodeSane(h, n) && Saving(n.pc)
    ensures StepSane(h, n, SaveStep(c, n, lost))
  {
    if n.pc.Exec? && c.version == n.pc.watched {
      CommitKeeps(c, h, n, lost);
    } else {
      QuietSaveKeeps(c, h, n, lost);
    }
  }

  /** A step that writes nothing. */
  lemma SilentSane(c: Cell, h: seq<Entry>, n: Node, n': Node)
    requires CellMatches(c, h) && Stored(h) && NodeSane(h, n') && n'.me == n.me
    ensures StepSane(h, n, Effect(c, None, n'))
  {
  }

  lemma RedisKeeps(c: Cell, h: seq<Entry>, n: Node)
    requires CellMatches(c, h) && Stored(h) && NodeSane(h, n)
    ensures StepSane(h, n, NodeStep(c, n, Redis))
  {
    if Loading(n.pc) {
      LoadKeeps(c, h, n);
      SilentSane(c, h, n, LoadStep(c, n));
    } else if Saving(n.pc) {
      SaveKeeps(c, h, n, false);
    } else {
      SilentSane(c, h, n, n);
    }
  }

  lemma DeliverStepKeeps(c: Cell, h: seq<Entry>, n: Node, d: nat)
    requires CellMatches(c, h) && Stored(h) && NodeSane(h, n)
    ensures StepSane(h, n, NodeStep(c, n, Deliver(d)))
  {
    if d < |n.deliveries| {
      DeliverKeeps(c, h, n, d);
      SilentSane(c, h, n, DeliverStep(c, n, d));
    } else {
      SilentSane(c, h, n, n);
    }
  }

  lemma DeliverFaultKeeps(c: Cell, h: seq<Entry>, n: Node, d: nat)
    requires CellMatches(c, h) && Stored(h) && NodeSane(h, n)
    ensures StepSane(h, n, NodeStep(c, n, DeliverFault(d)))
  {
    if d < |n.deliveries| {
      InterruptKeeps(h, n, d);
      SilentSane(c, h, n, Interrupted(n, d));
    } else {
      SilentSane(c, h, n, n);
    }
  }

  /** Every step of one node: a Redis command, a fault, a lost reply, a local store
      or a step of its watcher. */
  lemma StepKeeps(c: Cell, h: seq<Entry>, n: Node, ch: Choice)
    requires CellMatches(c, h) && Stored(h) && NodeSane(h, n)
    ensures StepSane(h, n, NodeStep(c, n, ch))
  {
    if ch.Redis? {
      RedisKeeps(c, h, n);
    } else if ch.LostReply? {
      if n.pc.Exec? { SaveKeeps(c, h, n, true); }
    } else if ch.Deliver? {
      DeliverStepKeeps(c, h, n, ch.d);
    } else if ch.DeliverFault? {
      DeliverFaultKeeps(c, h, n, ch.d);
    } else {
      OwnKeeps(h, n, ch);
      SilentSane(c, h, n, OwnStep(n, ch));
    }
  }

  lemma NextKeeps(s: State, mv: Move)
    requires Sane(s)
    ensures Sane(Next(s, mv)) && s.history <= Next(s, mv).history
  {
    if mv.node < |s.nodes| {
      var e := NodeStep(s.cell, s.nodes[mv.node], mv.choice);
      var s' := Next(s, mv);
      StepKeeps(s.cell, s.history, s.nodes[mv.node], mv.choice);
      forall i | 0 <= i < |s'.nodes| ensures s'.nodes[i].me == i && NodeSane(s'.history, s'.nodes[i]) {
        if i != mv.node && e.wrote.Some? { NodeStable(s.history, e.wrote.value, s.nodes[i]); }
      }
    }
  }

  lemma {:induction false} RunKeeps(s: State, moves: seq<Move>)
    requires Sane(s)
    ensures Sane(Run(s, moves)) && s.history <= Run(s, moves).history
  {
    if moves == [] {
    } else {
      RunKeeps(s, moves[..|moves| - 1]);
      NextKeeps(Run(s, moves[..|moves| - 1]), moves[|moves| - 1]);
    }
  }

  lemma InitialSane(count: nat, threads: nat)
    ensures Sane(Initial(count, threads))
  {
    ApplyAllEmpty(EMPTY);
  }
}

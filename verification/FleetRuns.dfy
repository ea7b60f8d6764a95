/** What whole runs of the fleet guarantee. Acknowledgement, bootstrap and loading
    hold whatever the watcher does. That no rotation is lost needs every rotation to
    start in step: with the version it will save against equal to the version of the
    ring it changes. One operation at a time on each node is enough for that. */
module FleetRuns {
  import opened Text
  import opened KeyRings
  import opened Fleet
  import opened FleetKeeps

  // ---------- whatever the watcher does ----------

  /** Every success reported to a caller is the last mutation of a version that this
      node wrote. */
  lemma SuccessesAreWritten(count: nat, threads: nat, moves: seq<Move>, i: nat, a: nat)
    requires var s := Run(Initial(count, threads), moves); i < |s.nodes| && a < |s.nodes[i].done|
    ensures var s := Run(Initial(count, threads), moves);
            Acknowledged(s.history, s.nodes[i].done[a]) && OwnVersion(s.history, i, s.nodes[i].done[a])
  {
    InitialSane(count, threads);
    RunKeeps(Initial(count, threads), moves);
    var s := Run(Initial(count, threads), moves);
    assert s.nodes[i].me == i && NodeSane(s.history, s.nodes[i]);
  }

  /** No two successes anywhere in the fleet share a version. */
  lemma SuccessesAreDistinct(count: nat, threads: nat, moves: seq<Move>, i: nat, a: nat, j: nat, b: nat)
    requires var s := Run(Initial(count, threads), moves);
             && i < |s.nodes| && a < |s.nodes[i].done| && j < |s.nodes| && b < |s.nodes[j].done| && (i != j || a != b)
    ensures var s := Run(Initial(count, threads), moves);
            DifferentVersions(s.nodes[i].done[a], s.nodes[j].done[b])
  {
    InitialSane(count, threads);
    RunKeeps(Initial(count, threads), moves);
    var s := Run(Initial(count, threads), moves);
    assert s.nodes[i].me == i && NodeSane(s.history, s.nodes[i]);
    assert s.nodes[j].me == j && NodeSane(s.history, s.nodes[j]);
    ReportsDiffer(s.history, i, s.nodes[i].done, a, j, s.nodes[j].done, b);
  }

  lemma ReportsDiffer(h: seq<Entry>, i: nat, done: seq<Outcome>, a: nat, j: nat, done': seq<Outcome>, b: nat)
    requires Reports(h, i, done) && Reports(h, j, done') && a < |done| && b < |done'|
    requires if i == j then done == done' && a != b else true
    ensures DifferentVersions(done[a], done'[b])
  {
    assert OwnVersion(h, i, done[a]) && OwnVersion(h, j, done'[b]);
  }

  predicate DifferentVersions(o: Outcome, p: Outcome) {
    o.Done? && p.Done? ==> o.version != p.version
  }

  /** Whatever is written between its three reads, a load that gets as far as
      recording holds a body together with the version it was written under, on the
      lock holder's side and on the watcher's. */
  lemma LoadPairsBodyWithVersion(count: nat, threads: nat, moves: seq<Move>, i: nat)
    requires i < |Run(Initial(count, threads), moves).nodes|
    ensures var s := Run(Initial(count, threads), moves);
            var n := s.nodes[i];
            && (n.pc.StoreLoaded? ==> Written(s.history, n.pc.version, n.pc.body))
            && forall d :: 0 <= d < |n.deliveries| && n.deliveries[d].Recording? ==>
                 Written(s.history, n.deliveries[d].version, n.deliveries[d].body)
  {
    InitialSane(count, threads);
    RunKeeps(Initial(count, threads), moves);
    var s := Run(Initial(count, threads), moves);
    assert NodeSane(s.history, s.nodes[i]);
    forall d | 0 <= d < |s.nodes[i].deliveries| && s.nodes[i].deliveries[d].Recording?
      ensures Written(s.history, s.nodes[i].deliveries[d].version, s.nodes[i].deliveries[d].body)
    {
      assert DeliverySane(s.history, s.nodes[i].deliveries[d]);
    }
  }

  /** A node with nothing unsaved serves exactly the live keys of its version. */
  lemma CleanHandServesItsVersion(h: seq<Entry>, hand: Hand)
    requires Stored(h) && HandSane(h, hand) && hand.pending == []
    ensures Live(hand.ring) == Base(h, hand.version)
  {
    ApplyAllEmpty(Base(h, hand.version));
    TracksLive(hand.ring, Base(h, hand.version));
    BaseSnapshotted(h, hand.version);
  }

  /** Bootstrap agreement: however many nodes boot against an empty store at once,
      exactly one save bootstraps, and while no rotation has been persisted every
      node that is up without unsaved changes holds that one ring. */
  lemma BootstrapAgreement(count: nat, threads: nat, moves: seq<Move>)
    ensures var s := Run(Initial(count, threads), moves);
            && (forall v :: 0 <= v < |s.history| ==> (s.history[v].bootstrap <==> v == 0))
            && (forall i :: 0 <= i < |s.nodes| && Up(s.nodes[i].pc) ==> |s.history| >= 1)
            && (|s.history| == 1 ==>
                  forall i :: 0 <= i < |s.nodes| && Up(s.nodes[i].pc) && s.nodes[i].hand.pending == [] ==>
                    Live(s.nodes[i].hand.ring) == s.history[0].ring)
  {
    InitialSane(count, threads);
    RunKeeps(Initial(count, threads), moves);
    var s := Run(Initial(count, threads), moves);
    forall v | 0 <= v < |s.history| ensures s.history[v].bootstrap <==> v == 0 {
      assert Snapshotted(s.history, v);
    }
    forall i | 0 <= i < |s.nodes| && Up(s.nodes[i].pc) ensures |s.history| >= 1 {
      assert NodeSane(s.history, s.nodes[i]);
    }
    forall i | 0 <= i < |s.nodes| && Up(s.nodes[i].pc) && s.nodes[i].hand.pending == [] && |s.history| == 1
      ensures Live(s.nodes[i].hand.ring) == s.history[0].ring
    {
      assert NodeSane(s.history, s.nodes[i]);
      CleanHandServesItsVersion(s.history, s.nodes[i].hand);
    }
  }

  // ---------- rotations that start in step ----------

  /** The version a rotation would save against is the version of its ring. */
  predicate InStep(n: Node) {
    n.last == n.hand.version
  }

  /** Mutating is when a rotation fixes both. */
  predicate InStepMove(s: State, mv: Move) {
    mv.node < |s.nodes| && mv.choice.Mint? && s.nodes[mv.node].pc.Applying? ==> InStep(s.nodes[mv.node])
  }

  predicate InStepRun(s: State, moves: seq<Move>) {
    moves == []
    || (InStepRun(s, moves[..|moves| - 1]) && InStepMove(Run(s, moves[..|moves| - 1]), moves[|moves| - 1]))
  }

  ghost predicate Aligned(n: Node) {
    Saving(n.pc) ==> n.pc.expected == n.hand.version
  }

  ghost predicate Linked(s: State) {
    Chain(s.history) && forall i :: 0 <= i < |s.nodes| ==> Aligned(s.nodes[i])
  }

  lemma ChainStored(h: seq<Entry>)
    requires Chain(h)
    ensures Stored(h)
  {
    forall v | 0 <= v < |h| ensures Snapshotted(h, v) {
      assert Extends(h, v);
    }
  }

  /** Writing a ring that is in step with the newest version extends the chain. */
  lemma CommitChains(h: seq<Entry>, hand: Hand, boot: bool, me: nat)
    requires Chain(h) && HandSane(h, hand) && hand.version == |h| && (boot <==> h == [])
    ensures Chain(h + [Entry(Live(hand.ring), hand.pending, boot, me)])
  {
    var e := Entry(Live(hand.ring), hand.pending, boot, me);
    LiveWellFormed(hand.ring);
    TracksLive(hand.ring, ApplyAll(Base(h, |h|), hand.pending));
    ChainGrows(h, e);
  }

  /** A chain grows by an entry exactly when the entry extends it. */
  lemma ChainGrows(h: seq<Entry>, e: Entry)
    requires Chain(h)
    ensures Chain(h + [e]) <==> Extends(h + [e], |h|)
  {
    forall v | 0 <= v < |h| ensures Extends(h + [e], v) {
      BaseStable(h, e, v);
      assert Extends(h, v);
    }
  }

  lemma OwnAligned(n: Node, ch: Choice)
    requires Aligned(n) && (ch.Mint? && n.pc.Applying? ==> InStep(n)) && (n.pc.Minting? ==> n.last == 0)
    ensures Aligned(OwnStep(n, ch))
  {
  }

  lemma SaveAligned(c: Cell, n: Node, lost: bool)
    requires Aligned(n) && Saving(n.pc)
    ensures Aligned(SaveStep(c, n, lost).node)
  {
  }

  lemma DeliverAligned(c: Cell, n: Node, d: nat)
    requires Aligned(n) && d < |n.deliveries|
    ensures Aligned(DeliverStep(c, n, d))
  {
  }

  lemma StepAligned(c: Cell, n: Node, ch: Choice)
    requires Aligned(n) && (ch.Mint? && n.pc.Applying? ==> InStep(n)) && (n.pc.Minting? ==> n.last == 0)
    ensures Aligned(NodeStep(c, n, ch).node)
  {
    match ch
    case Redis => if Saving(n.pc) { SaveAligned(c, n, false); }
    case LostReply => if n.pc.Exec? { SaveAligned(c, n, true); }
    case Deliver(d) => if d < |n.deliveries| { DeliverAligned(c, n, d); }
    case DeliverFault(d) =>
    case _ => OwnAligned(n, ch);
  }

  /** Only a commit writes, and an aligned one links. */
  lemma StepLinks(c: Cell, h: seq<Entry>, n: Node, ch: Choice)
    requires CellMatches(c, h) && NodeSane(h, n) && Chain(h) && Aligned(n)
    ensures Chain(Extended(h, NodeStep(c, n, ch)))
  {
    if (ch.Redis? || ch.LostReply?) && n.pc.Exec? && c.version == n.pc.watched {
      CommitChains(h, n.hand, n.pc.s.Bootstrap?, n.me);
    }
  }

  lemma NextLinks(s: State, mv: Move)
    requires Sane(s) && Linked(s) && InStepMove(s, mv)
    ensures Linked(Next(s, mv))
  {
    if mv.node < |s.nodes| {
      var n := s.nodes[mv.node];
      assert NodeSane(s.history, n) && Aligned(n);
      StepAligned(s.cell, n, mv.choice);
      StepLinks(s.cell, s.history, n, mv.choice);
    }
  }

  lemma {:induction false} RunLinks(s: State, moves: seq<Move>)
    requires Sane(s) && Linked(s) && InStepRun(s, moves)
    ensures Linked(Run(s, moves))
  {
    if moves == [] {
    } else {
      var k := |moves| - 1;
      RunLinks(s, moves[..k]);
      RunKeeps(s, moves[..k]);
      NextLinks(Run(s, moves[..k]), moves[k]);
    }
  }

  /** No lost rotation: in every run whose rotations start in step, each persisted
      version is the previous version plus the mutations its writer recorded. */
  lemma NoLostRotation(count: nat, threads: nat, moves: seq<Move>)
    requires InStepRun(Initial(count, threads), moves)
    ensures Chain(Run(Initial(count, threads), moves).history)
  {
    InitialSane(count, threads);
    RunLinks(Initial(count, threads), moves);
  }

  /** Some version in `(v, w]` retires `id`. */
  predicate RetiredBetween(h: seq<Entry>, v: nat, w: nat, id: string)
    requires v <= w <= |h|
  {
    exists u :: v <= u < w && RetiredBy(h[u].muts, id)
  }

  /** Along the chain a key lives until a rotation retires it. */
  lemma {:induction false} KeySurvives(h: seq<Entry>, v: nat, w: nat, id: string)
    requires Chain(h) && v <= w <= |h| && Resolves(Base(h, v), id) && !RetiredBetween(h, v, w, id)
    ensures Resolves(Base(h, w), id) && SameVerifier(Base(h, v).byID[id], Base(h, w).byID[id])
    decreases w
  {
    if v == w {
    } else {
      KeySurvives(h, v, w - 1, id);
      assert Extends(h, w - 1) && !RetiredBy(h[w - 1].muts, id);
      ChainStored(h);
      BaseSnapshotted(h, w - 1);
      ApplyAllWellFormed(Base(h, w - 1), h[w - 1].muts);
      ApplyAllKeepsKey(Base(h, w - 1), h[w - 1].muts, id);
      LiveWellFormed(ApplyAll(Base(h, w - 1), h[w - 1].muts));
    }
  }

  /** A generated key that was reported to its caller is in every later version,
      with the reported material, until some rotation retires it. */
  lemma GeneratedKeySurvives(count: nat, threads: nat, moves: seq<Move>, i: nat, a: nat, w: nat)
    requires InStepRun(Initial(count, threads), moves)
    requires var s := Run(Initial(count, threads), moves);
             && i < |s.nodes| && a < |s.nodes[i].done| && s.nodes[i].done[a].Done? && s.nodes[i].done[a].req.Generate?
             && var o := s.nodes[i].done[a];
                o.version <= w <= |s.history| && !RetiredBetween(s.history, o.version, w, o.m.id)
    ensures var s := Run(Initial(count, threads), moves);
            var o := s.nodes[i].done[a];
            && o.m.Add? && o.m.alg == o.req.alg
            && Resolves(Base(s.history, w), o.m.id)
            && Base(s.history, w).byID[o.m.id].material == o.m.material
  {
    NoLostRotation(count, threads, moves);
    SuccessesAreWritten(count, threads, moves, i, a);
    var s := Run(Initial(count, threads), moves);
    var h, o := s.history, s.nodes[i].done[a];
    assert Acknowledged(h, o);
    ChainStored(h);
    LandedResolves(h, o.version, o.m);
    KeySurvives(h, o.version, w, o.m.id);
  }

  lemma LandedResolves(h: seq<Entry>, v: nat, m: Mutation)
    requires Stored(h) && 1 <= v <= |h| && m.Add? && Landed(h[v - 1].ring, m)
    ensures Resolves(Base(h, v), m.id) && Base(h, v).byID[m.id].material == m.material
  {
    BaseSnapshotted(h, v);
    LiveWellFormed(h[v - 1].ring);
  }

  /** Zero downtime across the fleet: a key persisted in version `v` verifies on
      every node that is up, in the middle of whatever it is doing, once the node's
      ring is of version `v` or later, until a rotation or the node itself retires it. */
  lemma FleetKeepsResolving(count: nat, threads: nat, moves: seq<Move>, v: nat, id: string, i: nat)
    requires InStepRun(Initial(count, threads), moves)
    requires var s := Run(Initial(count, threads), moves);
             && i < |s.nodes| && v <= s.nodes[i].hand.version <= |s.history| && Resolves(Base(s.history, v), id)
             && !RetiredBetween(s.history, v, s.nodes[i].hand.version, id) && !RetiredBy(s.nodes[i].hand.pending, id)
    ensures var s := Run(Initial(count, threads), moves);
            var ring := s.nodes[i].hand.ring;
            Resolves(ring, id) && SameVerifier(Base(s.history, v).byID[id], ring.byID[id])
  {
    InitialSane(count, threads);
    RunKeeps(Initial(count, threads), moves);
    NoLostRotation(count, threads, moves);
    var s := Run(Initial(count, threads), moves);
    assert NodeSane(s.history, s.nodes[i]);
    KeySurvives(s.history, v, s.nodes[i].hand.version, id);
    HandKeepsKey(s.history, s.nodes[i].hand, id);
  }

  lemma HandKeepsKey(h: seq<Entry>, hand: Hand, id: string)
    requires Stored(h) && HandSane(h, hand) && Resolves(Base(h, hand.version), id) && !RetiredBy(hand.pending, id)
    ensures Resolves(hand.ring, id) && SameVerifier(Base(h, hand.version).byID[id], hand.ring.byID[id])
  {
    BaseSnapshotted(h, hand.version);
    ApplyAllKeepsKey(Base(h, hand.version), hand.pending, id);
  }
}

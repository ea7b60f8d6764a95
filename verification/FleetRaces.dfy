/** Exactly when a rotation is safe, and the three ways in which the watcher, which
    records a version before it holds the lock, makes one unsafe. */
module FleetRaces {
  import opened Text
  import opened KeyRings
  import opened Fleet
  import opened FleetKeeps
  import opened FleetRuns

  // ---------- exactly when the next rotation is safe ----------

  /** The ring is the recorded version plus the pending mutations. */
  ghost predicate Synced(h: seq<Entry>, hand: Hand, last: int) {
    0 <= last <= |h| && Tracks(hand.ring, ApplyAll(Base(h, last), hand.pending))
  }

  /** What a rotation of `m` writes. */
  function NextEntry(me: nat, hand: Hand, m: Mutation): Entry {
    Entry(Live(Apply(hand.ring, m)), hand.pending + [m], false, me)
  }

  /** A save that passes the version check keeps the chain, whatever is rotated next,
      if and only if the ring is in step with the version it is checked against. */
  lemma SaveIsSafeExactlyWhenSynced(h: seq<Entry>, me: nat, hand: Hand)
    requires Chain(h) && h != [] && WellFormed(hand.ring)
    ensures (forall m :: Accepts(hand.ring, m) ==> Chain(h + [NextEntry(me, hand, m)])) <==> Synced(h, hand, |h|)
  {
    ChainStored(h);
    BaseSnapshotted(h, |h|);
    ApplyAllWellFormed(Base(h, |h|), hand.pending);
    var x := ApplyAll(Base(h, |h|), hand.pending);
    if Synced(h, hand, |h|) {
      forall m | Accepts(hand.ring, m) ensures Chain(h + [NextEntry(me, hand, m)]) {
        MutateTracks(Base(h, |h|), hand.pending, hand.ring, m);
        CommitChains(h, Hand(Apply(hand.ring, m), |h|, hand.pending + [m]), false, me);
      }
    } else {
      var m := Separator(hand.ring, x);
      BrokenChain(h, me, hand, m);
    }
  }

  lemma BrokenChain(h: seq<Entry>, me: nat, hand: Hand, m: Mutation)
    requires Chain(h)
    requires Live(Apply(hand.ring, m)) != Live(Apply(ApplyAll(Base(h, |h|), hand.pending), m))
    ensures !Chain(h + [NextEntry(me, hand, m)])
  {
    var e := NextEntry(me, hand, m);
    ChainGrows(h, e);
    BaseStable(h, e, |h|);
    ApplyAllOne(Base(h, |h|), hand.pending, m);
    assert (h + [e])[|h|] == e;
  }

  /** Rings that are out of step react differently to some mutation the first one
      accepts: a fresh key, or a key that only the second one remembers retiring. */
  lemma Separator(a: Ring, b: Ring) returns (m: Mutation)
    requires WellFormed(a) && WellFormed(b) && !Tracks(a, b)
    ensures Accepts(a, m) && Live(Apply(a, m)) != Live(Apply(b, m))
  {
    if Live(a) == Live(b) {
      var id := Forgotten(a, b);
      m := Add(id, RS256, Private(0), 0);
      assert id in Live(Apply(a, m)).byID && id !in Live(Apply(b, m)).byID;
    } else {
      var id := FreshId(a.byID.Keys + b.byID.Keys);
      m := Add(id, RS256, Private(0), 0);
      AddSeparates(a, b, m);
    }
  }

  lemma Forgotten(a: Ring, b: Ring) returns (id: string)
    requires WellFormed(a) && WellFormed(b) && Live(a) == Live(b) && !Tracks(a, b)
    ensures id in b.byID && id !in a.byID && b.byID[id].role == Retired && id != ""
  {
    LiveWellFormed(a);
    LiveWellFormed(b);
    SameLiveTracks(a, b);
    assert exists x :: x in b.byID.Keys && x !in a.byID.Keys;
    id :| id in b.byID.Keys && id !in a.byID.Keys;
    assert !Resolves(a, id) && !Resolves(b, id);
  }

  lemma SameLiveTracks(a: Ring, b: Ring)
    requires WellFormed(a) && WellFormed(b) && Live(a) == Live(b)
    ensures b.byID.Keys <= a.byID.Keys ==> Tracks(a, b)
  {
    LiveWellFormed(a);
    LiveWellFormed(b);
    forall id | Resolves(a, id) ensures Resolves(b, id) && b.byID[id] == a.byID[id] {
      assert Live(a).byID[id] == a.byID[id] && Live(b).byID[id] == b.byID[id];
    }
    forall id | Resolves(b, id) ensures Resolves(a, id) {
      assert id in Live(a).byID;
    }
  }

  lemma AddSeparates(a: Ring, b: Ring, m: Mutation)
    requires WellFormed(a) && WellFormed(b) && Live(a) != Live(b) && m.Add? && Accepts(a, m) && Accepts(b, m)
    ensures Live(Apply(a, m)) != Live(Apply(b, m))
  {
    LiveAdd(a, m);
    LiveAdd(b, m);
    InsertInjective(Live(a).byID, Live(b).byID, m.id, NewKey(a, m), NewKey(b, m));
  }

  lemma LiveAdd(r: Ring, m: Mutation)
    requires WellFormed(r) && m.Add? && Accepts(r, m)
    ensures Live(Apply(r, m)) == Ring(Live(r).byID[m.id := NewKey(r, m)], if r.byID == map[] then m.id else r.active)
    ensures m.id !in Live(r).byID && (r.byID == map[] <==> r.active == "") && r.active != m.id
  {
    assert Live(Apply(r, m)).byID == Live(r).byID[m.id := NewKey(r, m)];
  }

  lemma InsertInjective(a: map<string, Key>, b: map<string, Key>, id: string, k: Key, l: Key)
    requires id !in a && id !in b
    ensures a[id := k] == b[id := l] ==> a == b
  {
    assert a == a[id := k] - {id} && b == b[id := l] - {id};
  }

  /** Some non-empty id avoids any finite set. */
  lemma FreshId(used: set<string>) returns (id: string)
    ensures id != "" && id !in used
  {
    id := "k";
    var seen: set<string> := {};
    while id in used
      invariant id != "" && seen <= used
      invariant forall x :: x in seen ==> |x| < |id|
      decreases used - seen
    {
      seen := seen + {id};
      id := id + "k";
    }
  }

  // ---------- runs of one node ----------

  lemma {:induction false} RunConcat(s: State, a: seq<Move>, b: seq<Move>)
    ensures Run(s, a + b) == Run(Run(s, a), b)
  {
    if b == [] {
      assert a + b == a;
    } else {
      var k := |b| - 1;
      RunConcat(s, a, b[..k]);
      assert (a + b)[..|a + b| - 1] == a + b[..k];
    }
  }

  lemma RunOne(s: State, mv: Move)
    ensures Run(s, [mv]) == Next(s, mv)
  {
    assert [mv][..0] == [];
  }

  lemma RunTwo(s: State, a: Move, b: Move)
    ensures Run(s, [a, b]) == Next(Next(s, a), b)
  {
    RunConcat(s, [a], [b]);
    assert [a] + [b] == [a, b];
    RunOne(s, a);
    RunOne(Next(s, a), b);
  }

  /** Node `i` becomes `n`. */
  function With(s: State, i: nat, n: Node): State
    requires i < |s.nodes|
  {
    s.(nodes := s.nodes[i := n])
  }

  /** A step of node `i` that writes nothing. */
  lemma SilentNext(s: State, i: nat, n: Node, ch: Choice)
    requires i < |s.nodes| && NodeStep(s.cell, n, ch).wrote.None? && NodeStep(s.cell, n, ch).cell == s.cell
    ensures Next(With(s, i, n), Move(i, ch)) == With(s, i, NodeStep(s.cell, n, ch).node)
  {
    assert With(s, i, n).nodes[i := NodeStep(s.cell, n, ch).node] == s.nodes[i := NodeStep(s.cell, n, ch).node];
  }

  lemma WithSelf(s: State, i: nat)
    requires i < |s.nodes|
    ensures With(s, i, s.nodes[i]) == s
  {
    assert s.nodes[i := s.nodes[i]] == s.nodes;
  }

  /** An undisturbed rotation: apply, WATCH, GET, EXEC, store. */
  function Rotate(i: nat, req: Request, m: Mutation): seq<Move> {
    [Move(i, Begin(req)), Move(i, Mint(m))] + [Move(i, Redis), Move(i, Redis)] + [Move(i, Redis), Move(i, Local)]
  }

  /** The node after apply, and after WATCH and GET. */
  function Applied(n: Node, req: Request, m: Mutation): Node {
    n.(hand := Changed(n.hand, m), pc := WatchVersion(Rotation(req, m, 1), 1, n.last))
  }

  function Armed(n: Node, req: Request, m: Mutation, v: nat): Node {
    Applied(n, req, m).(pc := Exec(Rotation(req, m, 1), 1, n.last, v, v))
  }

  /** The node and the fleet after the whole rotation. */
  function Rotated(n: Node, req: Request, m: Mutation, v: nat): Node {
    n.(hand := Hand(Apply(n.hand.ring, m), v, []), last := v, pc := Idle, done := n.done + [Done(req, m, v)])
  }

  function AfterRotate(s: State, i: nat, req: Request, m: Mutation): State
    requires i < |s.nodes|
  {
    var n, v := s.nodes[i], s.cell.version + 1;
    State(Cell(Some(Live(Apply(n.hand.ring, m))), v), s.history + [NextEntry(n.me, n.hand, m)],
          s.nodes[i := Rotated(n, req, m, v)])
  }

  lemma RotateApplies(s: State, i: nat, req: Request, m: Mutation)
    requires i < |s.nodes| && s.nodes[i].pc.Idle? && Serves(req, m) && Accepts(s.nodes[i].hand.ring, m)
    ensures Run(s, [Move(i, Begin(req)), Move(i, Mint(m))]) == With(s, i, Applied(s.nodes[i], req, m))
  {
    var n := s.nodes[i];
    WithSelf(s, i);
    RunTwo(s, Move(i, Begin(req)), Move(i, Mint(m)));
    SilentNext(s, i, n, Begin(req));
    SilentNext(s, i, n.(pc := Applying(req, 1)), Mint(m));
  }

  lemma RotateWatches(s: State, i: nat, req: Request, m: Mutation)
    requires i < |s.nodes| && s.nodes[i].last == s.cell.version
    ensures Run(With(s, i, Applied(s.nodes[i], req, m)), [Move(i, Redis), Move(i, Redis)])
         == With(s, i, Armed(s.nodes[i], req, m, s.cell.version))
  {
    var n := Applied(s.nodes[i], req, m);
    RunTwo(With(s, i, n), Move(i, Redis), Move(i, Redis));
    SilentNext(s, i, n, Redis);
    SilentNext(s, i, n.(pc := ReadCurrent(Rotation(req, m, 1), 1, n.last, s.cell.version)), Redis);
  }

  lemma RotateStores(s: State, i: nat, req: Request, m: Mutation)
    requires i < |s.nodes|
    ensures Run(With(s, i, Armed(s.nodes[i], req, m, s.cell.version)), [Move(i, Redis), Move(i, Local)])
         == AfterRotate(s, i, req, m)
  {
    var n, v := Armed(s.nodes[i], req, m, s.cell.version), s.cell.version + 1;
    var t := With(s, i, n);
    RunTwo(t, Move(i, Redis), Move(i, Local));
    var saved := n.(pc := StoreSaved(Rotation(req, m, 1), v));
    var u := AfterRotate(s, i, req, m);
    assert Next(t, Move(i, Redis)) == With(u, i, saved);
    SilentNext(u, i, saved, Local);
    WithSelf(u, i);
  }

  lemma RotateCommits(s: State, i: nat, req: Request, m: Mutation)
    requires i < |s.nodes| && s.nodes[i].pc.Idle? && Serves(req, m) && Accepts(s.nodes[i].hand.ring, m)
    requires s.nodes[i].last == s.cell.version
    ensures Run(s, Rotate(i, req, m)) == AfterRotate(s, i, req, m)
  {
    var a, b, c := [Move(i, Begin(req)), Move(i, Mint(m))], [Move(i, Redis), Move(i, Redis)], [Move(i, Redis), Move(i, Local)];
    RunConcat(s, a + b, c);
    RunConcat(s, a, b);
    RotateApplies(s, i, req, m);
    RotateWatches(s, i, req, m);
    RotateStores(s, i, req, m);
  }

  /** Over runs: the next undisturbed rotation of an idle node that would pass the
      version check keeps the chain, whatever is asked of it, if and only if the node
      is in sync with the version it recorded. */
  lemma RotationIsSafeExactlyWhenSynced(s: State, i: nat)
    requires Sane(s) && Chain(s.history) && i < |s.nodes| && s.nodes[i].pc.Idle? && s.nodes[i].last == |s.history|
    ensures (forall req, m :: Serves(req, m) && Accepts(s.nodes[i].hand.ring, m) ==>
               Chain(Run(s, Rotate(i, req, m)).history))
            <==> Synced(s.history, s.nodes[i].hand, s.nodes[i].last)
  {
    var n := s.nodes[i];
    assert NodeSane(s.history, n);
    SaveIsSafeExactlyWhenSynced(s.history, n.me, n.hand);
    forall req, m | Serves(req, m) && Accepts(n.hand.ring, m)
      ensures Run(s, Rotate(i, req, m)).history == s.history + [NextEntry(n.me, n.hand, m)]
    {
      RotateCommits(s, i, req, m);
    }
    if !Synced(s.history, n.hand, n.last) {
      var m :| Accepts(n.hand.ring, m) && !Chain(s.history + [NextEntry(n.me, n.hand, m)]);
      var req := RequestFor(m);
      assert Serves(req, m) && !Chain(Run(s, Rotate(i, req, m)).history);
    }
  }

  function RequestFor(m: Mutation): Request {
    match m
    case Add(_, alg, _, _) => Generate(alg)
    case Promote(id) => PromoteId(id)
    case Retire(id, _) => RetireId(id)
  }

  // ---------- a stale node ----------

  /** The node would pass the version check, but its ring lacks a stored key. */
  ghost predicate Stale(s: State, i: nat, lost: string) {
    && Sane(s) && Chain(s.history) && i < |s.nodes| && s.nodes[i].pc.Idle? && s.nodes[i].last == |s.history|
    && Resolves(Base(s.history, |s.history|), lost) && lost !in s.nodes[i].hand.ring.byID
  }

  /** The next rotation of a stale node is accepted, reported as a success, and
      erases the key, though nothing retired it. */
  lemma StaleRotationErases(s: State, i: nat, req: Request, m: Mutation, lost: string)
    requires Stale(s, i, lost) && Serves(req, m) && Accepts(s.nodes[i].hand.ring, m)
    requires !RetiredBy(s.nodes[i].hand.pending + [m], lost) && m.id != lost
    ensures var s' := Run(s, Rotate(i, req, m));
            && |s'.history| == |s.history| + 1 && |s'.nodes| == |s.nodes|
            && s'.nodes[i].done == s.nodes[i].done + [Done(req, m, |s'.history|)]
            && !Resolves(Base(s'.history, |s'.history|), lost)
            && !RetiredBetween(s'.history, |s.history|, |s'.history|, lost)
            && !Chain(s'.history)
  {
    RotateCommits(s, i, req, m);
    ErasingEntry(s.history, NextEntry(s.nodes[i].me, s.nodes[i].hand, m), lost);
  }

  /** What writing an entry without the key does. */
  lemma ErasingEntry(h: seq<Entry>, e: Entry, lost: string)
    requires Resolves(Base(h, |h|), lost) && lost !in e.ring.byID && !RetiredBy(e.muts, lost)
    ensures var h' := h + [e];
            !Resolves(Base(h', |h'|), lost) && !RetiredBetween(h', |h|, |h'|, lost) && !Chain(h')
  {
    BaseStable(h, e, |h|);
    ErasedBreaks(h + [e], lost);
  }

  /** A chain never drops a key that its newest entry does not retire. */
  lemma ErasedBreaks(h: seq<Entry>, lost: string)
    requires h != [] && Resolves(Base(h, |h| - 1), lost) && !Resolves(Base(h, |h|), lost)
    requires !RetiredBetween(h, |h| - 1, |h|, lost)
    ensures !Chain(h)
  {
    if Chain(h) { KeySurvives(h, |h| - 1, |h|, lost); }
  }

  // ---------- how the watcher makes a node stale ----------

  /** `k` steps of one delivery, with nothing in between. */
  function Delivers(i: nat, d: nat, k: nat): seq<Move> {
    if k == 0 then [] else Delivers(i, d, k - 1) + [Move(i, Deliver(d))]
  }

  function DeliverTimes(c: Cell, n: Node, d: nat, k: nat): (r: Node)
    requires d < |n.deliveries|
    ensures |r.deliveries| == |n.deliveries|
  {
    if k == 0 then n else DeliverStep(c, DeliverTimes(c, n, d, k - 1), d)
  }

  lemma {:induction false} DeliversRun(s: State, i: nat, d: nat, k: nat)
    requires i < |s.nodes| && d < |s.nodes[i].deliveries|
    ensures Run(s, Delivers(i, d, k)) == With(s, i, DeliverTimes(s.cell, s.nodes[i], d, k))
  {
    if k == 0 {
      WithSelf(s, i);
    } else {
      DeliversRun(s, i, d, k - 1);
      RunConcat(s, Delivers(i, d, k - 1), [Move(i, Deliver(d))]);
      DeliverRun(s, i, DeliverTimes(s.cell, s.nodes[i], d, k - 1), d);
    }
  }

  lemma DeliverRun(s: State, i: nat, n: Node, d: nat)
    requires i < |s.nodes| && d < |n.deliveries|
    ensures Run(With(s, i, n), [Move(i, Deliver(d))]) == With(s, i, DeliverStep(s.cell, n, d))
  {
    RunOne(With(s, i, n), Move(i, Deliver(d)));
    SilentNext(s, i, n, Deliver(d));
  }

  /** A delivery up to the point where it has recorded the version it loaded. */
  function Records(i: nat, d: nat): seq<Move> {
    Delivers(i, d, 5)
  }

  /** The rest of the delivery: read back, compare and install. */
  function Installs(i: nat, d: nat): seq<Move> {
    Delivers(i, d, 3)
  }

  function HasRecorded(n: Node, d: nat, v: nat, body: Ring): Node
    requires d < |n.deliveries|
  {
    At(n, d, Recorded(v, body)).(last := v)
  }

  lemma AtAgain(n: Node, d: nat, x: Delivery, y: Delivery)
    requires d < |n.deliveries|
    ensures At(At(n, d, x), d, y) == At(n, d, y)
  {
    assert n.deliveries[d := x][d := y] == n.deliveries[d := y];
  }

  lemma ReadsTwice(c: Cell, n: Node, d: nat)
    requires d < |n.deliveries| && Up(n.pc) && Watching(n) && n.deliveries[d].Quiet?
    ensures DeliverTimes(c, n, d, 2) == At(n, d, BodyRead(1, c.version))
  {
    assert DeliverTimes(c, n, d, 1) == At(n, d, VersionRead(1));
    AtAgain(n, d, VersionRead(1), BodyRead(1, c.version));
  }

  lemma RecordsNode(c: Cell, n: Node, d: nat)
    requires d < |n.deliveries| && Up(n.pc) && Watching(n) && n.deliveries[d].Quiet? && c.body.Some?
    ensures DeliverTimes(c, n, d, 5) == HasRecorded(n, d, c.version, c.body.value)
  {
    var v, body := c.version, c.body.value;
    ReadsTwice(c, n, d);
    AtAgain(n, d, BodyRead(1, v), VersionReread(1, v, body));
    assert DeliverTimes(c, n, d, 3) == At(n, d, VersionReread(1, v, body));
    AtAgain(n, d, VersionReread(1, v, body), Recording(v, body));
    assert DeliverTimes(c, n, d, 4) == At(n, d, Recording(v, body));
    AtAgain(n, d, Recording(v, body), Recorded(v, body));
  }

  lemma RecordRuns(s: State, i: nat, d: nat)
    requires Sane(s) && i < |s.nodes| && d < |s.nodes[i].deliveries|
    requires Up(s.nodes[i].pc) && Watching(s.nodes[i]) && s.nodes[i].deliveries[d].Quiet?
    ensures |s.history| >= 1
    ensures Run(s, Records(i, d)) == With(s, i, HasRecorded(s.nodes[i], d, |s.history|, Base(s.history, |s.history|)))
  {
    assert NodeSane(s.history, s.nodes[i]);
    DeliversRun(s, i, d, 5);
    RecordsNode(s.cell, s.nodes[i], d);
  }

  /** The node after compare and install. */
  function Installed(n: Node, d: nat): Node
    requires d < |n.deliveries| && n.deliveries[d].Recorded?
  {
    At(n, d, Quiet).(notified := n.last, hand := Hand(n.deliveries[d].body, n.deliveries[d].version, []))
  }

  lemma InstallRuns(s: State, i: nat, d: nat)
    requires i < |s.nodes| && d < |s.nodes[i].deliveries| && s.nodes[i].pc.Idle?
    requires s.nodes[i].deliveries[d].Recorded? && s.nodes[i].notified < s.nodes[i].last
    ensures Run(s, Installs(i, d)) == With(s, i, Installed(s.nodes[i], d))
  {
    DeliversRun(s, i, d, 3);
    InstallsNode(s.cell, s.nodes[i], d);
  }

  lemma InstallsNode(c: Cell, n: Node, d: nat)
    requires d < |n.deliveries| && n.pc.Idle? && n.deliveries[d].Recorded? && n.notified < n.last
    ensures DeliverTimes(c, n, d, 3) == Installed(n, d)
  {
    var v, body := n.deliveries[d].version, n.deliveries[d].body;
    var x, y := Notifying(v, body, n.last), Installing(v, body);
    assert DeliverTimes(c, n, d, 1) == At(n, d, x);
    AtAgain(n, d, x, y);
    assert DeliverTimes(c, n, d, 2) == At(n, d, y).(notified := n.last);
    AtAgain(n, d, y, Quiet);
  }

  /** First race: between recording and installing. From any state, a delivery of a
      version whose key the node has not got yet leaves the node stale. */
  lemma DeliveryInFlightIsStale(s: State, i: nat, d: nat, lost: string)
    requires Sane(s) && Chain(s.history) && i < |s.nodes| && d < |s.nodes[i].deliveries|
    requires s.nodes[i].pc.Idle? && Watching(s.nodes[i]) && s.nodes[i].deliveries[d].Quiet?
    requires Resolves(Base(s.history, |s.history|), lost) && lost !in s.nodes[i].hand.ring.byID
    ensures Stale(Run(s, Records(i, d)), i, lost)
  {
    RecordRuns(s, i, d);
    RunKeeps(s, Records(i, d));
  }

  /** A node that is idle, current and in step, with a delivery to spare. */
  ghost predicate Current(s: State, i: nat, d: nat) {
    && Sane(s) && Chain(s.history) && i < |s.nodes| && d < |s.nodes[i].deliveries|
    && s.nodes[i].pc.Idle? && Watching(s.nodes[i]) && s.nodes[i].deliveries[d].Quiet?
    && s.nodes[i].last == s.nodes[i].hand.version == |s.history|
  }

  /** What a delivery does around a rotation of its own node. */
  function AcrossRotation(i: nat, d: nat, req: Request, add: Mutation): seq<Move> {
    Records(i, d) + Rotate(i, req, add) + Installs(i, d)
  }

  /** Second race: a delivery that recorded before the node's own rotation installs
      after it. The node then lacks the key it has just generated and reported. */
  lemma DeliveryAcrossRotationIsStale(s: State, i: nat, d: nat, add: Mutation)
    requires Current(s, i, d) && add.Add? && Accepts(s.nodes[i].hand.ring, add)
    requires add.id !in Base(s.history, |s.history|).byID
    ensures var s' := Run(s, AcrossRotation(i, d, Generate(add.alg), add));
            && Stale(s', i, add.id) && |s'.history| == |s.history| + 1 && |s'.nodes| == |s.nodes|
            && s'.nodes[i].done == s.nodes[i].done + [Done(Generate(add.alg), add, |s'.history|)]
            && s'.nodes[i].hand == Hand(Base(s.history, |s.history|), |s.history|, [])
  {
    assert NodeSane(s.history, s.nodes[i]);
    RunKeeps(s, AcrossRotation(i, d, Generate(add.alg), add));
    AcrossState(s, i, d, Generate(add.alg), add);
    RotatedChains(s.history, s.nodes[i].me, s.nodes[i].hand, add);
  }

  lemma AcrossState(s: State, i: nat, d: nat, req: Request, m: Mutation)
    requires Current(s, i, d) && Serves(req, m) && Accepts(s.nodes[i].hand.ring, m)
    ensures var v := |s.history|;
            var t := AfterRotate(With(s, i, HasRecorded(s.nodes[i], d, v, Base(s.history, v))), i, req, m);
            t.nodes[i].deliveries[d].Recorded?
            && Run(s, AcrossRotation(i, d, req, m)) == With(t, i, Installed(t.nodes[i], d))
  {
    assert NodeSane(s.history, s.nodes[i]);
    var a, b := Records(i, d), Rotate(i, req, m);
    RunConcat(s, a + b, Installs(i, d));
    RunConcat(s, a, b);
    RecordRuns(s, i, d);
    RotateCommits(Run(s, a), i, req, m);
    InstallRuns(Run(s, a + b), i, d);
  }

  /** Third race: two deliveries of one node, around a rotation of another node. The
      first one compares after the second one recorded, and installs the older ring. */
  function Overlap(i: nat, d: nat, d': nat, j: nat, req: Request, add: Mutation): seq<Move> {
    Records(i, d) + Rotate(j, req, add) + Records(i, d') + Installs(i, d)
  }

  lemma OverlappingDeliveriesAreStale(s: State, i: nat, d: nat, d': nat, j: nat, add: Mutation)
    requires Current(s, i, d) && d' < |s.nodes[i].deliveries| && d != d' && s.nodes[i].deliveries[d'].Quiet?
    requires j < |s.nodes| && i != j && s.nodes[j].pc.Idle? && s.nodes[j].last == s.nodes[j].hand.version == |s.history|
    requires add.Add? && Accepts(s.nodes[j].hand.ring, add) && add.id !in Base(s.history, |s.history|).byID
    ensures var s' := Run(s, Overlap(i, d, d', j, Generate(add.alg), add));
            && Stale(s', i, add.id) && |s'.history| == |s.history| + 1 && |s'.nodes| == |s.nodes|
            && s'.nodes[j].done == s.nodes[j].done + [Done(Generate(add.alg), add, |s'.history|)]
  {
    var v, req := |s.history|, Generate(add.alg);
    var a, b, c := Records(i, d), Rotate(j, req, add), Records(i, d');
    RunConcat(s, a + b + c, Installs(i, d));
    RunConcat(s, a + b, c);
    OverlapStarts(s, i, d, j, add);
    OverlapFinishes(Run(s, a + b), i, d, d', v);
    RunKeeps(s, Overlap(i, d, d', j, req, add));
  }

  /** The first delivery records, and the other node rotates. */
  lemma OverlapStarts(s: State, i: nat, d: nat, j: nat, add: Mutation)
    requires Current(s, i, d)
    requires j < |s.nodes| && i != j && s.nodes[j].pc.Idle? && s.nodes[j].last == s.nodes[j].hand.version == |s.history|
    requires add.Add? && Accepts(s.nodes[j].hand.ring, add)
    ensures var v, req := |s.history|, Generate(add.alg);
            var s' := Run(s, Records(i, d) + Rotate(j, req, add));
            && Sane(s') && Chain(s'.history) && |s'.history| == v + 1 && Resolves(Base(s'.history, v + 1), add.id)
            && |s'.nodes| == |s.nodes| && s'.nodes[i] == HasRecorded(s.nodes[i], d, v, Base(s.history, v))
            && s'.nodes[i].notified <= v
            && s'.nodes[j].done == s.nodes[j].done + [Done(req, add, v + 1)]
  {
    assert NodeSane(s.history, s.nodes[i]) && NodeSane(s.history, s.nodes[j]);
    RunKeeps(s, Records(i, d) + Rotate(j, Generate(add.alg), add));
    OverlapState(s, i, d, j, Generate(add.alg), add);
    RotatedChains(s.history, s.nodes[j].me, s.nodes[j].hand, add);
  }

  lemma OverlapState(s: State, i: nat, d: nat, j: nat, req: Request, m: Mutation)
    requires Current(s, i, d) && j < |s.nodes| && i != j && s.nodes[j].pc.Idle? && s.nodes[j].last == |s.history|
    requires Serves(req, m) && Accepts(s.nodes[j].hand.ring, m)
    ensures var t := With(s, i, HasRecorded(s.nodes[i], d, |s.history|, Base(s.history, |s.history|)));
            Run(s, Records(i, d) + Rotate(j, req, m)) == AfterRotate(t, j, req, m)
  {
    RunConcat(s, Records(i, d), Rotate(j, req, m));
    RecordRuns(s, i, d);
    RotateCommits(Run(s, Records(i, d)), j, req, m);
  }

  /** The second delivery records, and the first one installs what it had loaded. */
  lemma OverlapFinishes(s: State, i: nat, d: nat, d': nat, v: nat)
    requires Sane(s) && i < |s.nodes| && d < |s.nodes[i].deliveries| && d' < |s.nodes[i].deliveries| && d != d'
    requires s.nodes[i].pc.Idle? && s.nodes[i].deliveries[d'].Quiet?
    requires Watching(s.nodes[i]) && s.nodes[i].notified <= v < |s.history|
    requires s.nodes[i].deliveries[d].Recorded? && s.nodes[i].deliveries[d].version == v
    ensures var s' := Run(Run(s, Records(i, d')), Installs(i, d));
            && s'.history == s.history && |s'.nodes| == |s.nodes| && s'.nodes[i].pc.Idle?
            && s'.nodes[i].last == |s.history| && s'.nodes[i].hand == Hand(s.nodes[i].deliveries[d].body, v, [])
            && forall j :: 0 <= j < |s.nodes| && j != i ==> s'.nodes[j] == s.nodes[j]
  {
    RecordRuns(s, i, d');
    InstallRuns(Run(s, Records(i, d')), i, d);
  }

  /** A rotation of a current node links, and its new key resolves. */
  lemma RotatedChains(h: seq<Entry>, me: nat, hand: Hand, add: Mutation)
    requires Chain(h) && h != [] && HandSane(h, hand) && hand.version == |h| && add.Add? && Accepts(hand.ring, add)
    ensures var h' := h + [NextEntry(me, hand, add)]; Chain(h') && Resolves(Base(h', |h'|), add.id)
  {
    var h' := h + [NextEntry(me, hand, add)];
    ChainStored(h);
    MutateKeeps(h, hand, add);
    CommitChains(h, Changed(hand, add), false, me);
    ChainStored(h');
    LandedResolves(h', |h'|, add);
  }

  /** From any current node: it generates a key and reports it, an older delivery
      installs, it rotates again, and the reported key is gone from Redis though
      nothing retired it. */
  lemma OwnKeyErased(s: State, i: nat, d: nat, add: Mutation, req: Request, m: Mutation)
    requires Current(s, i, d) && add.Add? && Accepts(s.nodes[i].hand.ring, add)
    requires add.id !in Base(s.history, |s.history|).byID
    requires Serves(req, m) && Accepts(Base(s.history, |s.history|), m) && m.id != add.id
    ensures var v := |s.history| + 1;
            var s' := Run(s, AcrossRotation(i, d, Generate(add.alg), add) + Rotate(i, req, m));
            && |s'.nodes| == |s.nodes| && |s'.history| == v + 1
            && s'.nodes[i].done == s.nodes[i].done + [Done(Generate(add.alg), add, v)] + [Done(req, m, v + 1)]
            && !Resolves(Base(s'.history, v + 1), add.id) && !RetiredBetween(s'.history, v, v + 1, add.id)
  {
    var a := AcrossRotation(i, d, Generate(add.alg), add);
    RunConcat(s, a, Rotate(i, req, m));
    DeliveryAcrossRotationIsStale(s, i, d, add);
    CleanStaleErases(Run(s, a), i, req, m, add.id);
  }

  /** The same for a stale node with nothing pending. */
  lemma CleanStaleErases(s: State, i: nat, req: Request, m: Mutation, lost: string)
    requires Stale(s, i, lost) && s.nodes[i].hand.pending == []
    requires Serves(req, m) && Accepts(s.nodes[i].hand.ring, m) && m.id != lost
    ensures var v := |s.history|;
            var s' := Run(s, Rotate(i, req, m));
            && |s'.history| == v + 1 && |s'.nodes| == |s.nodes|
            && s'.nodes[i].done == s.nodes[i].done + [Done(req, m, v + 1)]
            && !Resolves(Base(s'.history, v + 1), lost) && !RetiredBetween(s'.history, v, v + 1, lost)
  {
    assert [] + [m] == [m];
    StaleRotationErases(s, i, req, m, lost);
  }

  // ---------- from an empty store ----------

  /** One node boots alone: load, mint, save, store. */
  function Boots(first: Mutation): seq<Move> {
    [Move(0, Start), Move(0, Redis)] + [Move(0, Redis), Move(0, Mint(first))]
    + [Move(0, Redis), Move(0, Redis)] + [Move(0, Redis), Move(0, Local)]
  }

  function Alone(n: Node): State {
    State(Cell(None, 0), [], [n])
  }

  function Booted(first: Mutation): State {
    var ring := Apply(EMPTY, first);
    State(Cell(Some(Live(ring)), 1), [Entry(Live(ring), [first], true, 0)],
          [Node(0, Hand(ring, 1, []), 1, Idle, [], VERSION_UNKNOWN, [Quiet])])
  }

  lemma AloneTwo(n: Node, a: Choice, n': Node, b: Choice, n'': Node)
    requires NodeStep(Cell(None, 0), n, a) == Effect(Cell(None, 0), None, n')
    requires NodeStep(Cell(None, 0), n', b) == Effect(Cell(None, 0), None, n'')
    ensures Run(Alone(n), [Move(0, a), Move(0, b)]) == Alone(n'')
  {
    RunTwo(Alone(n), Move(0, a), Move(0, b));
  }

  lemma BootMints(first: Mutation)
    requires first.Add? && first.alg == HS256 && Accepts(EMPTY, first)
    ensures var n := Booting(0, 1).(hand := Changed(Hand(EMPTY, 0, []), first), last := 0, pc := WatchVersion(Bootstrap, 1, 0));
            Run(Initial(1, 1), [Move(0, Start), Move(0, Redis)] + [Move(0, Redis), Move(0, Mint(first))]) == Alone(n)
  {
    var n := Booting(0, 1);
    assert Initial(1, 1) == Alone(n);
    var n2 := n.(pc := ReadBody(FirstEnsure, 1, 0));
    AloneTwo(n, Start, n.(pc := ReadBefore(FirstEnsure, 1)), Redis, n2);
    var n3 := n.(last := 0, pc := Minting);
    AloneTwo(n2, Redis, n3, Mint(first), MintStep(n3, first));
    RunConcat(Alone(n), [Move(0, Start), Move(0, Redis)], [Move(0, Redis), Move(0, Mint(first))]);
  }

  lemma BootRuns(first: Mutation)
    requires first.Add? && first.alg == HS256 && Accepts(EMPTY, first)
    ensures Run(Initial(1, 1), Boots(first)) == Booted(first)
  {
    var a := [Move(0, Start), Move(0, Redis)] + [Move(0, Redis), Move(0, Mint(first))];
    var b, c := [Move(0, Redis), Move(0, Redis)], [Move(0, Redis), Move(0, Local)];
    RunConcat(Initial(1, 1), a + b, c);
    RunConcat(Initial(1, 1), a, b);
    BootMints(first);
    var n := Booting(0, 1).(hand := Changed(Hand(EMPTY, 0, []), first), last := 0, pc := WatchVersion(Bootstrap, 1, 0));
    AloneTwo(n, Redis, n.(pc := ReadCurrent(Bootstrap, 1, 0, 0)), Redis, n.(pc := Exec(Bootstrap, 1, 0, 0, 0)));
    BootSaves(first);
  }

  lemma BootSaves(first: Mutation)
    ensures var n := Booting(0, 1).(hand := Changed(Hand(EMPTY, 0, []), first), last := 0, pc := Exec(Bootstrap, 1, 0, 0, 0));
            Run(Alone(n), [Move(0, Redis), Move(0, Local)]) == Booted(first)
  {
    var n := Booting(0, 1).(hand := Changed(Hand(EMPTY, 0, []), first), last := 0, pc := Exec(Bootstrap, 1, 0, 0, 0));
    var saved := n.(pc := StoreSaved(Bootstrap, 1));
    RunTwo(Alone(n), Move(0, Redis), Move(0, Local));
    assert n.hand.pending == [first] && n.deliveries == [Quiet];
    assert Next(Alone(n), Move(0, Redis)) == Booted(first).(nodes := [saved]);
  }

  /** The watcher starts. */
  function Watched(first: Mutation): State {
    var s := Booted(first);
    s.(nodes := [s.nodes[0].(notified := 1)])
  }

  function Starts(first: Mutation): seq<Move> {
    Boots(first) + [Move(0, Watch)]
  }

  lemma StartRuns(first: Mutation)
    requires first.Add? && first.alg == HS256 && Accepts(EMPTY, first)
    ensures Run(Initial(1, 1), Starts(first)) == Watched(first)
  {
    RunConcat(Initial(1, 1), Boots(first), [Move(0, Watch)]);
    BootRuns(first);
    RunOne(Booted(first), Move(0, Watch));
  }

  /** A whole run from an empty store, with one node and one delivery: the node boots,
      starts to watch, generates a key, reports it, rotates again, and the reported key
      is gone from Redis though nothing retired it. */
  lemma OneNodeLosesItsOwnKey(first: Mutation, add: Mutation, req: Request, m: Mutation)
    requires first.Add? && first.alg == HS256 && Accepts(EMPTY, first)
    requires add.Add? && Accepts(Apply(EMPTY, first), add)
    requires Serves(req, m) && Accepts(Live(Apply(EMPTY, first)), m) && m.id != add.id
    ensures var s := Run(Initial(1, 1), Starts(first) + (AcrossRotation(0, 0, Generate(add.alg), add) + Rotate(0, req, m)));
            && |s.nodes| == 1 && |s.history| == 3
            && s.nodes[0].done == [Done(Generate(add.alg), add, 2), Done(req, m, 3)]
            && !Resolves(Base(s.history, 3), add.id) && !RetiredBetween(s.history, 2, 3, add.id)
  {
    var a, b := Starts(first), AcrossRotation(0, 0, Generate(add.alg), add) + Rotate(0, req, m);
    RunConcat(Initial(1, 1), a, b);
    StartRuns(first);
    InitialSane(1, 1);
    RunKeeps(Initial(1, 1), a);
    WatchedCurrent(first);
    OwnKeyErased(Watched(first), 0, 0, add, req, m);
  }

  lemma WatchedCurrent(first: Mutation)
    requires first.Add? && Accepts(EMPTY, first) && Sane(Watched(first))
    ensures Current(Watched(first), 0, 0)
  {
    var h := Watched(first).history;
    assert Snapshotted(h, 0);
    ApplyAllOne(EMPTY, [], first);
    assert [] + [first] == [first] && Extends(h, 0);
  }
}

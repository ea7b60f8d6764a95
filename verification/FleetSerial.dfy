/** One operation at a time: if on each node a rotation or reload starts only while no
    delivery is in flight, and a delivery only while nothing else is, every rotation
    starts in step. This is what the lock is meant to give and does not: a delivery
    loads and records without it. */
module FleetSerial {
  import opened Text
  import opened KeyRings
  import opened Fleet
  import opened FleetKeeps
  import opened FleetRuns

  predicate SerialChoice(n: Node, ch: Choice) {
    match ch
    case Begin(_) => AllQuiet(n.deliveries)
    case BeginReload => AllQuiet(n.deliveries)
    case Deliver(d) => d < |n.deliveries| && n.deliveries[d].Quiet? ==> n.pc.Idle? && AllQuiet(n.deliveries)
    case _ => true
  }

  predicate SerialMove(s: State, mv: Move) {
    mv.node < |s.nodes| ==> SerialChoice(s.nodes[mv.node], mv.choice)
  }

  predicate SerialRun(s: State, moves: seq<Move>) {
    moves == []
    || (SerialRun(s, moves[..|moves| - 1]) && SerialMove(Run(s, moves[..|moves| - 1]), moves[|moves| - 1]))
  }

  // ---------- what one operation at a time keeps ----------

  /** In step, and not notified of anything newer. */
  predicate Settled(n: Node) {
    n.last == n.hand.version && n.notified <= n.last
  }

  /** What a delivery in flight has done to the recorded version. */
  predicate InFlight(n: Node, x: Delivery) {
    match x
    case Quiet => true
    case VersionRead(_) => Settled(n)
    case BodyRead(_, before) => Settled(n) && n.hand.version <= before
    case VersionReread(_, before, _) => Settled(n) && n.hand.version <= before
    case Recording(v, _) => Settled(n) && n.hand.version <= v
    case Recorded(v, _) => n.last == v && n.notified <= n.hand.version <= v
    case Notifying(v, _, seen) => n.last == v == seen && n.notified <= n.hand.version <= v
    case Installing(v, _) => n.last == v && n.notified == v
  }

  /** A load never finds a version older than the ring's. */
  predicate Forward(n: Node) {
    match n.pc
    case ReadBody(_, _, before) => n.hand.version <= before
    case ReadAfter(_, _, before, _) => n.hand.version <= before
    case StoreLoaded(_, v, _) => n.hand.version <= v
    case StoreSaved(_, v) => n.hand.version <= v
    case _ => true
  }

  predicate OneAtATime(deliveries: seq<Delivery>) {
    forall d, e :: 0 <= d < |deliveries| && 0 <= e < |deliveries| && !deliveries[d].Quiet? && !deliveries[e].Quiet? ==> d == e
  }

  predicate Serial(n: Node) {
    && OneAtATime(n.deliveries) && Forward(n)
    && (forall d :: 0 <= d < |n.deliveries| ==> InFlight(n, n.deliveries[d]))
    && (n.pc.Idle? || AllQuiet(n.deliveries))
    && (if Up(n.pc) then AllQuiet(n.deliveries) ==> Settled(n) else n.notified == VERSION_UNKNOWN && n.hand.version == 0)
  }

  lemma OwnSerial(h: seq<Entry>, n: Node, ch: Choice)
    requires NodeSane(h, n) && Serial(n) && SerialChoice(n, ch)
    requires !ch.Local?
    ensures Serial(OwnStep(n, ch))
  {
  }

  lemma LocalSerial(h: seq<Entry>, n: Node)
    requires NodeSane(h, n) && Serial(n)
    ensures Serial(LocalStep(n))
  {
  }

  lemma LoadSerial(c: Cell, h: seq<Entry>, n: Node)
    requires CellMatches(c, h) && NodeSane(h, n) && Serial(n) && Loading(n.pc)
    ensures Serial(LoadStep(c, n))
  {
  }

  lemma SaveSerial(c: Cell, h: seq<Entry>, n: Node, lost: bool)
    requires CellMatches(c, h) && NodeSane(h, n) && Serial(n) && Saving(n.pc)
    ensures Serial(SaveStep(c, n, lost).node)
  {
  }

  /** The delivery that is in flight, if any, is the one that moves. */
  lemma OthersQuiet(deliveries: seq<Delivery>, d: nat, x: Delivery)
    requires d < |deliveries| && OneAtATime(deliveries) && (AllQuiet(deliveries) || !deliveries[d].Quiet?)
    ensures OneAtATime(deliveries[d := x]) && (x.Quiet? ==> AllQuiet(deliveries[d := x]))
    ensures forall e :: 0 <= e < |deliveries| && e != d ==> deliveries[e].Quiet?
  {
  }

  lemma DeliverSerial(c: Cell, h: seq<Entry>, n: Node, d: nat)
    requires CellMatches(c, h) && NodeSane(h, n) && Serial(n) && d < |n.deliveries| && SerialChoice(n, Deliver(d))
    ensures Serial(DeliverStep(c, n, d))
  {
    var x := n.deliveries[d];
    assert InFlight(n, x) && DeliverySane(h, x);
    OthersQuiet(n.deliveries, d, DeliverStep(c, n, d).deliveries[d]);
  }

  lemma InterruptSerial(h: seq<Entry>, n: Node, d: nat)
    requires NodeSane(h, n) && Serial(n) && d < |n.deliveries|
    ensures Serial(Interrupted(n, d))
  {
    if !n.deliveries[d].Quiet? {
      assert InFlight(n, n.deliveries[d]);
      OthersQuiet(n.deliveries, d, Quiet);
    }
  }

  lemma StepSerial(c: Cell, h: seq<Entry>, n: Node, ch: Choice)
    requires CellMatches(c, h) && NodeSane(h, n) && Serial(n) && SerialChoice(n, ch)
    ensures Serial(NodeStep(c, n, ch).node)
  {
    match ch
    case Redis =>
      if Loading(n.pc) { LoadSerial(c, h, n); }
      else if Saving(n.pc) { SaveSerial(c, h, n, false); }
    case LostReply => if n.pc.Exec? { SaveSerial(c, h, n, true); }
    case Deliver(d) => if d < |n.deliveries| { DeliverSerial(c, h, n, d); }
    case DeliverFault(d) => if d < |n.deliveries| { InterruptSerial(h, n, d); }
    case Local => LocalSerial(h, n);
    case _ => OwnSerial(h, n, ch);
  }

  ghost predicate AllSerial(s: State) {
    forall i :: 0 <= i < |s.nodes| ==> Serial(s.nodes[i])
  }

  lemma {:induction false} SerialRunKeeps(s: State, moves: seq<Move>)
    requires Sane(s) && AllSerial(s) && SerialRun(s, moves)
    ensures AllSerial(Run(s, moves)) && InStepRun(s, moves)
  {
    if moves == [] {
    } else {
      var k := |moves| - 1;
      SerialRunKeeps(s, moves[..k]);
      RunKeeps(s, moves[..k]);
      var t, mv := Run(s, moves[..k]), moves[k];
      if mv.node < |t.nodes| {
        assert NodeSane(t.history, t.nodes[mv.node]) && Serial(t.nodes[mv.node]);
        StepSerial(t.cell, t.history, t.nodes[mv.node], mv.choice);
      }
    }
  }

  /** No lost rotation when each node does one thing at a time. */
  lemma OneOperationAtATimeLosesNothing(count: nat, threads: nat, moves: seq<Move>)
    requires SerialRun(Initial(count, threads), moves)
    ensures InStepRun(Initial(count, threads), moves) && Chain(Run(Initial(count, threads), moves).history)
  {
    InitialSane(count, threads);
    SerialRunKeeps(Initial(count, threads), moves);
    NoLostRotation(count, threads, moves);
  }
}

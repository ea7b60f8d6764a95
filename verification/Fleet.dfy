/** Many nodes rotate one key ring kept in Redis. Every Redis command of `Load`,
    `Save`, `Ensure` and `mutateKeys` is one step, and so is every step of the
    watcher's deliveries, which load and record a version without holding the lock
    they later install under. Steps of different nodes, and of one node's lock
    holder and its deliveries, interleave freely. */
module Fleet {
  import opened Text
  import opened KeyRings

  const MAX_STORE_ATTEMPTS := 5
  const MAX_MUTATION_ATTEMPTS := 5
  const VERSION_UNKNOWN := -1

  /** The two Redis keys, always written together in one MULTI. */
  datatype Cell = Cell(body: Option<Ring>, version: nat)

  datatype Request = Generate(alg: Alg) | PromoteId(id: string) | RetireId(id: string)

  /** What a load is for, and so where it returns to. */
  datatype LoadFor =
    | FirstEnsure
    | AdoptEnsure
    | AfterConflict(req: Request, attempt: nat)
    | ReloadOnly

  /** What a save is for; a rotation remembers the mutation it just applied. */
  datatype SaveFor = Bootstrap | Rotation(req: Request, m: Mutation, attempt: nat)

  /** Where the holder of the node's lock is. A save works with the version it read
      from `lastVersion` when it started. */
  datatype PC =
    | Boot
    | Down
    | Idle
    | Minting
    | Applying(req: Request, attempt: nat)
    | ReadBefore(l: LoadFor, tries: nat)
    | ReadBody(l: LoadFor, tries: nat, before: nat)
    | ReadAfter(l: LoadFor, tries: nat, before: nat, body: Ring)
    | StoreLoaded(l: LoadFor, version: nat, body: Ring)
    | WatchVersion(s: SaveFor, tries: nat, expected: int)
    | ReadCurrent(s: SaveFor, tries: nat, expected: int, watched: nat)
    | Exec(s: SaveFor, tries: nat, expected: int, watched: nat, current: nat)
    | StoreSaved(s: SaveFor, version: nat)

  /** Where one of the watcher's deliveries is: three reads, recording the version,
      reading the recorded version back, comparing that with the last one notified,
      installing the ring. */
  datatype Delivery =
    | Quiet
    | VersionRead(tries: nat)
    | BodyRead(tries: nat, before: nat)
    | VersionReread(tries: nat, before: nat, body: Ring)
    | Recording(version: nat, body: Ring)
    | Recorded(version: nat, body: Ring)
    | Notifying(version: nat, body: Ring, seen: int)
    | Installing(version: nat, body: Ring)

  /** What a finished rotation reported to its caller. */
  datatype Outcome = Done(req: Request, m: Mutation, version: nat) | Failed(req: Request)

  /** The ring a node serves. `version` and `pending` are bookkeeping: the version it
      was installed from or saved as, and the mutations applied to it since. */
  datatype Hand = Hand(ring: Ring, version: nat, pending: seq<Mutation>)

  /** `last` is the store's `lastVersion`, `notified` the watcher's. */
  datatype Node = Node(me: nat, hand: Hand, last: int, pc: PC, done: seq<Outcome>,
                       notified: int, deliveries: seq<Delivery>)

  /** One persisted version: the snapshot, the mutations behind it, and who wrote it. */
  datatype Entry = Entry(ring: Ring, muts: seq<Mutation>, bootstrap: bool, author: nat)

  datatype State = State(cell: Cell, history: seq<Entry>, nodes: seq<Node>)

  /** What happens next at a node: a caller's request, fresh randomness, the
      pending Redis command succeeding or failing, a commit whose reply is lost, a
      local store, or a step of the watcher. */
  datatype Choice =
    | Start
    | Begin(req: Request)
    | BeginReload
    | Mint(m: Mutation)
    | Redis
    | Fault
    | LostReply
    | Local
    | Watch
    | Deliver(d: nat)
    | DeliverFault(d: nat)

  datatype Effect = Effect(cell: Cell, wrote: Option<Entry>, node: Node)

  predicate Serves(req: Request, m: Mutation) {
    match req
    case Generate(alg) => m.Add? && m.alg == alg
    case PromoteId(id) => m == Promote(id)
    case RetireId(id) => m.Retire? && m.id == id
  }

  // ---------- the lock holder ----------

  function LoadFailed(n: Node, l: LoadFor): Node {
    match l
    case FirstEnsure => n.(pc := Down)
    case AdoptEnsure => n.(pc := Down)
    case AfterConflict(req, _) => n.(pc := Idle, done := n.done + [Failed(req)])
    case ReloadOnly => n.(pc := Idle)
  }

  function SaveFailed(n: Node, s: SaveFor): Node {
    match s
    case Bootstrap => n.(pc := Down)
    case Rotation(req, _, _) => n.(pc := Idle, done := n.done + [Failed(req)])
  }

  /** The version recorded for an absent ring makes the bootstrap save conditional
      on "still empty". */
  function NotExist(n: Node, l: LoadFor, before: nat): Node {
    if l == FirstEnsure then n.(last := before, pc := Minting)
    else LoadFailed(n.(last := before), l)
  }

  /** The loaded ring is installed together with its version. */
  function Loaded(n: Node, l: LoadFor, version: nat, body: Ring): Node {
    var m := n.(hand := Hand(body, version, []), last := version);
    match l
    case AfterConflict(req, attempt) =>
      if attempt < MAX_MUTATION_ATTEMPTS then m.(pc := Applying(req, attempt + 1))
      else m.(pc := Idle, done := m.done + [Failed(req)])
    case _ => m.(pc := Idle)
  }

  function Conflict(n: Node, s: SaveFor): Node {
    match s
    case Bootstrap => n.(pc := ReadBefore(AdoptEnsure, 1))
    case Rotation(req, _, attempt) => n.(pc := ReadBefore(AfterConflict(req, attempt), 1))
  }

  function Saved(n: Node, s: SaveFor, version: nat): Node {
    var m := n.(hand := Hand(n.hand.ring, version, []), last := version, pc := Idle);
    match s
    case Bootstrap => m
    case Rotation(req, mut, _) => m.(done := m.done + [Done(req, mut, version)])
  }

  function LoadStep(c: Cell, n: Node): Node
    requires Loading(n.pc)
  {
    match n.pc
    case ReadBefore(l, t) => n.(pc := ReadBody(l, t, c.version))
    case ReadBody(l, t, before) =>
      if c.body.None? then NotExist(n, l, before)
      else n.(pc := ReadAfter(l, t, before, c.body.value))
    case ReadAfter(l, t, before, body) =>
      if before == c.version then n.(pc := StoreLoaded(l, before, body))
      else if t < MAX_STORE_ATTEMPTS then n.(pc := ReadBefore(l, t + 1))
      else LoadFailed(n, l)
  }

  /** WATCH, GET, and the MULTI/EXEC that commits only if the watched key is
      untouched. */
  function SaveStep(c: Cell, n: Node, replyLost: bool): Effect
    requires Saving(n.pc)
  {
    match n.pc
    case WatchVersion(s, t, x) => Effect(c, None, n.(pc := ReadCurrent(s, t, x, c.version)))
    case ReadCurrent(s, t, x, w) =>
      if x != VERSION_UNKNOWN && c.version != x then Effect(c, None, Conflict(n, s))
      else Effect(c, None, n.(pc := Exec(s, t, x, w, c.version)))
    case Exec(s, t, x, w, current) =>
      if c.version != w then
        Effect(c, None, if t < MAX_STORE_ATTEMPTS then n.(pc := WatchVersion(s, t + 1, x)) else SaveFailed(n, s))
      else
        Effect(Cell(Some(Live(n.hand.ring)), current + 1), Some(Committed(n.me, n.hand, s)),
               if replyLost then SaveFailed(n, s) else n.(pc := StoreSaved(s, current + 1)))
  }

  function Committed(me: nat, hand: Hand, s: SaveFor): Entry {
    Entry(Live(hand.ring), hand.pending, s.Bootstrap?, me)
  }

  function Changed(hand: Hand, m: Mutation): Hand {
    hand.(ring := Apply(hand.ring, m), pending := hand.pending + [m])
  }

  /** Applying a mutation and reading the version to save against. */
  function MintStep(n: Node, m: Mutation): Node
    requires n.pc.Minting? || n.pc.Applying?
  {
    match n.pc
    case Minting =>
      if !(m.Add? && m.alg == HS256) then n
      else if !Accepts(EMPTY, m) then n.(pc := Down)
      else n.(hand := Changed(Hand(EMPTY, 0, []), m), pc := WatchVersion(Bootstrap, 1, n.last))
    case Applying(req, attempt) =>
      if !Serves(req, m) then n
      else if !Accepts(n.hand.ring, m) then n.(pc := Idle, done := n.done + [Failed(req)])
      else n.(hand := Changed(n.hand, m), pc := WatchVersion(Rotation(req, m, attempt), 1, n.last))
  }

  function LocalStep(n: Node): Node {
    match n.pc
    case StoreLoaded(l, v, body) => Loaded(n, l, v, body)
    case StoreSaved(s, v) => Saved(n, s, v)
    case _ => n
  }

  predicate Loading(pc: PC) { pc.ReadBefore? || pc.ReadBody? || pc.ReadAfter? }

  predicate Saving(pc: PC) { pc.WatchVersion? || pc.ReadCurrent? || pc.Exec? }

  /** The node has come up: `Ensure` returned a ring. */
  predicate Up(pc: PC) {
    match pc
    case Boot => false
    case Down => false
    case Minting => false
    case Idle => true
    case Applying(_, _) => true
    case ReadBefore(l, _) => Running(l)
    case ReadBody(l, _, _) => Running(l)
    case ReadAfter(l, _, _, _) => Running(l)
    case StoreLoaded(l, _, _) => Running(l)
    case WatchVersion(s, _, _) => s.Rotation?
    case ReadCurrent(s, _, _, _) => s.Rotation?
    case Exec(s, _, _, _, _) => s.Rotation?
    case StoreSaved(s, _) => s.Rotation?
  }

  predicate Running(l: LoadFor) { l.AfterConflict? || l.ReloadOnly? }

  // ---------- the watcher ----------

  /** One step of delivery `d`. It reads and records whenever it likes; only the
      install waits for the lock. */
  function DeliverStep(c: Cell, n: Node, d: nat): Node
    requires d < |n.deliveries|
  {
    match n.deliveries[d]
    case Quiet => if Up(n.pc) && Watching(n) then At(n, d, VersionRead(1)) else n
    case VersionRead(t) => At(n, d, BodyRead(t, c.version))
    case BodyRead(t, before) =>
      if c.body.None? then At(n, d, Quiet).(last := before) else At(n, d, VersionReread(t, before, c.body.value))
    case VersionReread(t, before, body) =>
      if before == c.version then At(n, d, Recording(before, body))
      else At(n, d, if t < MAX_STORE_ATTEMPTS then VersionRead(t + 1) else Quiet)
    case Recording(v, body) => At(n, d, Recorded(v, body)).(last := v)
    case Recorded(v, body) => At(n, d, Notifying(v, body, n.last))
    case Notifying(v, body, seen) =>
      if seen <= n.notified then At(n, d, Quiet) else At(n, d, Installing(v, body)).(notified := seen)
    case Installing(v, body) =>
      if n.pc.Idle? then At(n, d, Quiet).(hand := Hand(body, v, [])) else n
  }

  function At(n: Node, d: nat, x: Delivery): Node
    requires d < |n.deliveries|
  {
    n.(deliveries := n.deliveries[d := x])
  }

  /** `Watch` has stored the version it starts from. */
  predicate Watching(n: Node) {
    n.notified != VERSION_UNKNOWN
  }

  predicate AllQuiet(deliveries: seq<Delivery>) {
    forall d :: 0 <= d < |deliveries| ==> deliveries[d].Quiet?
  }

  /** One step of a node; a choice that does not apply changes nothing. */
  function NodeStep(c: Cell, n: Node, ch: Choice): Effect {
    match ch
    case Redis =>
      if Loading(n.pc) then Effect(c, None, LoadStep(c, n))
      else if Saving(n.pc) then SaveStep(c, n, false)
      else Effect(c, None, n)
    case LostReply => if n.pc.Exec? then SaveStep(c, n, true) else Effect(c, None, n)
    case Deliver(d) => Effect(c, None, if d < |n.deliveries| then DeliverStep(c, n, d) else n)
    case DeliverFault(d) => Effect(c, None, if d < |n.deliveries| then Interrupted(n, d) else n)
    case _ => Effect(c, None, OwnStep(n, ch))
  }

  /** A failing Redis command ends a delivery. */
  function Interrupted(n: Node, d: nat): Node
    requires d < |n.deliveries|
  {
    var x := n.deliveries[d];
    if x.VersionRead? || x.BodyRead? || x.VersionReread? then At(n, d, Quiet) else n
  }

  /** The steps that neither read nor write Redis. */
  function OwnStep(n: Node, ch: Choice): Node {
    match ch
    case Start => if n.pc.Boot? then n.(pc := ReadBefore(FirstEnsure, 1)) else n
    case Begin(req) => if n.pc.Idle? then n.(pc := Applying(req, 1)) else n
    case BeginReload => if n.pc.Idle? then n.(pc := ReadBefore(ReloadOnly, 1)) else n
    case Mint(m) => if n.pc.Minting? || n.pc.Applying? then MintStep(n, m) else n
    case Fault => if Loading(n.pc) then LoadFailed(n, n.pc.l) else if Saving(n.pc) then SaveFailed(n, n.pc.s) else n
    case Local => LocalStep(n)
    case Watch => if Up(n.pc) && AllQuiet(n.deliveries) then n.(notified := n.last) else n
    case _ => n
  }

  // ---------- the fleet ----------

  datatype Move = Move(node: nat, choice: Choice)

  function Next(s: State, mv: Move): State {
    if mv.node >= |s.nodes| then s
    else
      var e := NodeStep(s.cell, s.nodes[mv.node], mv.choice);
      State(e.cell, Extended(s.history, e), s.nodes[mv.node := e.node])
  }

  /** The history after a step. */
  function Extended(h: seq<Entry>, e: Effect): seq<Entry> {
    if e.wrote.Some? then h + [e.wrote.value] else h
  }

  function Run(s: State, moves: seq<Move>): State {
    if moves == [] then s else Next(Run(s, moves[..|moves| - 1]), moves[|moves| - 1])
  }

  /** A fresh Redis and `count` nodes about to boot, each able to run `threads`
      deliveries at once (the source runs two: a ticker and a subscription). */
  function Initial(count: nat, threads: nat): State {
    State(Cell(None, 0), [], seq(count, i requires 0 <= i => Booting(i, threads)))
  }

  function Booting(me: nat, threads: nat): Node {
    Node(me, Hand(EMPTY, 0, []), VERSION_UNKNOWN, Boot, [], VERSION_UNKNOWN, seq(threads, _ => Quiet))
  }

  // ---------- what every run keeps ----------

  /** The ring persisted as version `v`; version 0 is the empty store. */
  function Base(h: seq<Entry>, v: nat): Ring
    requires v <= |h|
  {
    if v == 0 then EMPTY else h[v - 1].ring
  }

  /** What is stored is always a snapshot, and only the first version a bootstrap. */
  ghost predicate Stored(h: seq<Entry>) {
    forall v :: 0 <= v < |h| ==> Snapshotted(h, v)
  }

  ghost predicate Snapshotted(h: seq<Entry>, v: nat)
    requires v < |h|
  {
    WellFormed(h[v].ring) && Live(h[v].ring) == h[v].ring && (h[v].bootstrap <==> v == 0)
  }

  /** Version `v + 1` is version `v` plus the recorded mutations. */
  ghost predicate Extends(h: seq<Entry>, v: nat)
    requires v < |h|
  {
    Snapshotted(h, v) && h[v].ring == Live(ApplyAll(Base(h, v), h[v].muts))
  }

  /** No version lost anything of the version before it. */
  ghost predicate Chain(h: seq<Entry>) {
    forall v :: 0 <= v < |h| ==> Extends(h, v)
  }

  ghost predicate CellMatches(c: Cell, h: seq<Entry>) {
    && c.version == |h|
    && c.body == if h == [] then None else Some(Base(h, |h|))
  }

  /** The mutation shows in the snapshot. */
  predicate Landed(r: Ring, m: Mutation) {
    match m
    case Add(id, alg, material, at) =>
      id in r.byID && r.byID[id].alg == alg && r.byID[id].material == material && r.byID[id].createdAt == at
    case Promote(id) => r.active == id
    case Retire(id, _) => id !in r.byID
  }

  /** A success reported at version `v` is the last mutation of that version. */
  ghost predicate Acknowledged(h: seq<Entry>, o: Outcome) {
    o.Done? ==> 1 <= o.version <= |h| && Serves(o.req, o.m) && EndsWith(h[o.version - 1], o.m)
  }

  ghost predicate EndsWith(e: Entry, m: Mutation) {
    e.muts != [] && e.muts[|e.muts| - 1] == m && Landed(e.ring, m)
  }

  /** Successes are acknowledged at the node's own versions, in ascending order. */
  ghost predicate Reports(h: seq<Entry>, me: nat, done: seq<Outcome>) {
    && (forall a :: 0 <= a < |done| ==> Acknowledged(h, done[a]) && OwnVersion(h, me, done[a]))
    && (forall a, b :: 0 <= a < b < |done| && done[a].Done? && done[b].Done? ==> done[a].version < done[b].version)
  }

  ghost predicate OwnVersion(h: seq<Entry>, me: nat, o: Outcome) {
    o.Done? ==> 1 <= o.version <= |h| && h[o.version - 1].author == me
  }

  /** The ring in hand is its version plus the pending mutations. */
  ghost predicate HandSane(h: seq<Entry>, hand: Hand) {
    WellFormed(hand.ring) && hand.version <= |h| && Tracks(hand.ring, ApplyAll(Base(h, hand.version), hand.pending))
  }

  ghost predicate SaveSane(h: seq<Entry>, hand: Hand, s: SaveFor, expected: int) {
    match s
    case Bootstrap => expected == 0
    case Rotation(req, m, _) => 1 <= expected <= |h| && Mutated(hand, req, m)
  }

  /** The last pending mutation serves the request and shows. */
  ghost predicate Mutated(hand: Hand, req: Request, m: Mutation) {
    && Serves(req, m) && Landed(Live(hand.ring), m)
    && hand.pending != [] && hand.pending[|hand.pending| - 1] == m
  }

  /** `body` was current at some moment since version `before` was read. */
  ghost predicate SeenSince(h: seq<Entry>, before: nat, body: Ring) {
    exists u :: 1 <= u <= |h| && before <= u && body == Base(h, u)
  }

  /** `body` is what was written as version `v`. */
  ghost predicate Written(h: seq<Entry>, v: nat, body: Ring) {
    1 <= v <= |h| && body == Base(h, v)
  }

  ghost predicate PCSane(h: seq<Entry>, n: Node) {
    match n.pc
    case Minting => n.last == 0
    case ReadBody(_, _, before) => before <= |h|
    case ReadAfter(_, _, before, body) => before <= |h| && SeenSince(h, before, body)
    case StoreLoaded(_, v, body) => Written(h, v, body)
    case WatchVersion(s, _, x) => SaveSane(h, n.hand, s, x)
    case ReadCurrent(s, _, x, w) => SaveSane(h, n.hand, s, x) && w <= |h|
    case Exec(s, _, x, w, current) => SaveSane(h, n.hand, s, x) && w <= current <= |h| && current == x
    case StoreSaved(s, v) => StoredSane(h, n, s, v)
    case _ => true
  }

  ghost predicate StoredSane(h: seq<Entry>, n: Node, s: SaveFor, v: nat) {
    && 1 <= v <= |h| && h[v - 1] == Committed(n.me, n.hand, s)
    && (s.Rotation? ==> Mutated(n.hand, s.req, s.m))
    && AllBelow(n.done, v)
  }

  ghost predicate AllBelow(done: seq<Outcome>, v: nat) {
    forall a :: 0 <= a < |done| && done[a].Done? ==> done[a].version < v
  }

  ghost predicate DeliverySane(h: seq<Entry>, x: Delivery) {
    match x
    case BodyRead(_, before) => before <= |h|
    case VersionReread(_, before, body) => before <= |h| && SeenSince(h, before, body)
    case Recording(v, body) => Written(h, v, body)
    case Recorded(v, body) => Written(h, v, body)
    case Notifying(v, body, seen) => Written(h, v, body) && seen <= |h|
    case Installing(v, body) => Written(h, v, body)
    case _ => true
  }

  ghost predicate DeliveriesSane(h: seq<Entry>, deliveries: seq<Delivery>) {
    forall d :: 0 <= d < |deliveries| ==> DeliverySane(h, deliveries[d])
  }

  ghost predicate Versions(h: seq<Entry>, n: Node) {
    && n.last <= |h| && n.notified <= |h|
    && if Up(n.pc) then n.last >= 1 && n.hand.version >= 1 else AllQuiet(n.deliveries)
  }

  ghost predicate NodeSane(h: seq<Entry>, n: Node) {
    && HandSane(h, n.hand) && Versions(h, n) && PCSane(h, n)
    && Reports(h, n.me, n.done) && DeliveriesSane(h, n.deliveries)
  }

  /** Holds in every run, whatever the watcher does: what is acknowledged was
      written, and every ring in hand is some version plus its pending mutations. */
  ghost predicate Sane(s: State) {
    && CellMatches(s.cell, s.history)
    && Stored(s.history)
    && forall i :: 0 <= i < |s.nodes| ==> s.nodes[i].me == i && NodeSane(s.history, s.nodes[i])
  }
}

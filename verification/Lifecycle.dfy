/** Channel lifecycle: a registry keyed by printed names, an expiry sweep, and the
    events the manager emits. */
module Lifecycle {
  import opened Text
  import opened Names
  import opened Times

  const DEFAULT_PUBLIC_TTL := 30 * MINUTE
  const DEFAULT_PRIVATE_TTL := 15 * MINUTE
  const MAX_PRIVATE_TTL := 60 * MINUTE

  datatype ChannelState = Open | Closed | Deleted

  datatype Channel = Channel(name: Name, state: ChannelState, ttl: int, createdAt: int, lastActive: int, delta: bool)

  datatype EventKind = OpenedEvent | ClosedEvent | DeletedEvent

  datatype Event = Event(kind: EventKind, name: Name, at: int)

  datatype StoreError = Invalid | NotFound | Exists | IsClosed | TTLExceeds

  type Registry = map<string, Channel>

  /** When a sweep at a given time considers an open channel expired. */
  type Rule = (int, Channel) -> bool

  /** The in-memory rule: idle for at least the TTL. */
  predicate Idle(now: int, ch: Channel) {
    now - ch.lastActive >= ch.ttl
  }

  /** What callers ask of the manager; times are clock readings. */
  datatype Op =
    | OpenPublic(name: Name, ttl: int, now: int)
    | CreatePrivate(name: Name, ttl: int, now: int)
    | Touch(name: Name, now: int)
    | SetDelta(name: Name, enabled: bool)
    | Delete(name: Name, now: int)
    | Sweep(now: int)

  predicate IsOpen(reg: Registry, name: Name) {
    Print(name) in reg && reg[Print(name)].state == Open
  }

  function NewChannel(name: Name, ttl: int, now: int): Channel {
    Channel(name, Open, ttl, now, now, false)
  }

  function AfterOpen(reg: Registry, name: Name, ttl: int, now: int): Registry {
    var k := Print(name);
    if name.visibility != PUBLIC || (k in reg && reg[k].state == Deleted) then reg
    else if k in reg then reg[k := reg[k].(state := Open, lastActive := now, ttl := ttl)]
    else reg[k := NewChannel(name, ttl, now)]
  }

  function AfterCreate(reg: Registry, name: Name, ttl: int, now: int): Registry {
    if name.visibility != PRIVATE || Print(name) in reg then reg
    else reg[Print(name) := NewChannel(name, ttl, now)]
  }

  function AfterTouch(reg: Registry, name: Name, now: int): Registry {
    if IsOpen(reg, name) then reg[Print(name) := reg[Print(name)].(lastActive := now)] else reg
  }

  function AfterSetDelta(reg: Registry, name: Name, enabled: bool): Registry {
    var k := Print(name);
    if k in reg && reg[k].state != Deleted then reg[k := reg[k].(delta := enabled)] else reg
  }

  function AfterDelete(reg: Registry, name: Name): Registry {
    var k := Print(name);
    if k in reg then reg[k := reg[k].(state := Deleted)] else reg
  }

  predicate Expires(reg: Registry, rule: Rule, now: int, k: string) {
    k in reg && reg[k].state == Open && rule(now, reg[k])
  }

  /** Expired private channels go, expired public ones close. */
  function AfterSweep(reg: Registry, rule: Rule, now: int): Registry {
    map k | k in reg && !(Expires(reg, rule, now, k) && reg[k].name.IsPrivate())
      :: if Expires(reg, rule, now, k) then reg[k].(state := Closed) else reg[k]
  }

  function ClosingEvent(ch: Channel, now: int): Event {
    Event(if ch.name.IsPrivate() then DeletedEvent else ClosedEvent, ch.name, now)
  }

  function PublicTTL(ttl: int): int {
    if ttl == 0 then DEFAULT_PUBLIC_TTL else ttl
  }

  function PrivateTTL(ttl: int): int {
    if ttl <= 0 then DEFAULT_PRIVATE_TTL else ttl
  }

  /** The registry after a manager call. */
  function NextReg(reg: Registry, op: Op, rule: Rule): Registry {
    match op
    case OpenPublic(name, ttl, now) => AfterOpen(reg, name, PublicTTL(ttl), now)
    case CreatePrivate(name, ttl, now) =>
      if PrivateTTL(ttl) > MAX_PRIVATE_TTL then reg else AfterCreate(reg, name, PrivateTTL(ttl), now)
    case Touch(name, now) => AfterTouch(reg, name, now)
    case SetDelta(name, enabled) => AfterSetDelta(reg, name, enabled)
    case Delete(name, now) => AfterDelete(reg, name)
    case Sweep(now) => AfterSweep(reg, rule, now)
  }

  /** `evs` lists the closing event of every expired channel once, in any order. */
  ghost predicate SweepEvents(reg: Registry, rule: Rule, now: int, evs: seq<Event>) {
    && (forall e :: e in evs ==> exists k :: Expires(reg, rule, now, k) && e == ClosingEvent(reg[k], now))
    && (forall k :: Expires(reg, rule, now, k) ==> ClosingEvent(reg[k], now) in evs)
    && (forall i, j :: 0 <= i < j < |evs| ==> evs[i] != evs[j])
  }

  /** The events a manager call may emit. */
  ghost predicate Emits(reg: Registry, op: Op, rule: Rule, evs: seq<Event>) {
    match op
    case OpenPublic(name, _, now) =>
      evs == if !IsOpen(reg, name) && IsOpen(NextReg(reg, op, rule), name) then [Event(OpenedEvent, name, now)] else []
    case CreatePrivate(name, _, now) =>
      evs == if !IsOpen(reg, name) && IsOpen(NextReg(reg, op, rule), name) then [Event(OpenedEvent, name, now)] else []
    case Touch(_, _) => evs == []
    case SetDelta(_, _) => evs == []
    case Delete(name, now) =>
      evs == if Print(name) in reg && reg[Print(name)].state != Deleted then [Event(DeletedEvent, name, now)] else []
    case Sweep(now) => SweepEvents(reg, rule, now, evs)
  }

  // ---------- the store and the manager ----------

  /** What an opening returns: the channel as it now stands, or why not. */
  function OpenResult(before: Registry, after: Registry, name: Name): Result<Channel, StoreError> {
    if name.visibility != PUBLIC then Err(Invalid)
    else if Print(name) in before && before[Print(name)].state == Deleted then Err(NotFound)
    else if Print(name) in after then Ok(after[Print(name)]) else Err(NotFound)
  }

  function CreateResult(before: Registry, after: Registry, name: Name): Result<Channel, StoreError> {
    if name.visibility != PRIVATE then Err(Invalid)
    else if Print(name) in before then Err(Exists)
    else if Print(name) in after then Ok(after[Print(name)]) else Err(NotFound)
  }

  class MemoryStore {
    var channels: Registry

    constructor ()
      ensures channels == map[]
    {
      channels := map[];
    }

    method Get(name: Name) returns (r: Option<Channel>)
      ensures r == if Print(name) in channels && channels[Print(name)].state != Deleted then Some(channels[Print(name)]) else None
    {
      var k := Print(name);
      if k !in channels || channels[k].state == Deleted { return None; }
      return Some(channels[k]);
    }

    method OpenPublic(name: Name, ttl: int, now: int) returns (r: Result<Channel, StoreError>, ev: Option<Event>)
      modifies this
      ensures channels == AfterOpen(old(channels), name, ttl, now)
      ensures r == OpenResult(old(channels), channels, name)
      ensures r.Ok? ==> r.value == channels[Print(name)] && r.value.lastActive == now && r.value.ttl == ttl
      ensures ev == if r.Ok? && !IsOpen(old(channels), name) then Some(Event(OpenedEvent, name, now)) else None
    {
      if name.visibility != PUBLIC { return Err(Invalid), None; }
      var k := Print(name);
      if k in channels {
        var ch := channels[k];
        if ch.state == Deleted { return Err(NotFound), None; }
        var wasClosed := ch.state == Closed;
        ch := ch.(state := Open, lastActive := now, ttl := ttl);
        channels := channels[k := ch];
        return Ok(ch), if wasClosed then Some(Event(OpenedEvent, name, now)) else None;
      }
      var ch := Channel(name, Open, ttl, now, now, false);
      channels := channels[k := ch];
      return Ok(ch), Some(Event(OpenedEvent, name, now));
    }

    method CreatePrivate(name: Name, ttl: int, now: int) returns (r: Result<Channel, StoreError>, ev: Option<Event>)
      modifies this
      ensures channels == AfterCreate(old(channels), name, ttl, now)
      ensures r.Ok? <==> name.visibility == PRIVATE && Print(name) !in old(channels)
      ensures r == CreateResult(old(channels), channels, name)
      ensures ev == if r.Ok? then Some(Event(OpenedEvent, name, now)) else None
    {
      if name.visibility != PRIVATE { return Err(Invalid), None; }
      var k := Print(name);
      if k in channels { return Err(Exists), None; }
      var ch := Channel(name, Open, ttl, now, now, false);
      channels := channels[k := ch];
      return Ok(ch), Some(Event(OpenedEvent, name, now));
    }

    method Touch(name: Name, now: int) returns (err: Option<StoreError>)
      modifies this
      ensures channels == AfterTouch(old(channels), name, now)
      ensures err == if IsOpen(old(channels), name) then None
                     else if Print(name) in old(channels) && old(channels)[Print(name)].state == Closed then Some(IsClosed)
                     else Some(NotFound)
    {
      var k := Print(name);
      if k !in channels { return Some(NotFound); }
      var ch := channels[k];
      if ch.state == Deleted { return Some(NotFound); }
      if ch.state == Closed { return Some(IsClosed); }
      channels := channels[k := ch.(lastActive := now)];
      return None;
    }

    method Delete(name: Name, now: int) returns (ok: bool, ev: Option<Event>)
      modifies this
      ensures channels == AfterDelete(old(channels), name)
      ensures ok <==> Print(name) in old(channels)
      ensures ev == if ok && old(channels)[Print(name)].state != Deleted then Some(Event(DeletedEvent, name, now)) else None
    {
      var k := Print(name);
      if k !in channels { return false, None; }
      var already := channels[k].state == Deleted;
      channels := channels[k := channels[k].(state := Deleted)];
      return true, if already then None else Some(Event(DeletedEvent, name, now));
    }

    method SetDelta(name: Name, enabled: bool) returns (ok: bool)
      modifies this
      ensures channels == AfterSetDelta(old(channels), name, enabled)
      ensures ok <==> Print(name) in old(channels) && old(channels)[Print(name)].state != Deleted
      ensures ok ==> Print(name) in channels && channels[Print(name)].delta == enabled
    {
      var k := Print(name);
      if k !in channels || channels[k].state == Deleted { return false; }
      channels := channels[k := channels[k].(delta := enabled)];
      return true;
    }

    /** Visits the channels in whatever order the map yields them. */
    method Sweep(now: int) returns (evs: seq<Event>)
      requires Keyed(channels)
      modifies this
      ensures channels == AfterSweep(old(channels), Idle, now)
      ensures SweepEvents(old(channels), Idle, now, evs)
    {
      evs := [];
      var todo := channels.Keys;
      ghost var done: set<string> := {};
      SweptPartEnds(channels, Idle, now);
      while todo != {}
        invariant done + todo == old(channels).Keys && done !! todo
        invariant channels == SweptPart(old(channels), Idle, now, done)
        invariant PartEvents(old(channels), Idle, now, done, evs)
      {
        var k :| k in todo;
        SweptPartStep(old(channels), Idle, now, done, k);
        PartEventsStep(old(channels), Idle, now, done, k, evs);
        var ch := channels[k];
        if ch.state == Open && !(now - ch.lastActive < ch.ttl) {
          if ch.name.IsPrivate() {
            channels := channels - {k};
            evs := evs + [Event(DeletedEvent, ch.name, now)];
          } else {
            channels := channels[k := ch.(state := Closed)];
            evs := evs + [Event(ClosedEvent, ch.name, now)];
          }
        }
        todo := todo - {k};
        done := done + {k};
      }
      assert done == old(channels).Keys;
      SweptPartEnds(old(channels), Idle, now);
    }
  }

  /** Every record sits under the printed form of its own, canonical name. */
  ghost predicate Keyed(reg: Registry) {
    forall k :: k in reg ==> Canonical(reg[k].name) && Print(reg[k].name) == k
  }

  /** A sweep that has visited the keys in `done`. */
  ghost function SweptPart(reg: Registry, rule: Rule, now: int, done: set<string>): Registry {
    map k | k in reg && !(k in done && Expires(reg, rule, now, k) && reg[k].name.IsPrivate())
      :: if k in done && Expires(reg, rule, now, k) then reg[k].(state := Closed) else reg[k]
  }

  ghost predicate PartEvents(reg: Registry, rule: Rule, now: int, done: set<string>, evs: seq<Event>) {
    && (forall e :: e in evs ==> exists k :: k in done && Expires(reg, rule, now, k) && e == ClosingEvent(reg[k], now))
    && (forall k :: k in done && Expires(reg, rule, now, k) ==> ClosingEvent(reg[k], now) in evs)
    && (forall i, j :: 0 <= i < j < |evs| ==> evs[i] != evs[j])
  }

  lemma SweptPartEnds(reg: Registry, rule: Rule, now: int)
    ensures SweptPart(reg, rule, now, {}) == reg
    ensures SweptPart(reg, rule, now, reg.Keys) == AfterSweep(reg, rule, now)
  {
  }

  lemma SweptPartStep(reg: Registry, rule: Rule, now: int, done: set<string>, k: string)
    requires k in reg && k !in done
    ensures var cur, next := SweptPart(reg, rule, now, done), SweptPart(reg, rule, now, done + {k});
            && k in cur && cur[k] == reg[k]
            && next == if !Expires(reg, rule, now, k) then cur
                       else if reg[k].name.IsPrivate() then cur - {k} else cur[k := reg[k].(state := Closed)]
  {
    var cur, next := SweptPart(reg, rule, now, done), SweptPart(reg, rule, now, done + {k});
    if !Expires(reg, rule, now, k) {
      assert next == cur;
    } else if reg[k].name.IsPrivate() {
      assert next == cur - {k};
    } else {
      assert next == cur[k := reg[k].(state := Closed)];
    }
  }

  lemma PartEventsStep(reg: Registry, rule: Rule, now: int, done: set<string>, k: string, evs: seq<Event>)
    requires Keyed(reg) && k in reg && k !in done && PartEvents(reg, rule, now, done, evs)
    ensures PartEvents(reg, rule, now, done + {k},
              if Expires(reg, rule, now, k) then evs + [ClosingEvent(reg[k], now)] else evs)
  {
    if Expires(reg, rule, now, k) {
      var more := evs + [ClosingEvent(reg[k], now)];
      assert more[|evs|] == ClosingEvent(reg[k], now);
      assert forall e :: e in evs ==> e in more;
      forall j | j in done + {k} && Expires(reg, rule, now, j) ensures ClosingEvent(reg[j], now) in more {
        if j != k { assert ClosingEvent(reg[j], now) in evs; }
      }
      forall e | e in evs ensures e != ClosingEvent(reg[k], now) {
        var j :| j in done && Expires(reg, rule, now, j) && e == ClosingEvent(reg[j], now);
        assert Print(reg[j].name) == j && Print(reg[k].name) == k;
      }
      forall e | e in more ensures exists j :: j in done + {k} && Expires(reg, rule, now, j) && e == ClosingEvent(reg[j], now) {
        if e in evs {
          var j :| j in done && Expires(reg, rule, now, j) && e == ClosingEvent(reg[j], now);
          assert j in done + {k};
        } else {
          assert e == ClosingEvent(reg[k], now) && k in done + {k};
        }
      }
      forall i, j | 0 <= i < j < |more| ensures more[i] != more[j] {
        if j == |evs| { assert more[i] in evs; }
      }
    }
  }

  /** Drives the store and fans its events out; `emitted` is what a subscriber that
      keeps up receives. */
  class Manager {
    const store: MemoryStore
    var emitted: seq<Event>

    constructor ()
      ensures fresh(store) && store.channels == map[] && emitted == []
    {
      store := new MemoryStore();
      emitted := [];
    }

    method Emit(ev: Option<Event>)
      modifies this
      ensures emitted == old(emitted) + (if ev.Some? then [ev.value] else [])
    {
      if ev.None? { return; }
      emitted := emitted + [ev.value];
    }

    method OpenPublic(name: Name, ttl: int, now: int) returns (r: Result<Channel, StoreError>)
      modifies this, store
      ensures store.channels == NextReg(old(store.channels), Op.OpenPublic(name, ttl, now), Idle)
      ensures old(emitted) <= emitted
      ensures Emits(old(store.channels), Op.OpenPublic(name, ttl, now), Idle, emitted[|old(emitted)|..])
      ensures r == OpenResult(old(store.channels), store.channels, name)
    {
      var t := ttl;
      if t == 0 { t := DEFAULT_PUBLIC_TTL; }
      var ev;
      r, ev := store.OpenPublic(name, t, now);
      if r.Err? { return; }
      Emit(ev);
    }

    method CreatePrivate(name: Name, ttl: int, now: int) returns (r: Result<Channel, StoreError>)
      modifies this, store
      ensures store.channels == NextReg(old(store.channels), Op.CreatePrivate(name, ttl, now), Idle)
      ensures old(emitted) <= emitted
      ensures Emits(old(store.channels), Op.CreatePrivate(name, ttl, now), Idle, emitted[|old(emitted)|..])
      ensures r == if ttl > MAX_PRIVATE_TTL then Err(TTLExceeds) else CreateResult(old(store.channels), store.channels, name)
    {
      var t := ttl;
      if t <= 0 { t := DEFAULT_PRIVATE_TTL; }
      if t > MAX_PRIVATE_TTL { return Err(TTLExceeds); }
      var ev;
      r, ev := store.CreatePrivate(name, t, now);
      if r.Err? { return; }
      Emit(ev);
    }

    method Delete(name: Name, now: int) returns (ok: bool)
      modifies this, store
      ensures store.channels == NextReg(old(store.channels), Op.Delete(name, now), Idle)
      ensures old(emitted) <= emitted
      ensures Emits(old(store.channels), Op.Delete(name, now), Idle, emitted[|old(emitted)|..])
      ensures ok <==> Print(name) in old(store.channels)
    {
      var ev;
      ok, ev := store.Delete(name, now);
      if !ok { return; }
      Emit(ev);
    }

    method Sweep(now: int) returns (count: nat)
      requires Keyed(store.channels)
      modifies this, store
      ensures store.channels == NextReg(old(store.channels), Op.Sweep(now), Idle)
      ensures old(emitted) <= emitted && count == |emitted| - |old(emitted)|
      ensures Emits(old(store.channels), Op.Sweep(now), Idle, emitted[|old(emitted)|..])
    {
      var evs := store.Sweep(now);
      for i := 0 to |evs|
        invariant emitted == old(emitted) + evs[..i]
        invariant store.channels == AfterSweep(old(store.channels), Idle, now)
      {
        Emit(Some(evs[i]));
      }
      assert emitted == old(emitted) + evs;
      return |evs|;
    }
  }
}

/** Whole runs of the channel registry: the emitted events determine which channels
    are open. */
module LifecycleRuns {
  import opened Text
  import opened Names
  import opened Lifecycle
  import opened Times

  /** One call and the events it emitted. */
  datatype Step = Step(op: Op, evs: seq<Event>)

  function RegAfter(trace: seq<Step>, rule: Rule): Registry {
    if trace == [] then map[] else NextReg(RegAfter(trace[..|trace| - 1], rule), trace[|trace| - 1].op, rule)
  }

  function Log(trace: seq<Step>): seq<Event> {
    if trace == [] then [] else Log(trace[..|trace| - 1]) + trace[|trace| - 1].evs
  }

  /** Callers pass parsed names. */
  predicate ParsedNames(op: Op) {
    op.Sweep? || Canonical(op.name)
  }

  ghost predicate ValidTrace(trace: seq<Step>, rule: Rule) {
    trace == []
    || (var n := |trace| - 1;
        ValidTrace(trace[..n], rule) && ParsedNames(trace[n].op) && Emits(RegAfter(trace[..n], rule), trace[n].op, rule, trace[n].evs))
  }

  // ---------- folding events ----------

  function Fold(open: set<Name>, evs: seq<Event>): set<Name> {
    if evs == [] then open
    else
      var before := Fold(open, evs[..|evs| - 1]);
      var e := evs[|evs| - 1];
      if e.kind == OpenedEvent then before + {e.name} else before - {e.name}
  }

  lemma {:induction false} FoldConcat(open: set<Name>, a: seq<Event>, b: seq<Event>)
    ensures Fold(open, a + b) == Fold(Fold(open, a), b)
  {
    if b == [] {
      assert a + b == a;
    } else {
      FoldConcat(open, a, b[..|b| - 1]);
      assert (a + b)[..|a + b| - 1] == a + b[..|b| - 1];
    }
  }

  /** Closing events, in any order, remove exactly their names. */
  lemma {:induction false} FoldClosing(open: set<Name>, evs: seq<Event>)
    requires forall e :: e in evs ==> e.kind != OpenedEvent
    ensures Fold(open, evs) == open - set e | e in evs :: e.name
  {
    if evs == [] {
    } else {
      var n := |evs| - 1;
      FoldClosing(open, evs[..n]);
      assert forall e :: e in evs <==> e in evs[..n] || e == evs[n];
      assert (set e | e in evs :: e.name) == (set e | e in evs[..n] :: e.name) + {evs[n].name};
    }
  }

  ghost predicate OpenExactly(reg: Registry, open: set<Name>) {
    && (forall n :: n in open ==> Canonical(n))
    && (forall n :: Canonical(n) ==> (n in open <==> IsOpen(reg, n)))
  }

  // ---------- one call ----------

  lemma NextKeyed(reg: Registry, op: Op, rule: Rule)
    requires Keyed(reg) && ParsedNames(op)
    ensures Keyed(NextReg(reg, op, rule))
  {
  }

  /** Calls about one name leave the openness of all others alone. */
  lemma OtherNames(reg: Registry, op: Op, rule: Rule, n: Name)
    requires Keyed(reg) && ParsedNames(op) && !op.Sweep? && Canonical(n) && n != op.name
    ensures IsOpen(NextReg(reg, op, rule), n) == IsOpen(reg, n)
  {
    if Print(n) == Print(op.name) { PrintInjective(n, op.name); }
  }

  lemma SweepFolds(reg: Registry, rule: Rule, now: int, evs: seq<Event>, open: set<Name>)
    requires Keyed(reg) && SweepEvents(reg, rule, now, evs) && OpenExactly(reg, open)
    ensures OpenExactly(AfterSweep(reg, rule, now), Fold(open, evs))
  {
    FoldClosing(open, evs);
    forall n | Canonical(n) ensures n in Fold(open, evs) <==> IsOpen(AfterSweep(reg, rule, now), n) {
      var k := Print(n);
      if Expires(reg, rule, now, k) {
        assert reg[k].name == n by { PrintInjective(reg[k].name, n); }
        assert ClosingEvent(reg[k], now) in evs && ClosingEvent(reg[k], now).name == n;
      } else {
        forall e | e in evs ensures e.name != n {
          var j :| Expires(reg, rule, now, j) && e == ClosingEvent(reg[j], now);
          assert Print(reg[j].name) == j;
        }
      }
    }
  }

  lemma CallFolds(reg: Registry, op: Op, rule: Rule, evs: seq<Event>, open: set<Name>)
    requires Keyed(reg) && ParsedNames(op) && Emits(reg, op, rule, evs) && OpenExactly(reg, open)
    ensures OpenExactly(NextReg(reg, op, rule), Fold(open, evs))
  {
    if op.Sweep? {
      SweepFolds(reg, rule, op.now, evs, open);
    } else {
      var after := NextReg(reg, op, rule);
      FoldSingle(open, evs);
      forall n | Canonical(n) ensures n in Fold(open, evs) <==> IsOpen(after, n) {
        if n != op.name { OtherNames(reg, op, rule, n); }
      }
    }
  }

  lemma FoldSingle(open: set<Name>, evs: seq<Event>)
    requires |evs| <= 1
    ensures Fold(open, evs) == if evs == [] then open
            else if evs[0].kind == OpenedEvent then open + {evs[0].name} else open - {evs[0].name}
  {
    if evs != [] { assert evs[..0] == []; }
  }

  // ---------- every run ----------

  lemma {:induction false} TraceKeyed(trace: seq<Step>, rule: Rule)
    requires ValidTrace(trace, rule)
    ensures Keyed(RegAfter(trace, rule))
  {
    if trace == [] {
    } else {
      TraceKeyed(trace[..|trace| - 1], rule);
      NextKeyed(RegAfter(trace[..|trace| - 1], rule), trace[|trace| - 1].op, rule);
    }
  }

  /** The event log determines the registry: after every run, and under any expiry
      rule, folding the emitted events from nothing gives exactly the open names. */
  lemma {:induction false} LogDeterminesOpenSet(trace: seq<Step>, rule: Rule)
    requires ValidTrace(trace, rule)
    ensures OpenExactly(RegAfter(trace, rule), Fold({}, Log(trace)))
  {
    if trace == [] {
    } else {
      var n := |trace| - 1;
      LogDeterminesOpenSet(trace[..n], rule);
      TraceKeyed(trace[..n], rule);
      FoldConcat({}, Log(trace[..n]), trace[n].evs);
      CallFolds(RegAfter(trace[..n], rule), trace[n].op, rule, trace[n].evs, Fold({}, Log(trace[..n])));
    }
  }

  // ---------- emission after the store's lock is released ----------

  /** The events of one name, in order. */
  function ForName(evs: seq<Event>, n: Name): seq<Event> {
    if evs == [] then []
    else
      var before := ForName(evs[..|evs| - 1], n);
      if evs[|evs| - 1].name == n then before + [evs[|evs| - 1]] else before
  }

  /** Whether a name ends up open depends on its own events only. */
  lemma {:induction false} FoldByName(open: set<Name>, evs: seq<Event>, n: Name)
    ensures var own := ForName(evs, n);
            n in Fold(open, evs) <==> if own == [] then n in open else own[|own| - 1].kind == OpenedEvent
  {
    if evs == [] {
    } else {
      FoldByName(open, evs[..|evs| - 1], n);
    }
  }

  /** Concurrent calls emit after releasing the store's lock, so events may be seen in
      another order. The log still determines the open set as long as the events of
      each name keep their order. */
  lemma ReorderedLogDeterminesOpenSet(trace: seq<Step>, rule: Rule, log: seq<Event>)
    requires ValidTrace(trace, rule) && forall n :: ForName(log, n) == ForName(Log(trace), n)
    ensures OpenExactly(RegAfter(trace, rule), Fold({}, log))
  {
    LogGivesOpenSetExactlyWhen(trace, rule, log);
    assert forall n :: ForName(log, n) == ForName(Log(trace), n);
  }

  /** The last event of the name, if any, is an opening. */
  predicate EndsOpen(log: seq<Event>, n: Name) {
    var own := ForName(log, n);
    own != [] && own[|own| - 1].kind == OpenedEvent
  }

  /** A registry has one open set. */
  lemma OpenSetUnique(reg: Registry, s: set<Name>, t: set<Name>)
    requires OpenExactly(reg, s)
    ensures OpenExactly(reg, t) <==> s == t
  {
    if OpenExactly(reg, t) {
      forall n ensures n in s <==> n in t {
        if Canonical(n) {}
      }
    }
  }

  /** Exactly when a log gives the open set, whatever was lost or reordered: each name
      ends open in it just when it ends open in the trace. */
  lemma LogGivesOpenSetExactlyWhen(trace: seq<Step>, rule: Rule, log: seq<Event>)
    requires ValidTrace(trace, rule)
    ensures OpenExactly(RegAfter(trace, rule), Fold({}, log)) <==>
            forall n :: EndsOpen(log, n) <==> EndsOpen(Log(trace), n)
  {
    LogDeterminesOpenSet(trace, rule);
    OpenSetUnique(RegAfter(trace, rule), Fold({}, Log(trace)), Fold({}, log));
    SameFoldExactlyWhen(log, Log(trace));
  }

  lemma SameFoldExactlyWhen(a: seq<Event>, b: seq<Event>)
    ensures Fold({}, a) == Fold({}, b) <==> forall n :: EndsOpen(a, n) <==> EndsOpen(b, n)
  {
    forall n ensures (n in Fold({}, a) <==> EndsOpen(a, n)) && (n in Fold({}, b) <==> EndsOpen(b, n)) {
      FoldByName({}, a, n);
      FoldByName({}, b, n);
    }
  }

  /** Without that it does not: a deletion overtaking the opening it follows leaves a
      deleted channel open in the log. */
  lemma SwappedEmissionMisleads(n: Name, ttl: int, now: int, rule: Rule)
    requires Canonical(n) && n.visibility == PUBLIC
    ensures var up, gone := Event(OpenedEvent, n, now), Event(DeletedEvent, n, now);
            var trace := [Step(OpenPublic(n, ttl, now), [up]), Step(Delete(n, now), [gone])];
            && ValidTrace(trace, rule) && Log(trace) == [up, gone]
            && !IsOpen(RegAfter(trace, rule), n) && n in Fold({}, [gone, up])
  {
    var up, gone := Event(OpenedEvent, n, now), Event(DeletedEvent, n, now);
    var a, b := Step(OpenPublic(n, ttl, now), [up]), Step(Delete(n, now), [gone]);
    OneStep(a, rule);
    assert [a, b][..1] == [a] && [up] + [gone] == [up, gone];
    assert [gone, up][..1] == [gone];
  }

  lemma OneStep(a: Step, rule: Rule)
    ensures RegAfter([a], rule) == NextReg(map[], a.op, rule) && Log([a]) == a.evs
    ensures ValidTrace([a], rule) <==> ParsedNames(a.op) && Emits(map[], a.op, rule, a.evs)
  {
    assert [a][..0] == [] && RegAfter([], rule) == map[] && ValidTrace([], rule);
    assert [] + a.evs == a.evs;
  }

  /** Whenever a name is reported opened, the events before it leave it not open. */
  ghost predicate OpensOnlyWhenNotOpen(log: seq<Event>) {
    forall p :: 0 <= p < |log| && log[p].kind == OpenedEvent ==> log[p].name !in Fold({}, log[..p])
  }

  lemma {:induction false} LogWellFormed(trace: seq<Step>, rule: Rule)
    requires ValidTrace(trace, rule)
    ensures OpensOnlyWhenNotOpen(Log(trace))
  {
    if trace == [] {
    } else {
      var n := |trace| - 1;
      LogWellFormed(trace[..n], rule);
      LogDeterminesOpenSet(trace[..n], rule);
      OpensWhenNotOpen(RegAfter(trace[..n], rule), trace[n].op, rule, trace[n].evs);
      OpensAppend(Log(trace[..n]), trace[n].evs);
    }
  }

  /** A call reports an opening alone, and only of a name that was not open. */
  lemma OpensWhenNotOpen(reg: Registry, op: Op, rule: Rule, evs: seq<Event>)
    requires ParsedNames(op) && Emits(reg, op, rule, evs)
    ensures forall e :: e in evs && e.kind == OpenedEvent ==> |evs| == 1 && Canonical(e.name) && !IsOpen(reg, e.name)
  {
  }

  lemma OpensAppend(before: seq<Event>, evs: seq<Event>)
    requires OpensOnlyWhenNotOpen(before)
    requires forall e :: e in evs && e.kind == OpenedEvent ==> |evs| == 1 && e.name !in Fold({}, before)
    ensures OpensOnlyWhenNotOpen(before + evs)
  {
    var log := before + evs;
    forall p | 0 <= p < |log| && log[p].kind == OpenedEvent ensures log[p].name !in Fold({}, log[..p]) {
      if p < |before| {
        assert log[..p] == before[..p];
      } else {
        assert log[p] == evs[p - |before|] && log[p] in evs;
        assert log[..p] == before;
      }
    }
  }

  /** A name stays open in the fold until a closing event names it. */
  lemma {:induction false} StaysOpen(log: seq<Event>, i: nat, j: nat)
    requires i < j <= |log| && log[i].kind == OpenedEvent
    requires forall k :: i < k < j ==> !(log[k].name == log[i].name && log[k].kind != OpenedEvent)
    ensures log[i].name in Fold({}, log[..j])
  {
    assert log[..j][..j - 1] == log[..j - 1];
    if j == i + 1 {
    } else {
      StaysOpen(log, i, j - 1);
    }
  }

  /** Two opened events of one name are always separated by a closed or deleted
      event of that name. */
  lemma OpenedEventsSeparated(trace: seq<Step>, rule: Rule, i: nat, j: nat)
    requires ValidTrace(trace, rule)
    requires i < j < |Log(trace)| && Log(trace)[i].name == Log(trace)[j].name
    requires Log(trace)[i].kind == OpenedEvent && Log(trace)[j].kind == OpenedEvent
    ensures exists k :: i < k < j && Log(trace)[k].name == Log(trace)[i].name && Log(trace)[k].kind != OpenedEvent
  {
    LogWellFormed(trace, rule);
    if forall k :: i < k < j ==> !(Log(trace)[k].name == Log(trace)[i].name && Log(trace)[k].kind != OpenedEvent) {
      StaysOpen(Log(trace), i, j);
    }
  }

  // ---------- explicit deletion ----------

  predicate Buried(reg: Registry, n: Name) {
    Print(n) in reg && reg[Print(n)].state == Deleted
  }

  lemma BuriedStays(reg: Registry, op: Op, rule: Rule, evs: seq<Event>, n: Name)
    requires Keyed(reg) && ParsedNames(op) && Emits(reg, op, rule, evs) && Canonical(n) && Buried(reg, n)
    ensures Buried(NextReg(reg, op, rule), n)
    ensures forall e :: e in evs && e.name == n ==> e.kind != OpenedEvent
  {
    if !op.Sweep? && op.name != n && Print(op.name) == Print(n) {
      PrintInjective(op.name, n);
    }
  }

  /** A buried name stays buried. */
  lemma {:induction false} StaysBuried(trace: seq<Step>, rule: Rule, d: nat, name: Name)
    requires ValidTrace(trace, rule) && d <= |trace| && Canonical(name) && Buried(RegAfter(trace[..d], rule), name)
    ensures Buried(RegAfter(trace, rule), name)
  {
    if d == |trace| {
      assert trace[..d] == trace;
    } else {
      var n := |trace| - 1;
      assert trace[..n][..d] == trace[..d];
      StaysBuried(trace[..n], rule, d, name);
      TraceKeyed(trace[..n], rule);
      BuriedStays(RegAfter(trace[..n], rule), trace[n].op, rule, trace[n].evs, name);
    }
  }

  lemma {:induction false} StaysQuiet(trace: seq<Step>, rule: Rule, d: nat, name: Name)
    requires ValidTrace(trace, rule) && d <= |trace| && Canonical(name) && Buried(RegAfter(trace[..d], rule), name)
    ensures Log(trace[..d]) <= Log(trace) && QuietFrom(Log(trace), |Log(trace[..d])|, name)
  {
    if d == |trace| {
      assert trace[..d] == trace;
    } else {
      var n := |trace| - 1;
      assert trace[..n][..d] == trace[..d];
      StaysQuiet(trace[..n], rule, d, name);
      StaysBuried(trace[..n], rule, d, name);
      TraceKeyed(trace[..n], rule);
      BuriedStays(RegAfter(trace[..n], rule), trace[n].op, rule, trace[n].evs, name);
      QuietAppend(Log(trace[..n]), trace[n].evs, |Log(trace[..d])|, name);
    }
  }

  lemma {:induction false} StepBuries(trace: seq<Step>, rule: Rule, d: nat)
    requires ValidTrace(trace, rule) && d < |trace| && trace[d].op.Delete?
    requires Print(trace[d].op.name) in RegAfter(trace[..d], rule)
    ensures Canonical(trace[d].op.name) && Buried(RegAfter(trace[..d + 1], rule), trace[d].op.name)
  {
    if d == |trace| - 1 {
      assert trace[..d + 1] == trace;
    } else {
      var n := |trace| - 1;
      assert trace[..n][..d] == trace[..d] && trace[..n][..d + 1] == trace[..d + 1];
      StepBuries(trace[..n], rule, d);
    }
  }

  /** An explicitly deleted name never opens again: nothing after the deletion
      reopens it or reports it opened. */
  lemma DeletedNeverReopens(trace: seq<Step>, rule: Rule, d: nat)
    requires ValidTrace(trace, rule) && d < |trace| && trace[d].op.Delete?
    requires Print(trace[d].op.name) in RegAfter(trace[..d], rule)
    ensures !IsOpen(RegAfter(trace, rule), trace[d].op.name)
    ensures Log(trace[..d + 1]) <= Log(trace)
    ensures QuietFrom(Log(trace), |Log(trace[..d + 1])|, trace[d].op.name)
  {
    StepBuries(trace, rule, d);
    StaysBuried(trace, rule, d + 1, trace[d].op.name);
    StaysQuiet(trace, rule, d + 1, trace[d].op.name);
  }

  /** No opening of `name` is logged from position `from` on. */
  ghost predicate QuietFrom(log: seq<Event>, from: nat, name: Name) {
    forall k :: from <= k < |log| && log[k].name == name ==> log[k].kind != OpenedEvent
  }

  lemma QuietAppend(log: seq<Event>, evs: seq<Event>, from: nat, name: Name)
    requires QuietFrom(log, from, name) && forall e :: e in evs && e.name == name ==> e.kind != OpenedEvent
    ensures QuietFrom(log + evs, from, name)
  {
    forall k | from <= k < |log + evs| && (log + evs)[k].name == name ensures (log + evs)[k].kind != OpenedEvent {
      if k < |log| {
        assert (log + evs)[k] == log[k];
      } else {
        assert (log + evs)[k] == evs[k - |log|];
      }
    }
  }

  // ---------- one name's life ----------

  /** What has become of a name: never used or free again, open under a lease, closed, or
      deleted for good. */
  datatype Life = Unused | Live(at: int, ttl: int) | Shut | Gone

  /** How a call changes a name's life, told from the calls alone. Opening renews anything
      but a deleted public name, for half an hour unless told otherwise; creating takes an
      unused private name, for a quarter of an hour unless told otherwise and for an hour
      at most; a sweep shuts public names whose lease has run out and frees private ones. */
  function Lived(life: Life, op: Op, name: Name): Life {
    match op
    case OpenPublic(m, ttl, now) =>
      if m == name && name.visibility == "public" && life != Gone then Live(now, if ttl == 0 then 30 * MINUTE else ttl) else life
    case CreatePrivate(m, ttl, now) =>
      if m == name && name.visibility == "private" && life == Unused && ttl <= 60 * MINUTE
      then Live(now, if ttl <= 0 then 15 * MINUTE else ttl) else life
    case Touch(m, now) => if m == name && life.Live? then life.(at := now) else life
    case SetDelta(_, _) => life
    case Delete(m, _) => if m == name && life != Unused then Gone else life
    case Sweep(now) =>
      if life.Live? && now >= life.at + life.ttl then (if name.visibility == "private" then Unused else Shut) else life
  }

  function LifeAfter(trace: seq<Step>, name: Name): Life {
    if trace == [] then Unused else Lived(LifeAfter(trace[..|trace| - 1], name), trace[|trace| - 1].op, name)
  }

  /** The registry's record of the name says the same. */
  ghost predicate Records(reg: Registry, name: Name, life: Life) {
    var k := Print(name);
    && (k in reg <==> life != Unused)
    && (k in reg ==>
          && reg[k].name == name
          && (reg[k].state == Open <==> life.Live?) && (reg[k].state == Closed <==> life == Shut)
          && (life.Live? ==> reg[k].lastActive == life.at && reg[k].ttl == life.ttl))
  }

  lemma RecordsStep(reg: Registry, op: Op, name: Name, life: Life)
    requires ParsedNames(op) && Canonical(name) && Records(reg, name, life)
    ensures Records(NextReg(reg, op, Idle), name, Lived(life, op, name))
  {
    if !op.Sweep? && op.name != name && Print(op.name) == Print(name) {
      PrintInjective(op.name, name);
    }
  }

  /** The registry is nothing but the lives of its names: after every run, what it holds
      under a name is what the calls made of that name. */
  lemma {:induction false} RegistryRecordsLives(trace: seq<Step>, name: Name)
    requires ValidTrace(trace, Idle) && Canonical(name)
    ensures Records(RegAfter(trace, Idle), name, LifeAfter(trace, name))
  {
    if trace == [] {
    } else {
      var n := |trace| - 1;
      RegistryRecordsLives(trace[..n], name);
      RecordsStep(RegAfter(trace[..n], Idle), trace[n].op, name, LifeAfter(trace[..n], name));
    }
  }

  // ---------- leases ----------

  /** What keeps a channel open: when it was last active, and for how long that lasts. */
  datatype Lease = Lease(at: int, ttl: int)

  /** The lease as the calls of a run grant it, without looking at stored times. */
  function LeaseAfter(trace: seq<Step>, rule: Rule, name: Name): Lease {
    if trace == [] then Lease(0, 0)
    else
      var n := |trace| - 1;
      Renewed(LeaseAfter(trace[..n], rule, name), RegAfter(trace[..n], rule), trace[n].op, rule, name)
  }

  function Renewed(lease: Lease, reg: Registry, op: Op, rule: Rule, name: Name): Lease {
    match op
    case OpenPublic(m, ttl, now) =>
      if m == name && name.visibility == PUBLIC && !Buried(reg, name) then Lease(now, if ttl == 0 then 30 * MINUTE else ttl) else lease
    case CreatePrivate(m, ttl, now) =>
      if m == name && !IsOpen(reg, name) && IsOpen(NextReg(reg, op, rule), name) then Lease(now, if ttl <= 0 then 15 * MINUTE else ttl)
      else lease
    case Touch(m, now) => if m == name && IsOpen(reg, name) then lease.(at := now) else lease
    case _ => lease
  }

  ghost predicate Leased(reg: Registry, name: Name, lease: Lease) {
    IsOpen(reg, name) ==> reg[Print(name)].lastActive == lease.at && reg[Print(name)].ttl == lease.ttl
  }

  lemma LeaseStep(reg: Registry, op: Op, rule: Rule, name: Name, lease: Lease)
    requires ParsedNames(op) && Canonical(name) && Leased(reg, name, lease)
    ensures Leased(NextReg(reg, op, rule), name, Renewed(lease, reg, op, rule, name))
  {
    if !op.Sweep? && op.name != name && Print(op.name) == Print(name) {
      PrintInjective(op.name, name);
    }
  }

  lemma {:induction false} RunLeased(trace: seq<Step>, rule: Rule, name: Name)
    requires ValidTrace(trace, rule) && Canonical(name)
    ensures Leased(RegAfter(trace, rule), name, LeaseAfter(trace, rule, name))
  {
    if trace == [] {
    } else {
      var n := |trace| - 1;
      RunLeased(trace[..n], rule, name);
      LeaseStep(RegAfter(trace[..n], rule), trace[n].op, rule, name, LeaseAfter(trace[..n], rule, name));
    }
  }

  /** Never early, never late: after every run, a sweep leaves an open channel open
      if and only if its lease, counted from its last opening or touch, is running. */
  lemma SweepEndsExactlyExpiredLeases(trace: seq<Step>, name: Name, now: int)
    requires ValidTrace(trace, Idle) && Canonical(name) && IsOpen(RegAfter(trace, Idle), name)
    ensures var lease := LeaseAfter(trace, Idle, name);
            IsOpen(AfterSweep(RegAfter(trace, Idle), Idle, now), name) <==> now < lease.at + lease.ttl
  {
    RunLeased(trace, Idle, name);
  }
}

/** The signing-key ring: one active key, verify-only keys, retired keys. */
module KeyRings {
  import opened Text
  import opened Sorting

  datatype Alg = HS256 | RS256 | EdDSA | ES256 | ES384

  datatype Role = Active | VerifyOnly | Retired

  /** Key material, treated as opaque: a shared secret or a private-key handle. */
  datatype Material = Secret(bytes: seq<nat>) | Private(handle: nat) | NoMaterial

  datatype Key = Key(id: string, alg: Alg, material: Material, role: Role, createdAt: int, retiredAt: Option<int>)

  /** The value of a ring: keys by id, and the id of the active one ("" if none). */
  datatype Ring = Ring(byID: map<string, Key>, active: string)

  const EMPTY := Ring(map[], "")

  /** A change a caller asks of the ring; `at` is the clock reading it stamps. */
  datatype Mutation =
    | Add(id: string, alg: Alg, material: Material, at: int)
    | Promote(id: string)
    | Retire(id: string, at: int)

  /** A secret of at least 32 bytes for HS256, a private key otherwise. */
  predicate MaterialOk(alg: Alg, m: Material) {
    if alg == HS256 then m.Secret? && |m.bytes| >= 32 else m.Private?
  }

  predicate Accepts(r: Ring, m: Mutation) {
    match m
    case Add(id, alg, material, _) => id != "" && MaterialOk(alg, material) && id !in r.byID
    case Promote(id) => id in r.byID && r.byID[id].role != Retired
    case Retire(id, _) => id in r.byID && (r.byID[id].role == Retired || id != r.active)
  }

  function NewKey(r: Ring, m: Mutation): Key
    requires m.Add?
  {
    Key(m.id, m.alg, m.material, if r.byID == map[] then Active else VerifyOnly, m.at, None)
  }

  /** The ring after `m`; a refused mutation leaves it alone. */
  function Apply(r: Ring, m: Mutation): Ring {
    if !Accepts(r, m) then r
    else match m
      case Add(id, _, _, _) =>
        Ring(r.byID[id := NewKey(r, m)], if r.byID == map[] then id else r.active)
      case Promote(id) =>
        var demoted := if r.active in r.byID && r.active != id
                       then r.byID[r.active := r.byID[r.active].(role := VerifyOnly)] else r.byID;
        Ring(demoted[id := demoted[id].(role := Active)], id)
      case Retire(id, at) =>
        if r.byID[id].role == Retired then r
        else Ring(r.byID[id := r.byID[id].(role := Retired, retiredAt := Some(at))], r.active)
  }

  function ApplyAll(r: Ring, ms: seq<Mutation>): Ring {
    if ms == [] then r else Apply(ApplyAll(r, ms[..|ms| - 1]), ms[|ms| - 1])
  }

  /** A non-empty ring has exactly one active key, and it is the recorded one. */
  ghost predicate WellFormed(r: Ring) {
    && (r.byID == map[] <==> r.active == "")
    && (r.active != "" ==> r.active in r.byID)
    && forall id :: id in r.byID ==>
         && r.byID[id].id == id && id != ""
         && (r.byID[id].role == Active <==> id == r.active)
         && MaterialOk(r.byID[id].alg, r.byID[id].material)
         && (r.byID[id].role == Retired <==> r.byID[id].retiredAt.Some?)
  }

  /** What a snapshot carries: everything but the retired keys. */
  function Live(r: Ring): Ring {
    Ring(map id | id in r.byID && r.byID[id].role != Retired :: r.byID[id], r.active)
  }

  /** `Get` finds the key: it is present and not retired. */
  predicate Resolves(r: Ring, id: string) {
    id in r.byID && r.byID[id].role != Retired
  }

  /** What verification needs of a key stays the same. */
  predicate SameVerifier(a: Key, b: Key) {
    a.id == b.id && a.alg == b.alg && a.material == b.material && a.createdAt == b.createdAt
  }

  // ---------- single steps ----------

  lemma ApplyWellFormed(r: Ring, m: Mutation)
    requires WellFormed(r)
    ensures WellFormed(Apply(r, m))
  {
  }

  lemma LiveWellFormed(r: Ring)
    requires WellFormed(r)
    ensures WellFormed(Live(r)) && Live(Live(r)) == Live(r)
    ensures forall id :: id in Live(r).byID <==> Resolves(r, id)
    ensures forall id :: Resolves(r, id) ==> Live(r).byID[id] == r.byID[id]
  {
    if r.active != "" { assert r.active in Live(r).byID; }
  }

  /** A resolvable key survives every mutation but its own retirement, with the
      same material. */
  lemma ApplyKeepsKey(r: Ring, m: Mutation, id: string)
    requires WellFormed(r) && Resolves(r, id)
    ensures Resolves(Apply(r, m), id) || (m.Retire? && m.id == id)
    ensures id in Apply(r, m).byID && SameVerifier(r.byID[id], Apply(r, m).byID[id])
  {
  }

  /** Exactly which key signs after a mutation: a first key, a promoted key that
      resolved before, and otherwise the key that signed before. */
  lemma SignsExactly(r: Ring, m: Mutation)
    requires WellFormed(r)
    ensures Apply(r, m).active ==
            match m
            case Add(id, alg, material, _) =>
              if r.byID == map[] && id != ""
                 && (if alg == HS256 then material.Secret? && |material.bytes| >= 32 else material.Private?)
              then id else r.active
            case Promote(id) => if Resolves(r, id) then id else r.active
            case Retire(_, _) => r.active
  {
  }

  /** A whole rotation goes through on every ring that signs: a new key is added, signs
      once promoted, and the key it replaced is retired. At every step the ring signs,
      the new key verifies as soon as it is there, the old one until it is retired, and
      no third key is touched. */
  lemma RotationGoesThrough(r: Ring, id: string, alg: Alg, material: Material, at: int, later: int)
    requires WellFormed(r) && r.byID != map[] && id != "" && id !in r.byID
    requires if alg == HS256 then material.Secret? && |material.bytes| >= 32 else material.Private?
    ensures var added := Apply(r, Add(id, alg, material, at));
            var promoted := Apply(added, Promote(id));
            var retired := Apply(promoted, Retire(r.active, later));
            && added.active == r.active && promoted.active == id && retired.active == id
            && Resolves(added, id) && added.byID[id].material == material && added.byID[id].alg == alg
            && Resolves(promoted, id) && Resolves(promoted, r.active)
            && Resolves(retired, id) && !Resolves(retired, r.active)
            && SameVerifier(added.byID[id], retired.byID[id])
            && forall k :: k in r.byID && k != r.active ==> k in retired.byID && retired.byID[k] == r.byID[k]
  {
  }

  lemma {:induction false} ApplyAllWellFormed(r: Ring, ms: seq<Mutation>)
    requires WellFormed(r)
    ensures WellFormed(ApplyAll(r, ms))
  {
    if ms == [] {
    } else {
      ApplyAllWellFormed(r, ms[..|ms| - 1]);
      ApplyWellFormed(ApplyAll(r, ms[..|ms| - 1]), ms[|ms| - 1]);
    }
  }

  predicate RetiredBy(ms: seq<Mutation>, id: string) {
    exists i :: 0 <= i < |ms| && ms[i].Retire? && ms[i].id == id
  }

  lemma {:induction false} ApplyAllKeepsKey(r: Ring, ms: seq<Mutation>, id: string)
    requires WellFormed(r) && Resolves(r, id) && !RetiredBy(ms, id)
    ensures Resolves(ApplyAll(r, ms), id)
    ensures SameVerifier(r.byID[id], ApplyAll(r, ms).byID[id])
  {
    if ms == [] {
    } else {
      var k := |ms| - 1;
      assert forall i :: 0 <= i < k ==> ms[..k][i] == ms[i];
      ApplyAllKeepsKey(r, ms[..k], id);
      ApplyAllWellFormed(r, ms[..k]);
      ApplyKeepsKey(ApplyAll(r, ms[..k]), ms[k], id);
      assert !(ms[k].Retire? && ms[k].id == id);
    }
  }

  // ---------- rings that differ only in retired keys ----------

  /** `a` and `b` have the same live keys; `b` may have forgotten retired ones. */
  ghost predicate Tracks(a: Ring, b: Ring) {
    && a.active == b.active
    && b.byID.Keys <= a.byID.Keys
    && (forall id :: id in a.byID && a.byID[id].role != Retired ==> id in b.byID && b.byID[id] == a.byID[id])
    && (forall id :: id in b.byID && b.byID[id].role != Retired ==> a.byID[id].role != Retired)
  }

  lemma TracksLive(a: Ring, b: Ring)
    requires Tracks(a, b)
    ensures Live(a) == Live(b)
  {
    assert Live(a).byID.Keys == Live(b).byID.Keys;
  }

  /** A mutation the ring accepted has the same live effect on the ring that
      forgot its retired keys: what a reload drops never matters. */
  lemma ApplyTracks(a: Ring, b: Ring, m: Mutation)
    requires WellFormed(a) && WellFormed(b) && Tracks(a, b) && Accepts(a, m)
    ensures Tracks(Apply(a, m), Apply(b, m))
  {
    match m {
      case Add(id, _, _, _) =>
        assert id !in b.byID;
        assert a.byID == map[] <==> b.byID == map[];
      case Promote(id) =>
        assert id in b.byID;
      case Retire(id, _) =>
    }
  }

  // ---------- whole runs of one ring ----------

  /** What a process does to its ring: mutate it, or install a snapshot the ring
      itself produced `age` steps ago (0 is its current snapshot). */
  datatype RingOp = Mutate(m: Mutation) | Reload(age: nat)

  /** The ring after each step, newest last; `states[0]` is the start. */
  ghost predicate RingRun(ops: seq<RingOp>, states: seq<Ring>) {
    |states| == |ops| + 1 && forall i :: 0 <= i < |ops| ==> RingStep(ops[i], states, i)
  }

  ghost predicate RingStep(op: RingOp, states: seq<Ring>, i: nat)
    requires i + 1 < |states|
  {
    match op
    case Mutate(m) => states[i + 1] == Apply(states[i], m)
    case Reload(age) => age <= i && states[i + 1] == Live(states[i - age])
  }

  /** Every ring of a run has exactly one active key as soon as it has any. */
  lemma {:induction false} RunWellFormed(ops: seq<RingOp>, states: seq<Ring>, i: nat)
    requires RingRun(ops, states) && WellFormed(states[0]) && i < |states|
    ensures WellFormed(states[i])
  {
    if i == 0 {
    } else {
      assert RingStep(ops[i - 1], states, i - 1);
      match ops[i - 1] {
        case Mutate(m) =>
          RunWellFormed(ops, states, i - 1);
          ApplyWellFormed(states[i - 1], m);
        case Reload(age) =>
          RunWellFormed(ops, states, i - 1 - age);
          LiveWellFormed(states[i - 1 - age]);
      }
    }
  }

  /** Between steps `i` and `j` nothing retires `id` and no reload reaches back
      before step `i`. */
  predicate Undisturbed(ops: seq<RingOp>, i: nat, j: nat, id: string)
    requires i <= j <= |ops|
  {
    forall k :: i <= k < j ==> Harmless(ops[k], k - i, id)
  }

  predicate Harmless(op: RingOp, reach: nat, id: string) {
    match op
    case Mutate(m) => !(m.Retire? && m.id == id)
    case Reload(age) => age <= reach
  }

  /** Zero-downtime rotation: whatever key signed at step `i` still resolves, with
      the same material, at every later step until that key is retired. */
  lemma {:induction false} SignedTokensKeepResolving(ops: seq<RingOp>, states: seq<Ring>, i: nat, j: nat, id: string)
    requires RingRun(ops, states) && WellFormed(states[0]) && i <= j < |states|
    requires Resolves(states[i], id) && Undisturbed(ops, i, j, id)
    ensures Resolves(states[j], id) && SameVerifier(states[i].byID[id], states[j].byID[id])
  {
    if i == j {
    } else {
      assert RingStep(ops[j - 1], states, j - 1) && Harmless(ops[j - 1], j - 1 - i, id);
      match ops[j - 1] {
        case Mutate(m) =>
          SignedTokensKeepResolving(ops, states, i, j - 1, id);
          RunWellFormed(ops, states, j - 1);
          ApplyKeepsKey(states[j - 1], m, id);
        case Reload(age) =>
          assert j - 1 - age >= i;
          SignedTokensKeepResolving(ops, states, i, j - 1 - age, id);
          RunWellFormed(ops, states, j - 1 - age);
          LiveWellFormed(states[j - 1 - age]);
      }
    }
  }

  /** Step by step, exactly what decides: a key stops resolving only by its own
      accepted retirement or because the installed snapshot lacked it. */
  lemma ResolvesExactly(ops: seq<RingOp>, states: seq<Ring>, i: nat, id: string)
    requires RingRun(ops, states) && WellFormed(states[0]) && i < |ops|
    ensures ops[i].Mutate? ==>
              (Resolves(states[i + 1], id) <==>
               (Resolves(states[i], id) && !(ops[i].m.Retire? && ops[i].m.id == id && id != states[i].active))
               || (ops[i].m.Add? && ops[i].m.id == id && id != "" && id !in states[i].byID
                   && if ops[i].m.alg == HS256 then ops[i].m.material.Secret? && |ops[i].m.material.bytes| >= 32
                      else ops[i].m.material.Private?))
    ensures ops[i].Reload? ==>
              ops[i].age <= i && (Resolves(states[i + 1], id) <==> Resolves(states[i - ops[i].age], id))
  {
    assert RingStep(ops[i], states, i);
    RunWellFormed(ops, states, i);
    if ops[i].Reload? {
      RunWellFormed(ops, states, i - ops[i].age);
      LiveWellFormed(states[i - ops[i].age]);
    }
  }

  /** Without the bound on reloads it fails: installing a snapshot older than a
      key drops that key. */
  lemma StaleReloadDropsKey(r: Ring, m: Mutation)
    requires WellFormed(r) && m.Add? && Accepts(r, m)
    ensures var states := [r, Apply(r, m), Live(r)];
            && RingRun([Mutate(m), Reload(1)], states)
            && Resolves(states[1], m.id) && !Resolves(states[2], m.id)
  {
    var ops, states := [Mutate(m), Reload(1)], [r, Apply(r, m), Live(r)];
    assert ops[0] == Mutate(m) && ops[1] == Reload(1);
  }

  // ---------- the class ----------

  datatype Snapshot = Snapshot(activeKeyID: string, keys: seq<Key>)

  predicate KeyBefore(a: Key, b: Key) {
    Less(a.id, b.id)
  }

  /** The map a snapshot's entries build; a repeated id keeps the last. */
  function FromEntries(keys: seq<Key>): map<string, Key> {
    if keys == [] then map[]
    else FromEntries(keys[..|keys| - 1])[keys[|keys| - 1].id := keys[|keys| - 1]]
  }

  /** Why a snapshot is refused. */
  predicate Loadable(s: Snapshot) {
    && (s.activeKeyID == "" ==> s.keys == [])
    && (forall i :: 0 <= i < |s.keys| ==> MaterialOk(s.keys[i].alg, s.keys[i].material))
    && (s.activeKeyID != "" ==> s.activeKeyID in FromEntries(s.keys))
  }

  /** `s` lists exactly the live keys of `r`, each once, by id. */
  ghost predicate SnapshotOf(s: Snapshot, r: Ring) {
    && s.activeKeyID == r.active
    && Sorted(s.keys, KeyBefore)
    && Elements(s.keys) == Live(r).byID.Values
  }

  lemma {:induction false} FromEntriesLookup(keys: seq<Key>, id: string)
    requires forall i, j :: 0 <= i < j < |keys| ==> keys[i].id != keys[j].id
    ensures id in FromEntries(keys) <==> exists i :: 0 <= i < |keys| && keys[i].id == id
    ensures forall i :: 0 <= i < |keys| && keys[i].id == id ==> id in FromEntries(keys) && FromEntries(keys)[id] == keys[i]
  {
    if keys == [] {
    } else {
      var k := |keys| - 1;
      FromEntriesLookup(keys[..k], id);
      assert forall i :: 0 <= i < k ==> keys[..k][i] == keys[i] && keys[i].id != keys[k].id;
    }
  }

  /** Loading a ring's own snapshot gives back exactly its live part. */
  lemma SnapshotThenLoad(s: Snapshot, r: Ring)
    requires WellFormed(r) && SnapshotOf(s, r)
    ensures Loadable(s) && Ring(FromEntries(s.keys), s.activeKeyID) == Live(r)
  {
    LiveWellFormed(r);
    forall i, j | 0 <= i < j < |s.keys| ensures s.keys[i].id != s.keys[j].id {
      LessTotal(s.keys[i].id, s.keys[j].id);
      assert KeyBefore(s.keys[i], s.keys[j]);
    }
    forall i | 0 <= i < |s.keys| ensures s.keys[i].id in Live(r).byID && Live(r).byID[s.keys[i].id] == s.keys[i] {
      assert s.keys[i] in Elements(s.keys);
    }
    forall id | id in Live(r).byID ensures exists i :: 0 <= i < |s.keys| && s.keys[i] == Live(r).byID[id] {
      assert Live(r).byID[id] in Live(r).byID.Values;
      assert Live(r).byID[id] in Elements(s.keys);
    }
    forall id: string ensures id in FromEntries(s.keys) <==> id in Live(r).byID
      ensures id in Live(r).byID ==> FromEntries(s.keys)[id] == Live(r).byID[id]
    {
      FromEntriesLookup(s.keys, id);
    }
    if s.keys != [] {
      assert s.keys[0].id in r.byID;
    }
  }

  class KeyRing {
    var byID: map<string, Key>
    var active: string

    ghost function Value(): Ring
      reads this
    {
      Ring(byID, active)
    }

    constructor ()
      ensures Value() == EMPTY
    {
      byID := map[];
      active := "";
    }

    /** `Add` and `addAsymmetric`, which differ only in the material they take. */
    method AddKey(id: string, alg: Alg, material: Material, now: int) returns (r: Option<Key>)
      modifies this
      ensures Value() == Apply(old(Value()), Add(id, alg, material, now))
      ensures r.Some? <==> Accepts(old(Value()), Add(id, alg, material, now))
      ensures r.Some? ==> id in byID && byID[id] == r.value && r.value.material == material
      ensures r.Some? <==> id != "" && id !in old(byID)
                           && if alg == HS256 then material.Secret? && |material.bytes| >= 32 else material.Private?
    {
      if id == "" { return None; }
      if alg == HS256 {
        if !material.Secret? || |material.bytes| < 32 { return None; }
      } else if !material.Private? {
        return None;
      }
      if id in byID { return None; }
      var role := VerifyOnly;
      if byID == map[] { role := Active; }
      var k := Key(id, alg, material, role, now, None);
      byID := byID[id := k];
      if role == Active { active := id; }
      return Some(k);
    }

    method PromoteKey(id: string) returns (ok: bool)
      requires WellFormed(Value())
      modifies this
      ensures Value() == Apply(old(Value()), Promote(id)) && ok == Accepts(old(Value()), Promote(id))
      ensures ok ==> active == id
      ensures ok <==> Resolves(old(Value()), id)
    {
      if id !in byID || byID[id].role == Retired { return false; }
      if active != "" && active != id {
        byID := byID[active := byID[active].(role := VerifyOnly)];
      }
      byID := byID[id := byID[id].(role := Active)];
      active := id;
      return true;
    }

    method RetireKey(id: string, now: int) returns (ok: bool)
      modifies this
      ensures Value() == Apply(old(Value()), Retire(id, now)) && ok == Accepts(old(Value()), Retire(id, now))
      ensures ok ==> !Resolves(Value(), id)
      ensures ok <==> id in old(byID) && (id != old(active) || !Resolves(old(Value()), id))
    {
      if id !in byID { return false; }
      if byID[id].role == Retired { return true; }
      if id == active { return false; }
      byID := byID[id := byID[id].(role := Retired, retiredAt := Some(now))];
      return true;
    }

    method Get(id: string) returns (r: Option<Key>)
      ensures r == if Resolves(Value(), id) then Some(byID[id]) else None
    {
      if id !in byID { return None; }
      if byID[id].role == Retired { return None; }
      return Some(byID[id]);
    }

    /** The key that signs: present and never retired. */
    method ActiveKey() returns (r: Option<Key>)
      requires WellFormed(Value())
      ensures r.None? <==> byID == map[]
      ensures r.Some? ==> r.value.role == Active && Resolves(Value(), r.value.id) && byID[r.value.id] == r.value
      ensures forall id :: id in byID && byID[id].role == Active ==> r == Some(byID[id])
    {
      if active == "" { return None; }
      return Some(byID[active]);
    }

    method TakeSnapshot() returns (s: Snapshot)
      requires WellFormed(Value())
      ensures SnapshotOf(s, Value())
    {
      var keys: seq<Key> := [];
      var todo := byID.Keys;
      while todo != {}
        invariant todo <= byID.Keys && LiveOutside(keys, byID, todo)
      {
        var id :| id in todo;
        KeyListed(keys, byID, todo, id);
        if byID[id].role != Retired {
          keys := keys + [byID[id]];
        }
        todo := todo - {id};
      }
      KeyOrder(Elements(keys));
      var sorted := Sort(keys, KeyBefore);
      SortedSnapshot(keys, sorted, Value());
      s := Snapshot(active, sorted);
    }

    /** Builds the new map entry by entry and swaps it in, or changes nothing. */
    method LoadSnapshot(s: Snapshot) returns (ok: bool)
      modifies this
      ensures ok <==> Loadable(s)
      ensures Value() == if ok then Ring(FromEntries(s.keys), s.activeKeyID) else old(Value())
    {
      if s.activeKeyID == "" && s.keys != [] { return false; }
      var next: map<string, Key> := map[];
      for i := 0 to |s.keys|
        invariant next == FromEntries(s.keys[..i])
        invariant forall j :: 0 <= j < i ==> MaterialOk(s.keys[j].alg, s.keys[j].material)
        invariant Value() == old(Value())
      {
        assert s.keys[..i + 1][..i] == s.keys[..i];
        var k := s.keys[i];
        if !MaterialOk(k.alg, k.material) { return false; }
        next := next[k.id := k];
      }
      assert s.keys[..|s.keys|] == s.keys;
      if s.activeKeyID != "" && s.activeKeyID !in next { return false; }
      byID := next;
      active := s.activeKeyID;
      return true;
    }

    /** Persist-and-reload on one node: exactly the retired keys go. */
    method ReloadOwnSnapshot()
      requires WellFormed(Value())
      modifies this
      ensures Value() == Live(old(Value())) && WellFormed(Value())
    {
      var s := TakeSnapshot();
      SnapshotThenLoad(s, Value());
      LiveWellFormed(Value());
      var ok := LoadSnapshot(s);
    }
  }

  lemma KeyOrder(ks: set<Key>)
    requires forall a, b :: a in ks && b in ks && a.id == b.id ==> a == b
    ensures StrictOrder(ks, KeyBefore)
  {
    forall a, b | a in ks && b in ks ensures a != b ==> KeyBefore(a, b) != KeyBefore(b, a)
      ensures !KeyBefore(a, a)
    {
      LessTotal(a.id, b.id);
    }
    forall a, b, c | a in ks && b in ks && c in ks && KeyBefore(a, b) && KeyBefore(b, c) ensures KeyBefore(a, c) {
      LessTransitive(a.id, b.id, c.id);
    }
  }

  /** `keys` lists the live keys outside `todo`, once each. */
  ghost predicate LiveOutside(keys: seq<Key>, byID: map<string, Key>, todo: set<string>) {
    && (forall i :: 0 <= i < |keys| ==>
          keys[i].id in byID && keys[i].id !in todo && keys[i] == byID[keys[i].id] && keys[i].role != Retired)
    && (forall id :: id in byID && id !in todo && byID[id].role != Retired ==> byID[id] in keys)
    && Distinct(keys)
  }

  lemma KeyListed(keys: seq<Key>, byID: map<string, Key>, todo: set<string>, id: string)
    requires LiveOutside(keys, byID, todo) && id in todo && id in byID && byID[id].id == id
    ensures LiveOutside(if byID[id].role != Retired then keys + [byID[id]] else keys, byID, todo - {id})
  {
  }

  lemma SortedSnapshot(keys: seq<Key>, sorted: seq<Key>, r: Ring)
    requires WellFormed(r) && LiveOutside(keys, r.byID, {})
    requires Sorted(sorted, KeyBefore) && Elements(sorted) == Elements(keys)
    ensures SnapshotOf(Snapshot(r.active, sorted), r)
  {
    LiveWellFormed(r);
    forall k ensures k in Elements(keys) <==> k in Live(r).byID.Values {
      if k in Elements(keys) { assert Live(r).byID[k.id] == k; }
    }
  }
}

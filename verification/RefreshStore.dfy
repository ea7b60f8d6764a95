/** The in-memory rotation store: redeemed token ids and revoked families, each
    kept until an absolute expiry and pruned lazily on every call. */
module RefreshStores {

  /** The value of a store; times are absolute nanoseconds. */
  datatype Store = Store(redeemed: map<string, int>, revoked: map<string, int>)

  function Unexpired(m: map<string, int>, now: int): map<string, int> {
    map k | k in m && m[k] > now :: m[k]
  }

  function Prune(s: Store, now: int): Store {
    Store(Unexpired(s.redeemed, now), Unexpired(s.revoked, now))
  }

  /** The answer of `MarkRedeemed`: the id is on record and the record is alive. */
  predicate Reused(s: Store, jti: string, exp: int, now: int) {
    exp > now && jti in s.redeemed && s.redeemed[jti] > now
  }

  function Mark(s: Store, jti: string, exp: int, now: int): Store {
    if exp <= now then s
    else
      var p := Prune(s, now);
      if Reused(s, jti, exp, now) then p else p.(redeemed := p.redeemed[jti := exp])
  }

  function Revoke(s: Store, fid: string, exp: int, now: int): Store {
    if exp <= now then s
    else
      var p := Prune(s, now);
      if fid in p.revoked && exp <= p.revoked[fid] then p else p.(revoked := p.revoked[fid := exp])
  }

  predicate Revoked(s: Store, fid: string, now: int) {
    fid in s.revoked && s.revoked[fid] > now
  }

  /** Pruning at `earlier` is invisible to a redemption at `now` unless the record
      expired between a later prune and an earlier clock reading. */
  lemma PruneVisibleExactlyWhen(s: Store, jti: string, exp: int, earlier: int, now: int)
    requires jti in s.redeemed
    ensures Reused(Prune(s, earlier), jti, exp, now) == Reused(s, jti, exp, now) <==>
            !(exp > now && now < s.redeemed[jti] <= earlier)
  {
  }

  class MemoryRefreshStore {
    var redeemed: map<string, int>
    var revoked: map<string, int>

    ghost function Value(): Store
      reads this
    {
      Store(redeemed, revoked)
    }

    constructor ()
      ensures Value() == Store(map[], map[])
    {
      redeemed := map[];
      revoked := map[];
    }

    /** Deletes every expired record, key by key. */
    method PruneLocked(now: int)
      modifies this
      ensures Value() == Prune(old(Value()), now)
    {
      var todo := redeemed.Keys;
      while todo != {}
        invariant todo <= redeemed.Keys <= old(redeemed).Keys
        invariant forall k :: k in redeemed ==> redeemed[k] == old(redeemed)[k]
        invariant forall k :: k in old(redeemed) && k !in todo ==> (k in redeemed <==> old(redeemed)[k] > now)
        invariant revoked == old(revoked)
      {
        var k :| k in todo;
        if redeemed[k] <= now { redeemed := redeemed - {k}; }
        todo := todo - {k};
      }
      assert redeemed == Unexpired(old(redeemed), now);
      todo := revoked.Keys;
      while todo != {}
        invariant todo <= revoked.Keys <= old(revoked).Keys
        invariant forall k :: k in revoked ==> revoked[k] == old(revoked)[k]
        invariant forall k :: k in old(revoked) && k !in todo ==> (k in revoked <==> old(revoked)[k] > now)
        invariant redeemed == Unexpired(old(redeemed), now)
      {
        var k :| k in todo;
        if revoked[k] <= now { revoked := revoked - {k}; }
        todo := todo - {k};
      }
      assert revoked == Unexpired(old(revoked), now);
    }

    method MarkRedeemed(jti: string, exp: int, now: int) returns (reused: bool)
      modifies this
      ensures reused == Reused(old(Value()), jti, exp, now)
      ensures Value() == Mark(old(Value()), jti, exp, now)
    {
      if exp <= now { return false; }
      PruneLocked(now);
      if jti in redeemed && redeemed[jti] > now { return true; }
      redeemed := redeemed[jti := exp];
      return false;
    }

    method RevokeFamily(fid: string, exp: int, now: int)
      modifies this
      ensures Value() == Revoke(old(Value()), fid, exp, now)
    {
      if exp <= now { return; }
      PruneLocked(now);
      if fid !in revoked || exp > revoked[fid] {
        revoked := revoked[fid := exp];
      }
    }

    method IsFamilyRevoked(fid: string, now: int) returns (r: bool)
      modifies this
      ensures r == Revoked(old(Value()), fid, now)
      ensures Value() == Prune(old(Value()), now)
    {
      PruneLocked(now);
      if fid !in revoked { return false; }
      return revoked[fid] > now;
    }
  }
}

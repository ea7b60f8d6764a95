/** One `RefreshAccessCtx` call from start to end over the in-memory store. */
module RefreshAccess {
  import opened Text
  import opened Times
  import opened Issuing
  import opened RefreshStores

  datatype Outcome =
    | ChannelNotOpen
    | LegacyAccess(access: Claims)
    | FamilyRevoked
    | ReuseDetected
    | Exchanged(pair: Pair)
    | CannotIssue

  /** The clock as the call reads it: at the family check, the redemption, the
      revocation and the issuance. */
  datatype Clock = Clock(check: int, mark: int, revoke: int, issue: int)

  predicate Forward(c: Clock) {
    c.check <= c.mark <= c.revoke && c.mark <= c.issue
  }

  /** When a token's expiry instant is, as the store sees it. */
  function ExpiresAt(c: Claims): int { c.exp * SECOND }

  /** A verified refresh token is exchanged, refused, or unmasked as a replay. */
  method Refresh(store: MemoryRefreshStore, issuer: Issuer, claims: Claims, channelOpen: bool, channelTTL: int,
                 clock: Clock, ids: Ids)
    returns (r: Outcome)
    requires Forward(clock)
    modifies store
    // nothing touches the store before the rotation path
    ensures !channelOpen ==> r == ChannelNotOpen
    ensures !channelOpen || claims.jti == "" ==> store.Value() == old(store.Value())
    ensures channelOpen && claims.jti == "" ==>
              var access := IssueAccess(issuer, claims.sub, claims.channel, ExpiresAt(claims), claims.scopes,
                                        clock.issue, ids.access);
              r == if access.Some? then LegacyAccess(access.value) else CannotIssue
    ensures r.LegacyAccess? ==> ExpiresAt(r.access) <= ExpiresAt(claims) && r.access.typ == Access
    // the family gate comes first
    ensures channelOpen && claims.jti != "" ==>
              (r == FamilyRevoked <==> Revoked(old(store.Value()), claims.fid, clock.check))
    // then the redemption decides
    ensures channelOpen && claims.jti != "" && r != FamilyRevoked ==>
              (r == ReuseDetected <==> Reused(old(store.Value()), claims.jti, ExpiresAt(claims), clock.mark))
    ensures r == ReuseDetected ==> forall t :: clock.revoke <= t < ExpiresAt(claims) ==> Revoked(store.Value(), claims.fid, t)
    // and then whether a pair can be issued
    ensures channelOpen && claims.jti != "" && r != FamilyRevoked && r != ReuseDetected ==>
              (r.Exchanged? <==> IssueRotatedPair(issuer, claims.sub, claims.channel, claims.fid, channelTTL, claims.scopes,
                                                  clock.issue, ids).Some?)
              && (r.Exchanged? || r == CannotIssue)
    ensures r.Exchanged? ==>
              && !Revoked(old(store.Value()), claims.fid, clock.check)
              && !Reused(old(store.Value()), claims.jti, ExpiresAt(claims), clock.mark)
              && r.pair.refresh.fid == claims.fid && r.pair.refresh.jti == ids.refresh
              && PairSays(r.pair, issuer, claims.sub, claims.channel, channelTTL, claims.scopes, clock.issue)
    // a timely redemption makes the presented token a replay from then on, even if issuing failed
    ensures (r.Exchanged? || (r == CannotIssue && claims.jti != "")) && clock.mark < ExpiresAt(claims) ==>
              forall t :: clock.mark <= t < ExpiresAt(claims) ==> Reused(store.Value(), claims.jti, ExpiresAt(claims), t)
  {
    if !channelOpen { return ChannelNotOpen; }
    if claims.jti == "" {
      var access := IssueAccess(issuer, claims.sub, claims.channel, ExpiresAt(claims), claims.scopes, clock.issue,
                                ids.access);
      if access.None? { return CannotIssue; }
      return LegacyAccess(access.value);
    }
    var revoked := store.IsFamilyRevoked(claims.fid, clock.check);
    if revoked { return FamilyRevoked; }
    PruneVisible(old(store.Value()), claims.jti, ExpiresAt(claims), clock.check, clock.mark);
    var reused := store.MarkRedeemed(claims.jti, ExpiresAt(claims), clock.mark);
    if reused {
      store.RevokeFamily(claims.fid, ExpiresAt(claims), clock.revoke);
      return ReuseDetected;
    }
    var pair := IssueRotatedPair(issuer, claims.sub, claims.channel, claims.fid, channelTTL, claims.scopes, clock.issue,
                                 ids);
    if pair.None? { return CannotIssue; }
    RotationKeepsFamily(issuer, claims.sub, claims.channel, claims.fid, channelTTL, claims.scopes, clock.issue, ids);
    return Exchanged(pair.value);
  }

  /** Pruning no later than the redemption never changes its answer. */
  lemma PruneVisible(s: Store, jti: string, exp: int, earlier: int, now: int)
    requires earlier <= now
    ensures Reused(Prune(s, earlier), jti, exp, now) == Reused(s, jti, exp, now)
  {
    if jti in s.redeemed {
      PruneVisibleExactlyWhen(s, jti, exp, earlier, now);
    }
  }
}

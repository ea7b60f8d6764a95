/** Token issuance: which identifiers and expiries go into an access/refresh pair. */
module Issuing {
  import opened Arithmetic
  import opened Text
  import opened Times
  import opened Patterns
  import opened Authorization

  datatype TokenType = Access | Refresh

  /** The claims that matter for rotation; `iat` and `exp` are Unix seconds. */
  datatype Claims = Claims(sub: string, typ: TokenType, channel: string, iat: int, exp: int, scopes: seq<Grant>,
                           jti: string, fid: string)

  /** `active` is the signing ring's active key id, empty when it has none. */
  datatype Issuer = Issuer(accessTTL: int, maxRefreshTTL: int, active: string)

  datatype Pair = Pair(access: Claims, refresh: Claims, accessExpires: int, refreshExpires: int)

  /** Randomness: the ids one issuance draws. */
  datatype Ids = Ids(refresh: string, family: string, access: string)

  /** `time.Time.Unix`: whole seconds, rounded down. */
  function Unix(t: int): int { t / SECOND }

  function RefreshTTL(i: Issuer, channelTTL: int): int {
    if i.maxRefreshTTL > 0 && channelTTL > i.maxRefreshTTL then i.maxRefreshTTL else channelTTL
  }

  function AccessTTL(i: Issuer, channelTTL: int): int {
    var refresh := RefreshTTL(i, channelTTL);
    var access := if i.accessTTL > refresh then refresh else i.accessTTL;
    if access < MINUTE then MINUTE else access
  }

  /** A grant whose pattern parses and whose verbs are all known, with at least one. */
  predicate ValidScope(g: Grant) {
    g.pattern != "" && ParsePattern(g.pattern).Ok? && g.verbs != [] && KnownVerbs(g.verbs, |g.verbs|)
  }

  predicate KnownVerbs(verbs: seq<Verb>, upTo: nat)
    requires upTo <= |verbs|
  {
    forall k :: 0 <= k < upTo ==> KnownVerb(verbs[k])
  }

  predicate KnownVerb(v: Verb) {
    v == "subscribe" || v == "publish" || v == "manage"
  }

  /** What a valid grant is, verb by verb. */
  lemma ValidScopeMeans(g: Grant)
    ensures ValidScope(g) <==>
            && g.pattern != "" && ParsePattern(g.pattern).Ok? && g.verbs != []
            && forall v :: v in g.verbs ==> v == "subscribe" || v == "publish" || v == "manage"
  {
    if KnownVerbs(g.verbs, |g.verbs|) {
      forall v | v in g.verbs ensures KnownVerb(v) {
        var k :| 0 <= k < |g.verbs| && g.verbs[k] == v;
      }
    } else {
      var k :| 0 <= k < |g.verbs| && !KnownVerb(g.verbs[k]);
      assert g.verbs[k] in g.verbs;
    }
  }

  predicate ValidScopes(scopes: seq<Grant>) {
    forall g :: g in scopes ==> ValidScope(g)
  }

  /** `validateScopes`. */
  method ValidateScopes(scopes: seq<Grant>) returns (ok: bool)
    ensures ok <==> ValidScopes(scopes)
  {
    for i := 0 to |scopes|
      invariant forall k :: 0 <= k < i ==> ValidScope(scopes[k])
    {
      var g := scopes[i];
      if g.pattern == "" || ParsePattern(g.pattern).Err? || |g.verbs| == 0 {
        return false;
      }
      for j := 0 to |g.verbs|
        invariant KnownVerbs(g.verbs, j)
      {
        if !KnownVerb(g.verbs[j]) {
          assert !ValidScope(scopes[i]);
          return false;
        }
      }
    }
    return true;
  }

  /** What the signer accepts, given an active key. */
  predicate Signable(c: Claims) {
    c.iat != 0 && c.exp != 0 && c.exp > c.iat
  }

  function MakePair(i: Issuer, sub: string, channel: string, fid: string, channelTTL: int, scopes: seq<Grant>, now: int,
                    ids: Ids): Option<Pair> {
    var accessExp := now + AccessTTL(i, channelTTL);
    var refreshExp := now + RefreshTTL(i, channelTTL);
    var access := Claims(sub, Access, channel, Unix(now), Unix(accessExp), scopes, ids.access, "");
    var refresh := Claims(sub, Refresh, channel, Unix(now), Unix(refreshExp), scopes, ids.refresh, fid);
    if !ValidScopes(scopes) || !Signable(access) || !Signable(refresh) || i.active == "" then None
    else Some(Pair(access, refresh, accessExp, refreshExp))
  }

  /** `IssuePair`: a new family. */
  function IssuePair(i: Issuer, sub: string, channel: string, channelTTL: int, scopes: seq<Grant>, now: int,
                     ids: Ids): Option<Pair> {
    if channel == "" || channelTTL <= 0 then None
    else MakePair(i, sub, channel, ids.family, channelTTL, scopes, now, ids)
  }

  /** `IssueRotatedPair`: the same family, a fresh refresh id. */
  function IssueRotatedPair(i: Issuer, sub: string, channel: string, oldFID: string, channelTTL: int, scopes: seq<Grant>,
                            now: int, ids: Ids): Option<Pair> {
    if channel == "" || oldFID == "" || channelTTL <= 0 then None
    else MakePair(i, sub, channel, oldFID, channelTTL, scopes, now, ids)
  }

  /** `IssueAccess`: an access token from a legacy refresh, never past its expiry. */
  function IssueAccess(i: Issuer, sub: string, channel: string, refreshExp: int, scopes: seq<Grant>, now: int,
                       jti: string): Option<Claims> {
    var exp := if now + i.accessTTL > refreshExp then refreshExp else now + i.accessTTL;
    if !ValidScopes(scopes) || exp <= now then None
    else
      var c := Claims(sub, Access, channel, Unix(now), Unix(exp), scopes, jti, "");
      if Signable(c) && i.active != "" then Some(c) else None
  }

  function Min(a: int, b: int): int { if a < b then a else b }

  /** `exp` is the second the instant `t` falls into. */
  predicate SecondOf(exp: int, t: int) {
    exp * SECOND <= t < (exp + 1) * SECOND
  }

  /** What every pair says: whose it is, when it was issued, and that each token's expiry
      claim is the second of the expiry reported for it. The refresh token lives as long
      as the channel and the policy cap allow, if there is a cap; the access token as
      long as the access policy and the refresh token allow, but at least a minute. */
  predicate PairSays(p: Pair, i: Issuer, sub: string, channel: string, channelTTL: int, scopes: seq<Grant>, now: int) {
    var refreshTTL, accessTTL := p.refreshExpires - now, p.accessExpires - now;
    && refreshTTL == (if i.maxRefreshTTL > 0 then Min(channelTTL, i.maxRefreshTTL) else channelTTL)
    && accessTTL == (if Min(i.accessTTL, refreshTTL) > MINUTE then Min(i.accessTTL, refreshTTL) else MINUTE)
    && SecondOf(p.access.exp, p.accessExpires) && SecondOf(p.refresh.exp, p.refreshExpires)
    && SecondOf(p.access.iat, now) && SecondOf(p.refresh.iat, now)
    && p.access.sub == p.refresh.sub == sub && p.access.channel == p.refresh.channel == channel
    && p.access.scopes == p.refresh.scopes == scopes
    && p.access.typ == Access && p.refresh.typ == Refresh && p.access.fid == ""
  }

  lemma SecondOfUnix(t: int)
    ensures SecondOf(Unix(t), t)
  {
  }

  lemma MadePairSays(i: Issuer, sub: string, channel: string, fid: string, channelTTL: int, scopes: seq<Grant>, now: int,
                     ids: Ids)
    requires MakePair(i, sub, channel, fid, channelTTL, scopes, now, ids).Some?
    ensures PairSays(MakePair(i, sub, channel, fid, channelTTL, scopes, now, ids).value, i, sub, channel, channelTTL, scopes, now)
  {
    var p := MakePair(i, sub, channel, fid, channelTTL, scopes, now, ids).value;
    SecondOfUnix(now);
    SecondOfUnix(p.accessExpires);
    SecondOfUnix(p.refreshExpires);
  }

  /** A new pair starts a family of its own under the drawn ids. */
  lemma NewPairSays(i: Issuer, sub: string, channel: string, channelTTL: int, scopes: seq<Grant>, now: int, ids: Ids)
    requires IssuePair(i, sub, channel, channelTTL, scopes, now, ids).Some?
    ensures var p := IssuePair(i, sub, channel, channelTTL, scopes, now, ids).value;
            && PairSays(p, i, sub, channel, channelTTL, scopes, now)
            && p.refresh.fid == ids.family && p.refresh.jti == ids.refresh && p.access.jti == ids.access
  {
    MadePairSays(i, sub, channel, ids.family, channelTTL, scopes, now, ids);
  }

  /** When a new pair is issued at all; it needs no family to continue. */
  lemma PairIssuedExactlyWhen(i: Issuer, sub: string, channel: string, channelTTL: int, scopes: seq<Grant>, now: int,
                              ids: Ids)
    requires now >= 0
    ensures IssuePair(i, sub, channel, channelTTL, scopes, now, ids).Some? <==>
            && now >= SECOND && channel != "" && channelTTL > 0 && ValidScopes(scopes) && i.active != ""
            && now % SECOND + (if i.maxRefreshTTL > 0 then Min(channelTTL, i.maxRefreshTTL) else channelTTL) >= SECOND
  {
    if channelTTL > 0 && now >= SECOND {
      NextSecond(now, RefreshTTL(i, channelTTL));
      NextSecond(now, AccessTTL(i, channelTTL));
    }
  }

  /** An access token minted for a legacy refresh token: issued exactly while that token
      and the access policy leave it a whole second to live, expiring in the second of
      whichever ends first. */
  lemma LegacyAccessExactly(i: Issuer, sub: string, channel: string, refreshExp: int, scopes: seq<Grant>, now: int, jti: string)
    requires now >= 0
    ensures var r := IssueAccess(i, sub, channel, refreshExp, scopes, now, jti);
            var end := Min(now + i.accessTTL, refreshExp);
            && (r.Some? <==> now >= SECOND && ValidScopes(scopes) && i.active != "" && now < end
                             && now % SECOND + (end - now) >= SECOND)
            && (r.Some? ==>
                  && SecondOf(r.value.exp, end) && SecondOf(r.value.iat, now)
                  && r.value == Claims(sub, Access, channel, r.value.iat, r.value.exp, scopes, jti, ""))
  {
    var end := Min(now + i.accessTTL, refreshExp);
    SecondOfUnix(now);
    SecondOfUnix(end);
    if now < end && now >= SECOND { NextSecond(now, end - now); }
  }

  /** A rotation continues the family under a new id and with the same grants; only
      refresh tokens carry a family, and no refresh token outlives its channel or the
      policy cap. */
  lemma RotationKeepsFamily(i: Issuer, sub: string, channel: string, fid: string, channelTTL: int, scopes: seq<Grant>,
                            now: int, ids: Ids)
    requires IssueRotatedPair(i, sub, channel, fid, channelTTL, scopes, now, ids).Some?
    ensures var p := IssueRotatedPair(i, sub, channel, fid, channelTTL, scopes, now, ids).value;
            && PairSays(p, i, sub, channel, channelTTL, scopes, now)
            && p.refresh.fid == fid && p.refresh.jti == ids.refresh && p.access.jti == ids.access
            && now < p.refreshExpires <= now + channelTTL
            && (i.maxRefreshTTL > 0 ==> p.refreshExpires <= now + i.maxRefreshTTL)
  {
    MadePairSays(i, sub, channel, fid, channelTTL, scopes, now, ids);
  }

  /** When a rotation is issued at all. Besides valid grants and an active key: the
      signer refuses a token whose expiry falls into the second it is issued in, so a
      refresh lifetime that does not reach the next second fails although it is
      positive. */
  lemma RotationIssuedExactlyWhen(i: Issuer, sub: string, channel: string, fid: string, channelTTL: int,
                                  scopes: seq<Grant>, now: int, ids: Ids)
    requires now >= 0
    ensures IssueRotatedPair(i, sub, channel, fid, channelTTL, scopes, now, ids).Some? <==>
            && now >= SECOND && channel != "" && fid != "" && channelTTL > 0 && ValidScopes(scopes) && i.active != ""
            && now % SECOND + (if i.maxRefreshTTL > 0 then Min(channelTTL, i.maxRefreshTTL) else channelTTL) >= SECOND
  {
    if channelTTL > 0 && now >= SECOND {
      NextSecond(now, RefreshTTL(i, channelTTL));
      NextSecond(now, AccessTTL(i, channelTTL));
    }
  }

  lemma NextSecond(now: int, ttl: int)
    requires now >= SECOND && ttl >= 0
    ensures Unix(now) >= 1 && (Unix(now + ttl) > Unix(now) <==> now % SECOND + ttl >= SECOND)
  {
    var q, r := now / SECOND, now % SECOND;
    assert now + ttl == q * SECOND + (r + ttl);
    if r + ttl < SECOND {
      DivModUnique(now + ttl, SECOND, q, r + ttl);
    } else {
      MultipleAtLeast(SECOND, q);
    }
  }

  /** A channel lifetime of half a minute: the access token outlives the refresh token
      by the other half. */
  lemma HalfMinuteChannelIsOutlived(sub: string, channel: string, active: string, ids: Ids)
    requires channel != "" && active != ""
    ensures var r := IssuePair(Issuer(15 * MINUTE, 0, active), sub, channel, 30 * SECOND, [], 100 * SECOND, ids);
            r.Some? && r.value.accessExpires == r.value.refreshExpires + 30 * SECOND
  {
  }

  /** "Access tokens cannot outlive their refresh token" holds exactly when the
      refresh lifetime is at least the one-minute floor on access lifetimes. */
  lemma AccessOutlivesRefreshExactlyWhen(i: Issuer, sub: string, channel: string, channelTTL: int, scopes: seq<Grant>,
                                         now: int, ids: Ids)
    requires IssuePair(i, sub, channel, channelTTL, scopes, now, ids).Some?
    ensures var p := IssuePair(i, sub, channel, channelTTL, scopes, now, ids).value;
            p.accessExpires <= p.refreshExpires <==>
            channelTTL >= MINUTE && (i.maxRefreshTTL <= 0 || i.maxRefreshTTL >= MINUTE)
  {
  }
}

/** Where linear families and the kill-switch end: runs at and after an expiry, and
    runs in which a store call acts on a reading from before it had the lock. */
module RefreshRaces {
  import opened RefreshStores
  import opened RefreshProtocol

  lemma {:induction false} RunConcat(s: State, a: seq<Move>, b: seq<Move>)
    ensures Run(s, a + b) == Run(Run(s, a), b)
  {
    if b == [] {
      assert a + b == a;
    } else {
      var k := |b| - 1;
      RunConcat(s, a, b[..k]);
      assert (a + b)[..|a + b| - 1] == a + b[..k];
    }
  }

  lemma RunTwo(s: State, a: Move, b: Move)
    ensures Run(s, [a, b]) == Next(Next(s, a), b)
  {
    assert [a, b][..1] == [a] && [a][..0] == [];
    assert Run(s, [a]) == Next(s, a);
  }

  // ---------- single steps ----------

  lemma Presents(s: State, t: Token)
    requires t in s.tokens && s.now - t.exp <= s.leeway
    ensures Next(s, Present(t)) == s.(requests := s.requests + [Request(t, Checking, s.now)])
  {
  }

  lemma Passes(s: State, q: nat, at: int)
    requires Enabled(s, Check(q, at)) && !Revoked(s.store, s.requests[q].token.fid, at)
    ensures Next(s, Check(q, at)) == At(s, q, Marking).(store := Prune(s.store, at), latest := Max(s.latest, at))
  {
  }

  /** At or after its expiry a token is redeemed without a record. */
  lemma RedeemsUnrecorded(s: State, q: nat, at: int)
    requires Enabled(s, MarkRedeemed(q, at)) && s.requests[q].token.exp <= at
    ensures Next(s, MarkRedeemed(q, at)) == At(s, q, ToIssue).(used := s.used + {s.requests[q].token.jti})
  {
  }

  /** Before its expiry a token that is not on record is redeemed. */
  lemma Redeems(s: State, q: nat, at: int)
    requires Enabled(s, MarkRedeemed(q, at)) && s.requests[q].token.jti !in s.store.redeemed
    requires at < s.requests[q].token.exp
    ensures var t := s.requests[q].token;
            Next(s, MarkRedeemed(q, at))
            == At(s, q, ToIssue).(store := Mark(s.store, t.jti, t.exp, at), latest := Max(s.latest, at),
                                  used := s.used + {t.jti})
  {
  }

  lemma Issues(s: State, q: nat, jti: string, exp: int)
    requires Standing(s, q, ToIssue) && FreshJti(s, jti)
    ensures var t := s.requests[q].token;
            Next(s, Issue(q, jti, exp))
            == At(s, q, Rotated).(tokens := s.tokens + {Token(jti, t.fid, exp)},
                                  exchanges := s.exchanges + [Exchange(t.fid, t.jti, jti)])
  {
  }

  // ---------- what happens at the expiry instant ----------

  /** Two requests for one token: presented, checked, redeemed, issued for. */
  function BothPresent(t: Token): seq<Move> { [Present(t), Present(t)] }

  function BothCheck(r: nat, at: int): seq<Move> { [Check(r, at), Check(r + 1, at)] }

  function BothRedeem(r: nat, at: int): seq<Move> { [MarkRedeemed(r, at), MarkRedeemed(r + 1, at)] }

  function BothIssue(r: nat, a: string, b: string, exp: int): seq<Move> { [Issue(r, a, exp), Issue(r + 1, b, exp)] }

  function BothRefresh(t: Token, r: nat, at: int, a: string, b: string, exp: int): seq<Move> {
    BothPresent(t) + BothCheck(r, at) + BothRedeem(r, at) + BothIssue(r, a, b, exp)
  }

  /** The last two requests are both for `t` and stand at `pc`, since just now. */
  predicate BothAt(s: State, r: nat, t: Token, pc: PC) {
    |s.requests| == r + 2 && s.requests[r] == Request(t, pc, s.now) && s.requests[r + 1] == Request(t, pc, s.now)
  }

  lemma PresentBoth(s: State, t: Token)
    requires t in s.tokens && s.now - t.exp <= s.leeway
    ensures Run(s, BothPresent(t))
         == s.(requests := s.requests + [Request(t, Checking, s.now)] + [Request(t, Checking, s.now)])
  {
    RunTwo(s, Present(t), Present(t));
    Presents(s, t);
    Presents(s.(requests := s.requests + [Request(t, Checking, s.now)]), t);
  }

  lemma CheckBoth(s: State, r: nat, t: Token)
    requires BothAt(s, r, t, Checking) && !Revoked(s.store, t.fid, s.now)
    ensures var s' := Run(s, BothCheck(r, s.now));
            BothAt(s', r, t, Marking) && s'.tokens == s.tokens && s'.exchanges == s.exchanges && s'.now == s.now
  {
    RunTwo(s, Check(r, s.now), Check(r + 1, s.now));
    Passes(s, r, s.now);
    Passes(Next(s, Check(r, s.now)), r + 1, s.now);
  }

  lemma RedeemBoth(s: State, r: nat, t: Token)
    requires BothAt(s, r, t, Marking) && t.exp <= s.now
    ensures var s' := Run(s, BothRedeem(r, s.now));
            BothAt(s', r, t, ToIssue) && s'.tokens == s.tokens && s'.exchanges == s.exchanges && s'.now == s.now
  {
    RunTwo(s, MarkRedeemed(r, s.now), MarkRedeemed(r + 1, s.now));
    RedeemsUnrecorded(s, r, s.now);
    RedeemsUnrecorded(Next(s, MarkRedeemed(r, s.now)), r + 1, s.now);
  }

  lemma IssueBoth(s: State, r: nat, t: Token, a: string, b: string, exp: int)
    requires BothAt(s, r, t, ToIssue) && FreshJti(s, a) && FreshJti(s, b) && a != b
    ensures Run(s, BothIssue(r, a, b, exp)).exchanges
         == s.exchanges + [Exchange(t.fid, t.jti, a)] + [Exchange(t.fid, t.jti, b)]
  {
    RunTwo(s, Issue(r, a, exp), Issue(r + 1, b, exp));
    Issues(s, r, a, exp);
    Issues(Next(s, Issue(r, a, exp)), r + 1, b, exp);
  }

  /** Linearity needs timeliness: from any state, a token at its expiry instant (or
      within the verifier's leeway after it) in an unrevoked family can be
      exchanged twice, because the store then records nothing. */
  lemma ExpiryInstantForksFamily(s: State, t: Token, a: string, b: string, exp: int)
    requires t in s.tokens && t.exp <= s.now && s.now - t.exp <= s.leeway && !Revoked(s.store, t.fid, s.now)
    requires FreshJti(s, a) && FreshJti(s, b) && a != b
    ensures Run(s, BothRefresh(t, |s.requests|, s.now, a, b, exp)).exchanges
         == s.exchanges + [Exchange(t.fid, t.jti, a)] + [Exchange(t.fid, t.jti, b)]
  {
    var r, at := |s.requests|, s.now;
    RunConcat(s, BothPresent(t) + BothCheck(r, at) + BothRedeem(r, at), BothIssue(r, a, b, exp));
    RunConcat(s, BothPresent(t) + BothCheck(r, at), BothRedeem(r, at));
    RunConcat(s, BothPresent(t), BothCheck(r, at));
    PresentBoth(s, t);
    var s1 := Run(s, BothPresent(t));
    CheckBoth(s1, r, t);
    var s2 := Run(s1, BothCheck(r, at));
    RedeemBoth(s2, r, t);
    IssueBoth(Run(s2, BothRedeem(r, at)), r, t, a, b, exp);
  }

  // ---------- where the kill-switch ends ----------

  function WaitAndPresent(dt: nat, u: Token): seq<Move> { [Tick(dt), Present(u)] }

  /** One request from presentation to its new pair. */
  function WaitAndRefresh(dt: nat, u: Token, q: nat, at: int, jti: string, exp: int): seq<Move> {
    WaitAndPresent(dt, u) + [Check(q, at), MarkRedeemed(q, at)] + [Issue(q, jti, exp)]
  }

  /** An unexpired, unredeemed token in a family that is no longer revoked. */
  predicate Exchangeable(s: State, q: nat, u: Token) {
    && |s.requests| == q + 1 && s.requests[q] == Request(u, Checking, s.now) && s.now < u.exp
    && !Revoked(s.store, u.fid, s.now) && u.jti !in s.store.redeemed
  }

  lemma ExchangesOne(s: State, q: nat, u: Token, jti: string, exp: int)
    requires Exchangeable(s, q, u) && FreshJti(s, jti)
    ensures Run(Run(s, [Check(q, s.now), MarkRedeemed(q, s.now)]), [Issue(q, jti, exp)]).exchanges
         == s.exchanges + [Exchange(u.fid, u.jti, jti)]
  {
    RunTwo(s, Check(q, s.now), MarkRedeemed(q, s.now));
    Passes(s, q, s.now);
    Redeems(Next(s, Check(q, s.now)), q, s.now);
    var t := Next(Next(s, Check(q, s.now)), MarkRedeemed(q, s.now));
    assert Run(t, [Issue(q, jti, exp)]) == Next(t, Issue(q, jti, exp)) by { assert [Issue(q, jti, exp)][..0] == []; }
    Issues(t, q, jti, exp);
  }

  lemma WaitsAndPresents(s: State, dt: nat, u: Token)
    requires u in s.tokens && s.now + dt - u.exp <= s.leeway
    ensures Run(s, WaitAndPresent(dt, u))
         == s.(now := s.now + dt, requests := s.requests + [Request(u, Checking, s.now + dt)])
  {
    RunTwo(s, Tick(dt), Present(u));
    Presents(s.(now := s.now + dt), u);
  }

  lemma RevokeLasts(s: Store, fid: string, exp: int, at: int, later: int)
    requires at <= later && exp <= later && (fid in s.revoked ==> s.revoked[fid] <= exp)
    ensures !Revoked(Revoke(s, fid, exp, at), fid, later)
    ensures Revoke(s, fid, exp, at).redeemed.Keys <= s.redeemed.Keys
  {
  }

  lemma Revokes(s: State, r: nat, at: int)
    requires Enabled(s, RevokeFamily(r, at))
    ensures var t, k := s.requests[r].token, Next(s, RevokeFamily(r, at));
            && k.store == Revoke(s.store, t.fid, t.exp, at) && |k.requests| == |s.requests| && k.now == s.now
            && k.tokens == s.tokens && k.exchanges == s.exchanges && k.leeway == s.leeway
  {
  }

  /** A replay is answered, but only until the replayed expiry: once that has passed,
      any other token of the family that is unexpired and unredeemed is exchanged. */
  lemma KillSwitchEndsAtReplayedExpiry(s: State, r: nat, at: int, u: Token, dt: nat, jti: string, exp: int)
    requires Enabled(s, RevokeFamily(r, at)) && u in s.tokens && u.fid == s.requests[r].token.fid
    requires u.fid in s.store.revoked ==> s.store.revoked[u.fid] <= s.requests[r].token.exp
    requires s.requests[r].token.exp <= s.now + dt < u.exp && u.jti !in s.store.redeemed && FreshJti(s, jti)
    ensures Run(Next(s, RevokeFamily(r, at)), WaitAndRefresh(dt, u, |s.requests|, s.now + dt, jti, exp)).exchanges
         == s.exchanges + [Exchange(u.fid, u.jti, jti)]
  {
    var q, later := |s.requests|, s.now + dt;
    var k := Next(s, RevokeFamily(r, at));
    Revokes(s, r, at);
    RevokeLasts(s.store, u.fid, s.requests[r].token.exp, at, later);
    WaitThenExchange(k, dt, u, jti, exp);
  }

  lemma WaitThenExchange(s: State, dt: nat, u: Token, jti: string, exp: int)
    requires u in s.tokens && s.now + dt < u.exp && FreshJti(s, jti)
    requires !Revoked(s.store, u.fid, s.now + dt) && u.jti !in s.store.redeemed
    ensures Run(s, WaitAndRefresh(dt, u, |s.requests|, s.now + dt, jti, exp)).exchanges
         == s.exchanges + [Exchange(u.fid, u.jti, jti)]
  {
    var q, later := |s.requests|, s.now + dt;
    RunConcat(s, WaitAndPresent(dt, u) + [Check(q, later), MarkRedeemed(q, later)], [Issue(q, jti, exp)]);
    RunConcat(s, WaitAndPresent(dt, u), [Check(q, later), MarkRedeemed(q, later)]);
    WaitsAndPresents(s, dt, u);
    ExchangesOne(Run(s, WaitAndPresent(dt, u)), q, u, jti, exp);
  }

  // ---------- readings from before the lock ----------

  /** The family's own redemptions read the clock before the token's expiry. */
  predicate ReadsBefore(s: State, mv: Move, f: string) {
    mv.MarkRedeemed? && Standing(s, mv.r, Marking) && s.requests[mv.r].token.fid == f ==>
      mv.at < s.requests[mv.r].token.exp
  }

  predicate AllReadBefore(s: State, moves: seq<Move>, f: string) {
    moves == []
    || (AllReadBefore(s, moves[..|moves| - 1], f) && ReadsBefore(Run(s, moves[..|moves| - 1]), moves[|moves| - 1], f))
  }

  lemma {:induction false} ReadBeforeConcat(s: State, a: seq<Move>, b: seq<Move>, f: string)
    ensures AllReadBefore(s, a + b, f) <==> AllReadBefore(s, a, f) && AllReadBefore(Run(s, a), b, f)
  {
    if b == [] {
      assert a + b == a;
    } else {
      var k := |b| - 1;
      ReadBeforeConcat(s, a, b[..k], f);
      RunConcat(s, a, b[..k]);
      assert (a + b)[..|a + b| - 1] == a + b[..k];
    }
  }

  /** Two parts of a run, put together. */
  lemma TwoParts(s: State, t: State, p: seq<Move>, q: seq<Move>, f: string)
    requires Run(s, p) == t && AllReadBefore(s, p, f) && AllReadBefore(t, q, f)
    ensures Run(s, p + q) == Run(t, q) && AllReadBefore(s, p + q, f)
  {
    RunConcat(s, p, q);
    ReadBeforeConcat(s, p, q, f);
  }

  lemma ReadBeforeTwo(s: State, a: Move, b: Move, f: string)
    ensures AllReadBefore(s, [a, b], f) <==> ReadsBefore(s, a, f) && ReadsBefore(Next(s, a), b, f)
  {
    assert [a, b][..1] == [a] && [a][..0] == [];
    assert AllReadBefore(s, [], f) && Run(s, [a]) == Next(s, a);
  }

  /** One token, redeemed once; a second request for it has passed the check. */
  function FirstHalf(t: Token, u: Token, now: int, a: string, exp: int): seq<Move> {
    [Login(t), Login(u)] + [Present(t), Check(0, now)] + [MarkRedeemed(0, now), Issue(0, a, exp)]
    + [Present(t), Check(1, now)]
  }

  /** The clock reaches the token's expiry, a request of another family prunes, and the
      second request goes on with the reading it took before. */
  function SecondHalf(t: Token, u: Token, now: int, b: string, exp: int): seq<Move>
    requires now <= t.exp
  {
    WaitAndPresent(t.exp - now, u) + CrossExpiry(t, now, b, exp)
  }

  function CrossExpiry(t: Token, now: int, b: string, exp: int): seq<Move> {
    [Check(2, t.exp), MarkRedeemed(1, now)] + [Issue(1, b, exp)]
  }

  /** The state after each part. */
  function LoggedIn(t: Token, u: Token, now: int, leeway: nat): State {
    Initial(now, leeway).(tokens := {t, u})
  }

  function Checked(t: Token, u: Token, now: int, leeway: nat): State {
    LoggedIn(t, u, now, leeway).(requests := [Request(t, Marking, now)])
  }

  function RedeemedOnce(t: Token, u: Token, now: int, leeway: nat, a: string, exp: int): State {
    LoggedIn(t, u, now, leeway).(
      requests := [Request(t, Rotated, now)], store := Store(map[t.jti := t.exp], map[]), used := {t.jti},
      tokens := {t, u, Token(a, t.fid, exp)}, exchanges := [Exchange(t.fid, t.jti, a)])
  }

  function Halfway(t: Token, u: Token, now: int, leeway: nat, a: string, exp: int): State {
    RedeemedOnce(t, u, now, leeway, a, exp).(requests := [Request(t, Rotated, now), Request(t, Marking, now)])
  }

  /** Two live tokens of different families, and two fresh ids. */
  predicate Setup(t: Token, u: Token, now: int, a: string, b: string) {
    && t.jti != u.jti && t.fid != u.fid && now < t.exp <= u.exp
    && a != b && a != t.jti && a != u.jti && b != t.jti && b != u.jti
  }

  lemma LogsIn(t: Token, u: Token, now: int, leeway: nat)
    requires t.jti != u.jti && t.fid != u.fid
    ensures Run(Initial(now, leeway), [Login(t), Login(u)]) == LoggedIn(t, u, now, leeway)
    ensures AllReadBefore(Initial(now, leeway), [Login(t), Login(u)], t.fid)
  {
    RunTwo(Initial(now, leeway), Login(t), Login(u));
    ReadBeforeTwo(Initial(now, leeway), Login(t), Login(u), t.fid);
  }

  lemma ChecksFirst(t: Token, u: Token, now: int, leeway: nat)
    requires now < t.exp
    ensures Run(LoggedIn(t, u, now, leeway), [Present(t), Check(0, now)]) == Checked(t, u, now, leeway)
    ensures AllReadBefore(LoggedIn(t, u, now, leeway), [Present(t), Check(0, now)], t.fid)
  {
    var s := LoggedIn(t, u, now, leeway);
    RunTwo(s, Present(t), Check(0, now));
    ReadBeforeTwo(s, Present(t), Check(0, now), t.fid);
    Presents(s, t);
    Passes(Next(s, Present(t)), 0, now);
  }

  lemma RedeemsFirst(t: Token, u: Token, now: int, leeway: nat, a: string, exp: int)
    requires now < t.exp && a != t.jti && a != u.jti
    ensures var moves := [MarkRedeemed(0, now), Issue(0, a, exp)];
            && Run(Checked(t, u, now, leeway), moves) == RedeemedOnce(t, u, now, leeway, a, exp)
            && AllReadBefore(Checked(t, u, now, leeway), moves, t.fid)
  {
    var s := Checked(t, u, now, leeway);
    RunTwo(s, MarkRedeemed(0, now), Issue(0, a, exp));
    ReadBeforeTwo(s, MarkRedeemed(0, now), Issue(0, a, exp), t.fid);
    Redeems(s, 0, now);
    Issues(Next(s, MarkRedeemed(0, now)), 0, a, exp);
    assert {t, u} + {Token(a, t.fid, exp)} == {t, u, Token(a, t.fid, exp)};
  }

  lemma ChecksSecond(t: Token, u: Token, now: int, leeway: nat, a: string, exp: int)
    requires now < t.exp
    ensures var s := RedeemedOnce(t, u, now, leeway, a, exp);
            && Run(s, [Present(t), Check(1, now)]) == Halfway(t, u, now, leeway, a, exp)
            && AllReadBefore(s, [Present(t), Check(1, now)], t.fid)
  {
    var s := RedeemedOnce(t, u, now, leeway, a, exp);
    RunTwo(s, Present(t), Check(1, now));
    ReadBeforeTwo(s, Present(t), Check(1, now), t.fid);
    Presents(s, t);
    Passes(Next(s, Present(t)), 1, now);
    assert Unexpired(map[t.jti := t.exp], now) == map[t.jti := t.exp];
  }

  lemma RunsFirstHalf(t: Token, u: Token, now: int, leeway: nat, a: string, exp: int)
    requires t.jti != u.jti && t.fid != u.fid && now < t.exp && a != t.jti && a != u.jti
    ensures Run(Initial(now, leeway), FirstHalf(t, u, now, a, exp)) == Halfway(t, u, now, leeway, a, exp)
    ensures AllReadBefore(Initial(now, leeway), FirstHalf(t, u, now, a, exp), t.fid)
  {
    var s := Initial(now, leeway);
    var p, q := [Login(t), Login(u)], [Present(t), Check(0, now)];
    var v, w := [MarkRedeemed(0, now), Issue(0, a, exp)], [Present(t), Check(1, now)];
    RunConcat(s, p + q + v, w);
    RunConcat(s, p + q, v);
    RunConcat(s, p, q);
    ReadBeforeConcat(s, p + q + v, w, t.fid);
    ReadBeforeConcat(s, p + q, v, t.fid);
    ReadBeforeConcat(s, p, q, t.fid);
    LogsIn(t, u, now, leeway);
    ChecksFirst(t, u, now, leeway);
    RedeemsFirst(t, u, now, leeway, a, exp);
    ChecksSecond(t, u, now, leeway, a, exp);
  }

  /** The state in which the second request gets the lock. */
  function AtExpiry(t: Token, u: Token, now: int, leeway: nat, a: string, exp: int): State {
    Halfway(t, u, now, leeway, a, exp).(
      now := t.exp, requests := [Request(t, Rotated, now), Request(t, Marking, now), Request(u, Checking, t.exp)])
  }

  lemma RunsSecondHalf(t: Token, u: Token, now: int, leeway: nat, a: string, b: string, exp: int)
    requires Setup(t, u, now, a, b)
    ensures var s := Halfway(t, u, now, leeway, a, exp);
            var s' := Run(s, SecondHalf(t, u, now, b, exp));
            && s'.exchanges == [Exchange(t.fid, t.jti, a)] + [Exchange(t.fid, t.jti, b)]
            && AllReadBefore(s, SecondHalf(t, u, now, b, exp), t.fid)
  {
    ReachesExpiry(t, u, now, leeway, a, exp);
    RedeemsAgain(t, u, now, leeway, a, b, exp);
    TwoParts(Halfway(t, u, now, leeway, a, exp), AtExpiry(t, u, now, leeway, a, exp),
             WaitAndPresent(t.exp - now, u), CrossExpiry(t, now, b, exp), t.fid);
  }

  lemma ReachesExpiry(t: Token, u: Token, now: int, leeway: nat, a: string, exp: int)
    requires now < t.exp <= u.exp
    ensures var s, p := Halfway(t, u, now, leeway, a, exp), WaitAndPresent(t.exp - now, u);
            Run(s, p) == AtExpiry(t, u, now, leeway, a, exp) && AllReadBefore(s, p, t.fid)
  {
    var s := Halfway(t, u, now, leeway, a, exp);
    WaitsAndPresents(s, t.exp - now, u);
    ReadBeforeTwo(s, Tick(t.exp - now), Present(u), t.fid);
  }

  lemma RedeemsAgain(t: Token, u: Token, now: int, leeway: nat, a: string, b: string, exp: int)
    requires Setup(t, u, now, a, b)
    ensures var s := AtExpiry(t, u, now, leeway, a, exp);
            && Run(s, CrossExpiry(t, now, b, exp)).exchanges == [Exchange(t.fid, t.jti, a)] + [Exchange(t.fid, t.jti, b)]
            && AllReadBefore(s, CrossExpiry(t, now, b, exp), t.fid)
  {
    var s := AtExpiry(t, u, now, leeway, a, exp);
    var q, w := [Check(2, t.exp), MarkRedeemed(1, now)], [Issue(1, b, exp)];
    RunTwo(s, q[0], q[1]);
    ReadBeforeTwo(s, q[0], q[1], t.fid);
    Passes(s, 2, t.exp);
    var s1 := Next(s, q[0]);
    assert s1.store == Store(map[], map[]);
    Redeems(s1, 1, now);
    var s2 := Next(s1, q[1]);
    assert w[..0] == [] && AllReadBefore(s2, [], t.fid);
    assert Run(s2, w) == Next(s2, w[0]);
    assert FreshJti(s2, b);
    Issues(s2, 1, b, exp);
    TwoParts(s, s2, q, w, t.fid);
  }

  /** A whole run from an empty store: every redemption of the family reads the clock
      strictly before the token's expiry, and yet the token is exchanged twice. The
      second request waits for the lock while a call of another family, on a reading
      at the expiry, prunes the record of the first. */
  lemma StaleReadingForksFamily(t: Token, u: Token, now: int, leeway: nat, a: string, b: string, exp: int)
    requires Setup(t, u, now, a, b)
    ensures var moves := FirstHalf(t, u, now, a, exp) + SecondHalf(t, u, now, b, exp);
            var s := Run(Initial(now, leeway), moves);
            && AllReadBefore(Initial(now, leeway), moves, t.fid)
            && s.exchanges == [Exchange(t.fid, t.jti, a)] + [Exchange(t.fid, t.jti, b)]
            && !ExchangedOnce(t.fid, s.exchanges)
  {
    var p, q := FirstHalf(t, u, now, a, exp), SecondHalf(t, u, now, b, exp);
    RunConcat(Initial(now, leeway), p, q);
    ReadBeforeConcat(Initial(now, leeway), p, q, t.fid);
    RunsFirstHalf(t, u, now, leeway, a, exp);
    RunsSecondHalf(t, u, now, leeway, a, b, exp);
    var ex := [Exchange(t.fid, t.jti, a)] + [Exchange(t.fid, t.jti, b)];
    assert ex[0].parent == ex[1].parent;
  }
}

/** No false alarms: a family whose tokens are presented once each is never denied. */
module HonestFamilies {
  import opened RefreshStores
  import opened RefreshProtocol

  /** Past redemption: the request redeemed its token, whatever came of it. */
  predicate Redeemer(q: Request, jti: string) {
    q.token.jti == jti && (q.pc == ToIssue || q.pc == Rotated || q.pc == IssueFailed)
  }

  ghost predicate HasRedeemer(reqs: seq<Request>, jti: string) {
    exists i :: 0 <= i < |reqs| && Redeemer(reqs[i], jti)
  }

  /** What the store holds against a token or a family, it holds for a reason. */
  ghost predicate Ledger(s: State) {
    && (forall t, u :: t in s.tokens && u in s.tokens && t.jti == u.jti ==> t == u)
    && (forall i :: 0 <= i < |s.requests| ==> s.requests[i].token in s.tokens)
    && (forall j :: j in s.store.redeemed ==> j in s.used)
    && (forall f :: f in s.store.revoked ==> f in s.killed)
    && (forall j :: j in s.used ==> HasRedeemer(s.requests, j))
  }

  /** No token of the family has been presented twice. */
  ghost predicate PresentedOnce(reqs: seq<Request>, f: string) {
    forall i, j :: 0 <= i < j < |reqs| && reqs[i].token.fid == f && reqs[j].token.fid == f ==>
      reqs[i].token.jti != reqs[j].token.jti
  }

  /** Nothing has been held against the family. */
  ghost predicate Calm(s: State, f: string) {
    && f !in s.killed
    && forall i :: 0 <= i < |s.requests| && s.requests[i].token.fid == f ==>
         s.requests[i].pc != Revoking && s.requests[i].pc != Denied
  }

  /** Requests keep their tokens, and who has redeemed stays a redeemer. */
  ghost predicate Advances(reqs: seq<Request>, qs: seq<Request>) {
    && |reqs| <= |qs|
    && forall i :: 0 <= i < |reqs| ==>
         qs[i].token == reqs[i].token && (Redeemer(reqs[i], reqs[i].token.jti) ==> Redeemer(qs[i], qs[i].token.jti))
  }

  lemma NextAdvances(s: State, mv: Move)
    ensures Advances(s.requests, Next(s, mv).requests)
  {
  }

  lemma RedeemersStay(reqs: seq<Request>, qs: seq<Request>, jti: string)
    requires Advances(reqs, qs) && HasRedeemer(reqs, jti)
    ensures HasRedeemer(qs, jti)
  {
    var i :| 0 <= i < |reqs| && Redeemer(reqs[i], jti);
    assert Redeemer(qs[i], jti);
  }

  lemma NextRedeemers(s: State, mv: Move)
    requires Ledger(s)
    ensures forall j :: j in Next(s, mv).used ==> HasRedeemer(Next(s, mv).requests, j)
  {
    var s' := Next(s, mv);
    NextAdvances(s, mv);
    forall j | j in s'.used ensures HasRedeemer(s'.requests, j) {
      if j in s.used {
        RedeemersStay(s.requests, s'.requests, j);
      } else {
        assert mv.MarkRedeemed? && Redeemer(s'.requests[mv.r], j);
      }
    }
  }

  lemma NextLedger(s: State, mv: Move)
    requires Ledger(s)
    ensures Ledger(Next(s, mv))
  {
    NextRedeemers(s, mv);
  }

  /** A replay needs a second presentation. */
  lemma ReplayIsSecond(s: State, r: nat, at: int, f: string)
    requires Ledger(s) && PresentedOnce(s.requests, f) && Enabled(s, MarkRedeemed(r, at)) && s.requests[r].token.fid == f
    ensures s.requests[r].token.jti !in s.used
  {
    var t := s.requests[r].token;
    forall i | 0 <= i < |s.requests| ensures !Redeemer(s.requests[i], t.jti) {
      if s.requests[i].token.jti == t.jti { assert s.requests[i].token == t; }
    }
    assert !HasRedeemer(s.requests, t.jti);
  }

  lemma NextCalm(s: State, mv: Move, f: string)
    requires Ledger(s) && Calm(s, f) && PresentedOnce(s.requests, f)
    ensures Calm(Next(s, mv), f)
  {
    if Enabled(s, mv) && mv.MarkRedeemed? && s.requests[mv.r].token.fid == f {
      ReplayIsSecond(s, mv.r, mv.at, f);
    }
  }

  lemma {:induction false} RunCalm(now: int, leeway: nat, moves: seq<Move>, f: string)
    ensures var s := Run(Initial(now, leeway), moves);
            Ledger(s) && (PresentedOnce(s.requests, f) ==> Calm(s, f))
  {
    if moves == [] {
    } else {
      var k := |moves| - 1;
      var s := Run(Initial(now, leeway), moves[..k]);
      RunCalm(now, leeway, moves[..k], f);
      NextLedger(s, moves[k]);
      NextAdvances(s, moves[k]);
      if PresentedOnce(Next(s, moves[k]).requests, f) {
        OncePrefix(s.requests, Next(s, moves[k]).requests, f);
        NextCalm(s, moves[k], f);
      }
    }
  }

  lemma OncePrefix(reqs: seq<Request>, qs: seq<Request>, f: string)
    requires Advances(reqs, qs) && PresentedOnce(qs, f)
    ensures PresentedOnce(reqs, f)
  {
    forall i, j | 0 <= i < j < |reqs| && reqs[i].token.fid == f && reqs[j].token.fid == f
      ensures reqs[i].token.jti != reqs[j].token.jti
    {
      assert qs[i].token == reqs[i].token && qs[j].token == reqs[j].token;
    }
  }

  /** No false alarms: in every interleaving, however slow, a family none of whose tokens
      has been presented twice is not revoked and none of its requests is denied, nor will
      be by its next store call. */
  lemma NoFalseAlarm(now: int, leeway: nat, moves: seq<Move>, f: string, r: nat, at: int)
    requires PresentedOnce(Run(Initial(now, leeway), moves).requests, f)
    ensures var s := Run(Initial(now, leeway), moves);
            && f !in s.store.revoked && f !in s.killed
            && (r < |s.requests| && s.requests[r].token.fid == f ==>
                  && s.requests[r].pc != Revoking && s.requests[r].pc != Denied
                  && (Enabled(s, Check(r, at)) ==> Standing(Next(s, Check(r, at)), r, Marking))
                  && (Enabled(s, MarkRedeemed(r, at)) ==> Standing(Next(s, MarkRedeemed(r, at)), r, ToIssue)))
  {
    var s := Run(Initial(now, leeway), moves);
    RunCalm(now, leeway, moves, f);
    if Enabled(s, MarkRedeemed(r, at)) && s.requests[r].token.fid == f {
      ReplayIsSecond(s, r, at, f);
    }
  }

  /** A token that has not been redeemed yet is accepted, in every interleaving. */
  lemma FirstRedemptionAccepted(now: int, leeway: nat, moves: seq<Move>, r: nat, at: int)
    requires var s := Run(Initial(now, leeway), moves);
             Enabled(s, MarkRedeemed(r, at)) && s.requests[r].token.jti !in s.used
    ensures Standing(Next(Run(Initial(now, leeway), moves), MarkRedeemed(r, at)), r, ToIssue)
  {
    RunCalm(now, leeway, moves, "");
  }
}

/** Refresh-token rotation: any number of refresh requests, for any issued tokens,
    interleaved step by step over one store and one non-decreasing clock. A store call
    reads the clock before it gets the lock, so it may act on an older reading. */
module RefreshProtocol {
  import opened RefreshStores

  /** A refresh token: its id, its family, its absolute expiry. */
  datatype Token = Token(jti: string, fid: string, exp: int)

  /** Where one `RefreshAccessCtx` call stands. */
  datatype PC = Checking | Marking | Revoking | ToIssue | Denied | Rotated | IssueFailed

  /** `since` is the clock when the call got to where it stands. */
  datatype Request = Request(token: Token, pc: PC, since: int)

  /** An exchange: the family, the redeemed id and the id issued for it. */
  datatype Exchange = Exchange(fid: string, parent: string, child: string)

  /** `used` and `exchanges` are history: ids redeemed on record, pairs issued.
      `killed` maps a family to the latest expiry among its answered replays, and
      `latest` is the latest reading that anything was pruned by. */
  datatype State = State(
    store: Store,
    now: int,
    latest: int,
    leeway: nat,
    tokens: set<Token>,
    requests: seq<Request>,
    used: set<string>,
    exchanges: seq<Exchange>,
    killed: map<string, int>)

  datatype Move =
    | Tick(dt: nat)
    | PruneNow
    | Login(token: Token)
    | Present(token: Token)
    | Check(r: nat, at: int)
    | MarkRedeemed(r: nat, at: int)
    | RevokeFamily(r: nat, at: int)
    | Issue(r: nat, jti: string, exp: int)
    | FailIssue(r: nat)

  function At(s: State, r: nat, pc: PC): State
    requires r < |s.requests|
  {
    s.(requests := s.requests[r := s.requests[r].(pc := pc, since := s.now)])
  }

  predicate FreshJti(s: State, jti: string) {
    forall t :: t in s.tokens ==> t.jti != jti
  }

  predicate FreshFid(s: State, fid: string) {
    forall t :: t in s.tokens ==> t.fid != fid
  }

  predicate Standing(s: State, r: nat, pc: PC) {
    r < |s.requests| && s.requests[r].pc == pc
  }

  /** `at` is a reading the call can hold when it gets the lock. */
  predicate Reading(s: State, r: nat, at: int) {
    r < |s.requests| && s.requests[r].since <= at <= s.now
  }

  /** Whether the move can be taken; a move that cannot changes nothing. Tokens are
      unforgeable, so only issued ones are presented, and the verifier rejects one
      that is past its expiry by more than the leeway. */
  predicate Enabled(s: State, mv: Move) {
    match mv
    case Tick(_) => true
    case PruneNow => true
    case Login(t) => FreshJti(s, t.jti) && FreshFid(s, t.fid)
    case Present(t) => t in s.tokens && s.now - t.exp <= s.leeway
    case Check(r, at) => Standing(s, r, Checking) && Reading(s, r, at)
    case MarkRedeemed(r, at) => Standing(s, r, Marking) && Reading(s, r, at)
    case RevokeFamily(r, at) => Standing(s, r, Revoking) && Reading(s, r, at)
    case Issue(r, jti, _) => Standing(s, r, ToIssue) && FreshJti(s, jti)
    case FailIssue(r) => Standing(s, r, ToIssue)
  }

  function Max(a: int, b: int): int { if a > b then a else b }

  /** Marking and revoking do nothing, not even prune, for what has expired. */
  function Pruned(latest: int, exp: int, at: int): int { if exp <= at then latest else Max(latest, at) }

  function Next(s: State, mv: Move): State {
    if !Enabled(s, mv) then s
    else match mv
      case Tick(dt) => s.(now := s.now + dt)
      case PruneNow => s.(store := Prune(s.store, s.now), latest := Max(s.latest, s.now))
      case Login(t) => s.(tokens := s.tokens + {t})
      case Present(t) => s.(requests := s.requests + [Request(t, Checking, s.now)])
      case Check(r, at) =>
        var t := s.requests[r].token;
        At(s, r, if Revoked(s.store, t.fid, at) then Denied else Marking)
          .(store := Prune(s.store, at), latest := Max(s.latest, at))
      case MarkRedeemed(r, at) =>
        var t := s.requests[r].token;
        var m := At(s, r, if Reused(s.store, t.jti, t.exp, at) then Revoking else ToIssue)
                   .(store := Mark(s.store, t.jti, t.exp, at), latest := Pruned(s.latest, t.exp, at));
        if Reused(s.store, t.jti, t.exp, at) then m else m.(used := s.used + {t.jti})
      case RevokeFamily(r, at) =>
        var t := s.requests[r].token;
        var until := if t.fid in s.killed then Max(s.killed[t.fid], t.exp) else t.exp;
        At(s, r, Denied).(store := Revoke(s.store, t.fid, t.exp, at), latest := Pruned(s.latest, t.exp, at),
                          killed := s.killed[t.fid := until])
      case Issue(r, jti, exp) =>
        var t := s.requests[r].token;
        At(s, r, Rotated).(tokens := s.tokens + {Token(jti, t.fid, exp)},
                           exchanges := s.exchanges + [Exchange(t.fid, t.jti, jti)])
      case FailIssue(r) => At(s, r, IssueFailed)
  }

  function Run(s: State, moves: seq<Move>): State {
    if moves == [] then s else Next(Run(s, moves[..|moves| - 1]), moves[|moves| - 1])
  }

  function Initial(now: int, leeway: nat): State {
    State(Store(map[], map[]), now, now, leeway, {}, [], {}, [], map[])
  }

  /** Neither this redemption in family `f` nor any store call before it has read the
      clock at or after the token's expiry. Getting the lock before the expiry is
      enough for that, since no reading is ahead of the clock. */
  predicate Timely(s: State, mv: Move, f: string) {
    mv.MarkRedeemed? && Standing(s, mv.r, Marking) && s.requests[mv.r].token.fid == f ==>
      Max(mv.at, s.latest) < s.requests[mv.r].token.exp
  }

  predicate AllTimely(s: State, moves: seq<Move>, f: string) {
    moves == []
    || (AllTimely(s, moves[..|moves| - 1], f) && Timely(Run(s, moves[..|moves| - 1]), moves[|moves| - 1], f))
  }

  // ---------- linear families ----------

  ghost predicate Bookkeeping(tokens: set<Token>, used: set<string>, reqs: seq<Request>) {
    && (forall t, u :: t in tokens && u in tokens && t.jti == u.jti ==> t == u)
    && (forall i :: 0 <= i < |reqs| ==> reqs[i].token in tokens)
    && (forall j :: j in used ==> exists t :: t in tokens && t.jti == j)
    && (forall i :: 0 <= i < |reqs| && reqs[i].pc == ToIssue ==> reqs[i].token.jti in used)
  }

  /** A redeemed token of the family is on file until a call has read its expiry. */
  ghost predicate OnRecord(f: string, tokens: set<Token>, used: set<string>, store: Store, latest: int) {
    forall t :: t in tokens && t.fid == f && t.jti in used ==>
      && (t.jti in store.redeemed <==> latest < t.exp)
      && (t.jti in store.redeemed ==> store.redeemed[t.jti] == t.exp)
  }

  /** The request has redeemed a token of the family and not issued its successor. */
  predicate Holds(q: Request, f: string) {
    q.pc == ToIssue && q.token.fid == f
  }

  /** At most one live continuation of the family: an unredeemed token, or a request
      that has redeemed one and not yet issued its successor, never two. */
  ghost predicate OneHolder(f: string, tokens: set<Token>, used: set<string>, reqs: seq<Request>) {
    && (forall t, u :: t in tokens && u in tokens && t.fid == f && u.fid == f && t.jti !in used && u.jti !in used ==> t == u)
    && (forall t, i :: t in tokens && t.fid == f && t.jti !in used && 0 <= i < |reqs| ==> !Holds(reqs[i], f))
    && (forall i, j :: 0 <= i < j < |reqs| ==> !(Holds(reqs[i], f) && Holds(reqs[j], f)))
  }

  /** Each id of the family is exchanged at most once. */
  ghost predicate OneChild(f: string, exchanges: seq<Exchange>, used: set<string>, reqs: seq<Request>) {
    && ExchangedOnce(f, exchanges)
    && (forall a :: 0 <= a < |exchanges| ==> exchanges[a].parent in used)
    && (forall a, i :: 0 <= a < |exchanges| && exchanges[a].fid == f && 0 <= i < |reqs| && Holds(reqs[i], f) ==>
          exchanges[a].parent != reqs[i].token.jti)
  }

  ghost predicate ExchangedOnce(f: string, exchanges: seq<Exchange>) {
    forall a, b :: 0 <= a < b < |exchanges| && exchanges[a].fid == f && exchanges[b].fid == f ==>
      exchanges[a].parent != exchanges[b].parent
  }

  ghost predicate Inv(s: State, f: string) {
    && Bookkeeping(s.tokens, s.used, s.requests)
    && OnRecord(f, s.tokens, s.used, s.store, s.latest) && s.latest <= s.now
    && OneHolder(f, s.tokens, s.used, s.requests)
    && OneChild(f, s.exchanges, s.used, s.requests)
  }

  /** `qs` extends `reqs` without anyone newly holding a redeemed id. */
  ghost predicate NoNewHolder(reqs: seq<Request>, qs: seq<Request>, tokens: set<Token>) {
    && |reqs| <= |qs|
    && (forall i :: 0 <= i < |reqs| ==> qs[i].token == reqs[i].token && (qs[i].pc == ToIssue ==> reqs[i].pc == ToIssue))
    && (forall i :: |reqs| <= i < |qs| ==> qs[i].token in tokens && qs[i].pc != ToIssue)
  }

  lemma QuietKeeps(s: State, qs: seq<Request>, f: string)
    requires Inv(s, f) && NoNewHolder(s.requests, qs, s.tokens)
    ensures Bookkeeping(s.tokens, s.used, qs) && OneHolder(f, s.tokens, s.used, qs) && OneChild(f, s.exchanges, s.used, qs)
  {
  }

  /** Redemption turns the family's unredeemed token into its one request in flight. */
  lemma HolderRedeems(f: string, tokens: set<Token>, used: set<string>, reqs: seq<Request>, r: nat, now: int)
    requires Bookkeeping(tokens, used, reqs) && OneHolder(f, tokens, used, reqs)
    requires r < |reqs| && (reqs[r].token.fid == f ==> reqs[r].token.jti !in used)
    ensures OneHolder(f, tokens, used + {reqs[r].token.jti}, reqs[r := reqs[r].(pc := ToIssue, since := now)])
  {
    var t := reqs[r].token;
    var qs := reqs[r := reqs[r].(pc := ToIssue, since := now)];
    assert t in tokens;
    if t.fid == f {
      assert forall u :: u in tokens && u.fid == f && u.jti !in used ==> u == t;
      assert forall i :: 0 <= i < |reqs| ==> !Holds(reqs[i], f);
    }
    assert forall i :: 0 <= i < |qs| && Holds(qs[i], f) ==> i == r || (qs[i] == reqs[i] && Holds(reqs[i], f));
  }

  /** Issuing turns it back into one unredeemed token. */
  lemma HolderIssues(f: string, tokens: set<Token>, used: set<string>, reqs: seq<Request>, r: nat, u: Token, now: int)
    requires Bookkeeping(tokens, used, reqs) && OneHolder(f, tokens, used, reqs)
    requires r < |reqs| && reqs[r].pc == ToIssue && u.fid == reqs[r].token.fid && u.jti !in used
    ensures OneHolder(f, tokens + {u}, used, reqs[r := reqs[r].(pc := Rotated, since := now)])
  {
    var qs := reqs[r := reqs[r].(pc := Rotated, since := now)];
    assert forall i :: 0 <= i < |qs| && Holds(qs[i], f) ==> i != r && qs[i] == reqs[i];
    if u.fid == f {
      assert Holds(reqs[r], f);
      assert forall t :: t in tokens && t.fid == f ==> t.jti in used;
    }
  }

  lemma MarkRecords(s: State, r: nat, at: int, f: string)
    requires Inv(s, f) && Timely(s, MarkRedeemed(r, at), f) && Enabled(s, MarkRedeemed(r, at))
    ensures var s' := Next(s, MarkRedeemed(r, at)); OnRecord(f, s'.tokens, s'.used, s'.store, s'.latest)
  {
    var t := s.requests[r].token;
    assert t in s.tokens;
  }

  lemma MarkKeeps(s: State, r: nat, at: int, f: string)
    requires Inv(s, f) && Timely(s, MarkRedeemed(r, at), f) && Enabled(s, MarkRedeemed(r, at))
    ensures Inv(Next(s, MarkRedeemed(r, at)), f)
  {
    var s' := Next(s, MarkRedeemed(r, at));
    var t := s.requests[r].token;
    assert t in s.tokens;
    MarkRecords(s, r, at, f);
    if Reused(s.store, t.jti, t.exp, at) {
      QuietKeeps(s, s'.requests, f);
    } else {
      HolderRedeems(f, s.tokens, s.used, s.requests, r, s.now);
      assert s'.requests == s.requests[r := s.requests[r].(pc := ToIssue, since := s.now)];
      RedeemedChildless(f, s.exchanges, s.used, s.requests, r, s.now);
    }
  }

  lemma RedeemedChildless(f: string, exchanges: seq<Exchange>, used: set<string>, reqs: seq<Request>, r: nat, now: int)
    requires OneChild(f, exchanges, used, reqs) && r < |reqs| && (reqs[r].token.fid == f ==> reqs[r].token.jti !in used)
    ensures OneChild(f, exchanges, used + {reqs[r].token.jti}, reqs[r := reqs[r].(pc := ToIssue, since := now)])
  {
  }

  lemma IssueKeeps(s: State, r: nat, jti: string, exp: int, f: string)
    requires Inv(s, f) && Standing(s, r, ToIssue) && FreshJti(s, jti)
    ensures Inv(Next(s, Issue(r, jti, exp)), f)
  {
    var s' := Next(s, Issue(r, jti, exp));
    assert jti !in s.used;
    HolderIssues(f, s.tokens, s.used, s.requests, r, Token(jti, s.requests[r].token.fid, exp), s.now);
    assert s'.requests == s.requests[r := s.requests[r].(pc := Rotated, since := s.now)];
    IssuedOnce(f, s.exchanges, s.used, s.requests, r, jti, s.now);
  }

  lemma IssuedOnce(f: string, exchanges: seq<Exchange>, used: set<string>, reqs: seq<Request>, r: nat, jti: string, now: int)
    requires OneChild(f, exchanges, used, reqs) && r < |reqs| && reqs[r].pc == ToIssue && reqs[r].token.jti in used
    requires forall i, j :: 0 <= i < j < |reqs| ==> !(Holds(reqs[i], f) && Holds(reqs[j], f))
    requires forall i :: 0 <= i < |reqs| && i != r && Holds(reqs[i], f) ==> reqs[i].token.jti != reqs[r].token.jti
    ensures OneChild(f, exchanges + [Exchange(reqs[r].token.fid, reqs[r].token.jti, jti)], used,
                     reqs[r := reqs[r].(pc := Rotated, since := now)])
  {
  }

  lemma LoginKeeps(s: State, t: Token, f: string)
    requires Inv(s, f) && FreshJti(s, t.jti) && FreshFid(s, t.fid)
    ensures Inv(Next(s, Login(t)), f)
  {
    assert t.jti !in s.used;
  }

  lemma NextKeeps(s: State, mv: Move, f: string)
    requires Inv(s, f) && Timely(s, mv, f)
    ensures Inv(Next(s, mv), f)
  {
    if Enabled(s, mv) {
      match mv {
        case MarkRedeemed(r, at) => MarkKeeps(s, r, at, f);
        case Issue(r, jti, exp) => IssueKeeps(s, r, jti, exp, f);
        case Login(t) => LoginKeeps(s, t, f);
        case _ => OtherKeeps(s, mv, f);
      }
    }
  }

  /** The moves after which nobody newly holds a redeemed id. */
  lemma OtherKeeps(s: State, mv: Move, f: string)
    requires Inv(s, f) && Enabled(s, mv) && !mv.MarkRedeemed? && !mv.Issue? && !mv.Login?
    ensures Inv(Next(s, mv), f)
  {
    OtherRecords(s, mv, f);
    OtherHolders(s, mv);
    QuietKeeps(s, Next(s, mv).requests, f);
  }

  lemma OtherRecords(s: State, mv: Move, f: string)
    requires OnRecord(f, s.tokens, s.used, s.store, s.latest)
    requires Enabled(s, mv) && !mv.MarkRedeemed? && !mv.Issue? && !mv.Login?
    ensures var s' := Next(s, mv); OnRecord(f, s.tokens, s.used, s'.store, s'.latest)
  {
  }

  lemma OtherHolders(s: State, mv: Move)
    requires Enabled(s, mv) && !mv.MarkRedeemed? && !mv.Issue? && !mv.Login?
    ensures var s' := Next(s, mv);
            && s'.tokens == s.tokens && s'.used == s.used && s'.exchanges == s.exchanges
            && NoNewHolder(s.requests, s'.requests, s.tokens)
  {
  }

  lemma {:induction false} RunKeeps(s: State, moves: seq<Move>, f: string)
    requires Inv(s, f) && AllTimely(s, moves, f)
    ensures Inv(Run(s, moves), f)
  {
    if moves == [] {
    } else {
      RunKeeps(s, moves[..|moves| - 1], f);
      NextKeeps(Run(s, moves[..|moves| - 1]), moves[|moves| - 1], f);
    }
  }

  /** Linear families: in every interleaving in which this family's redemptions are
      timely, each of its refresh ids is exchanged for at most one pair and it never
      has two live continuations, however the store is pruned and whatever happens to
      other families. */
  lemma LinearFamilies(now: int, leeway: nat, moves: seq<Move>, f: string)
    requires AllTimely(Initial(now, leeway), moves, f)
    ensures var s := Run(Initial(now, leeway), moves);
            OneHolder(f, s.tokens, s.used, s.requests) && ExchangedOnce(f, s.exchanges)
  {
    RunKeeps(Initial(now, leeway), moves, f);
  }

  /** The hypothesis is exact: as long as the family's redemptions were timely, an
      already redeemed token is let through if and only if its redemption is not, that
      is, if this call or some store call before it has read the clock at or after the
      token's expiry. So none is while the clock has not reached it. */
  lemma ReplayAcceptedExactlyWhen(now: int, leeway: nat, moves: seq<Move>, r: nat, at: int)
    requires var s := Run(Initial(now, leeway), moves);
             && Enabled(s, MarkRedeemed(r, at)) && s.requests[r].token.jti in s.used
             && AllTimely(Initial(now, leeway), moves, s.requests[r].token.fid)
    ensures var s := Run(Initial(now, leeway), moves);
            var accepted := Standing(Next(s, MarkRedeemed(r, at)), r, ToIssue);
            && (accepted <==> !Timely(s, MarkRedeemed(r, at), s.requests[r].token.fid))
            && (accepted ==> s.requests[r].token.exp <= s.now)
  {
    var s := Run(Initial(now, leeway), moves);
    RunKeeps(Initial(now, leeway), moves, s.requests[r].token.fid);
    assert s.requests[r].token in s.tokens;
  }

  // ---------- the reuse kill-switch ----------

  /** Every answered replay keeps its family revoked until the replayed expiry. */
  ghost predicate KillInv(s: State) {
    forall f :: f in s.killed && s.now < s.killed[f] ==> f in s.store.revoked && s.store.revoked[f] >= s.killed[f]
  }

  lemma KillKeeps(s: State, mv: Move)
    requires KillInv(s)
    ensures KillInv(Next(s, mv)) && s.now <= Next(s, mv).now
    ensures forall f :: f in s.killed ==> f in Next(s, mv).killed && Next(s, mv).killed[f] >= s.killed[f]
  {
    if Enabled(s, mv) && mv.RevokeFamily? {
      RevokeKills(s, mv.r, mv.at);
    }
  }

  lemma RevokeKills(s: State, r: nat, at: int)
    requires KillInv(s) && Enabled(s, RevokeFamily(r, at))
    ensures KillInv(Next(s, RevokeFamily(r, at)))
    ensures var t := s.requests[r].token;
            t.fid in Next(s, RevokeFamily(r, at)).killed && Next(s, RevokeFamily(r, at)).killed[t.fid] >= t.exp
  {
  }

  /** Requests from index `from` on, in family `f`, have not got past the check. */
  ghost predicate Stopped(s: State, from: nat, f: string) {
    forall i :: from <= i < |s.requests| && s.requests[i].token.fid == f ==>
      s.requests[i].pc == Checking || s.requests[i].pc == Denied
  }

  lemma StoppedStep(s: State, mv: Move, from: nat, f: string, e: int)
    requires KillInv(s) && f in s.killed && e <= s.killed[f] && from <= |s.requests|
    requires Stopped(s, from, f) && s.now < e
    ensures Stopped(Next(s, mv), from, f) && from <= |Next(s, mv).requests|
  {
  }

  /** The family is killed up to `e`, and until then its later requests are stopped. */
  ghost predicate KilledUntil(s: State, from: nat, f: string, e: int) {
    && KillInv(s) && f in s.killed && e <= s.killed[f] && from <= |s.requests|
    && (s.now < e ==> Stopped(s, from, f))
  }

  lemma KilledStep(s: State, mv: Move, from: nat, f: string, e: int)
    requires KilledUntil(s, from, f, e)
    ensures KilledUntil(Next(s, mv), from, f, e)
  {
    KillKeeps(s, mv);
    if s.now < e { StoppedStep(s, mv, from, f, e); }
  }

  lemma {:induction false} StoppedRun(s: State, moves: seq<Move>, from: nat, f: string, e: int)
    requires KilledUntil(s, from, f, e)
    ensures KilledUntil(Run(s, moves), from, f, e)
  {
    if moves == [] {
    } else {
      StoppedRun(s, moves[..|moves| - 1], from, f, e);
      KilledStep(Run(s, moves[..|moves| - 1]), moves[|moves| - 1], from, f, e);
    }
  }

  lemma {:induction false} RunKills(s: State, moves: seq<Move>)
    requires KillInv(s)
    ensures KillInv(Run(s, moves))
  {
    if moves == [] {
    } else {
      RunKills(s, moves[..|moves| - 1]);
      KillKeeps(Run(s, moves[..|moves| - 1]), moves[|moves| - 1]);
    }
  }

  /** Reuse kill-switch: take any run, answer a replay of token `t` in it, and
      continue in any way at all. As long as the clock has not reached the replayed
      expiry, every request of that family made since then is unanswered or denied,
      and checking one, on whatever reading, denies it. */
  lemma ReuseKillSwitch(now: int, leeway: nat, before: seq<Move>, r: nat, at: int, after: seq<Move>, q: nat, reading: int)
    requires var s := Run(Initial(now, leeway), before);
             Enabled(s, RevokeFamily(r, at))
    requires var s := Run(Initial(now, leeway), before);
             var s' := Run(Next(s, RevokeFamily(r, at)), after);
             && |s.requests| <= q < |s'.requests| && s'.requests[q].token.fid == s.requests[r].token.fid
             && s'.now < s.requests[r].token.exp
    ensures var s := Run(Initial(now, leeway), before);
            var s' := Run(Next(s, RevokeFamily(r, at)), after);
            && (s'.requests[q].pc == Checking || s'.requests[q].pc == Denied)
            && (Enabled(s', Check(q, reading)) ==> Standing(Next(s', Check(q, reading)), q, Denied))
  {
    RunKills(Initial(now, leeway), before);
    var s := Run(Initial(now, leeway), before);
    var t := s.requests[r].token;
    RevokeKills(s, r, at);
    var k := Next(s, RevokeFamily(r, at));
    StoppedRun(k, after, |k.requests|, t.fid, t.exp);
  }
}

/**
  The refresh-token service with each request run to its end before the next
  begins.  `Do` is a request as the composition of its protocol steps, so such a
  run is one of the interleavings of `RefreshTokens`.
 */
module TokenRequests {
  import opened Optional
  import opened RefreshTokens

  datatype Request =
    | Login(r: RequestId, f: FamilyId, user: UserId, raw: string)
    | Refresh(r: RequestId, raw: string, successor: string)
    | Logout(r: RequestId, raw: string)
    | LogoutAll(user: UserId)
    | ChangePassword(user: UserId, oldPasswordValid: bool)
    | Wait(ms: nat)

  /** Generated values are new. */
  predicate Fresh(s: Sys, q: Request)
  {
    match q
    case Login(r, f, user, raw) => r !in s.seen && f !in s.rows.families && Sha256(raw) !in s.rows.tokens
    case Refresh(r, raw, successor) => r !in s.seen && Sha256(successor) !in s.rows.tokens
    case Logout(r, raw) => r !in s.seen
    case _ => true
  }

  /** The protocol steps a request takes when nothing else runs. */
  function Steps(s: Sys, q: Request): (es: seq<Event>)
  {
    match q
    case Login(r, f, user, raw) => [LoginFamily(r, f, user), LoginToken(r, raw)]
    case Refresh(r, raw, successor) =>
      (match Judge(s.rows, s.now, raw)
       case Admitted => [RefreshRead(r, raw), RefreshCommit(r, successor)]
       case Reused => [RefreshRead(r, raw), RevokeCommit(r)]
       case _ => [RefreshRead(r, raw)])
    case Logout(r, raw) =>
      if Sha256(raw) in s.rows.tokens then [LogoutRead(r, raw), RevokeCommit(r)] else [LogoutRead(r, raw)]
    case LogoutAll(user) => [LogoutEverywhere(user)]
    case ChangePassword(user, valid) => [PasswordChanged(user, valid)]
    case Wait(ms) => [Tick(ms)]
  }

  lemma RunTwo(s: Sys, a: Event, b: Event)
    requires Enabled(s, a) && Enabled(Next(s, a), b)
    ensures Runnable(s, [a, b]) && Exec(s, [a, b]) == Next(Next(s, a), b)
  {
    assert [a, b][1..] == [b] && [b][1..] == [];
    var s2 := Next(Next(s, a), b);
    assert Runnable(s2, []) && Exec(s2, []) == s2;
    assert Runnable(Next(s, a), [b]) && Exec(Next(s, a), [b]) == s2;
  }

  lemma RunOne(s: Sys, a: Event)
    requires Enabled(s, a)
    ensures Runnable(s, [a]) && Exec(s, [a]) == Next(s, a)
  {
  }

  lemma StepsAreRunnable(s: Sys, q: Request)
    requires Inv(s) && Fresh(s, q)
    ensures Runnable(s, Steps(s, q))
  {
    match q
    case Login(r, f, user, raw) => RunTwo(s, LoginFamily(r, f, user), LoginToken(r, raw));
    case Refresh(r, raw, successor) =>
      match Judge(s.rows, s.now, raw) {
        case Admitted => RunTwo(s, RefreshRead(r, raw), RefreshCommit(r, successor));
        case Reused => RunTwo(s, RefreshRead(r, raw), RevokeCommit(r));
        case _ => RunOne(s, RefreshRead(r, raw));
      }
    case Logout(r, raw) =>
      if Sha256(raw) in s.rows.tokens {
        RunTwo(s, LogoutRead(r, raw), RevokeCommit(r));
      } else {
        RunOne(s, LogoutRead(r, raw));
      }
    case LogoutAll(user) => RunOne(s, LogoutEverywhere(user));
    case ChangePassword(user, valid) => RunOne(s, PasswordChanged(user, valid));
    case Wait(ms) => RunOne(s, Tick(ms));
  }

  /** One whole request; `StepsAreRunnable` says that its steps can always be taken. */
  function Do(s: Sys, q: Request): (s': Sys)
  {
    if Runnable(s, Steps(s, q)) then Exec(s, Steps(s, q)) else s
  }

  /** What a whole request leaves in the tables. */
  function RowsAfter(rows: Rows, now: nat, q: Request): (rows': Rows)
  {
    match q
    case Login(r, f, user, raw) =>
      Rows(rows.families[f := Family(user, false, None)], rows.tokens[Sha256(raw) := NewToken(now, f)])
    case Refresh(r, raw, successor) =>
      (match Judge(rows, now, raw)
       case Admitted =>
         Rows(rows.families,
             Insert(rows.tokens, Some(Sha256(raw)), Sha256(successor),
                 NewToken(now, rows.tokens[Sha256(raw)].familyId)))
       case Reused => RevokeFamily(rows, rows.tokens[Sha256(raw)].familyId, TokenReuseDetected)
       case _ => rows)
    case Logout(r, raw) =>
      if Sha256(raw) in rows.tokens && rows.tokens[Sha256(raw)].familyId in rows.families
      then RevokeFamily(rows, rows.tokens[Sha256(raw)].familyId, UserLogout) else rows
    case LogoutAll(user) => RevokeUser(rows, user, UserLogoutAll, false)
    case ChangePassword(user, valid) => if valid then RevokeUser(rows, user, PassChange, true) else rows
    case Wait(_) => rows
  }

  // ------------------------------------------------------------------ what the requests do to the rows

  /** The families are the same but that each for which `hit` holds is revoked with the reason. */
  ghost predicate RevokedExactly(before: map<FamilyId, Family>, after: map<FamilyId, Family>, hit: FamilyId -> bool,
      reason: Reason)
  {
    && after.Keys == before.Keys
    && forall f :: f in before ==>
      after[f] == if hit(f) then Family(before[f].userId, true, Some(reason)) else before[f]
  }

  /**
    A refresh revokes the family on a replay and touches no other row; it exchanges an
    unused token of a live family until it expires, for one that is good for seven
    days; and in every other case it changes nothing.
   */
  lemma RefreshDoes(rows: Rows, now: nat, r: RequestId, raw: string, successor: string)
    requires Sha256(successor) !in rows.tokens
    ensures var after := RowsAfter(rows, now, Refresh(r, raw, successor));
      var t, u := Sha256(raw), Sha256(successor);
      && (!InLiveFamily(rows, t) ==> after == rows)
      && (InLiveFamily(rows, t) ==>
        var f := rows.tokens[t].familyId;
        if rows.tokens[t].isUsed then
          after.tokens == rows.tokens && RevokedExactly(rows.families, after.families, g => g == f, TokenReuseDetected)
        else if now <= rows.tokens[t].expiresAt then
          && after.families == rows.families && after.tokens.Keys == rows.tokens.Keys + {u}
          && after.tokens[u] == Token(f, false, now + 604800000)
          && after.tokens[t] == Token(f, true, rows.tokens[t].expiresAt)
          && forall v :: v in rows.tokens && v != t ==> after.tokens[v] == rows.tokens[v]
        else after == rows)
  {
    VerdictIff(rows, now, raw);
  }

  /** A login adds a live family with one unused token, good for seven days. */
  lemma LoginDoes(rows: Rows, now: nat, r: RequestId, f: FamilyId, user: UserId, raw: string)
    ensures var after := RowsAfter(rows, now, Login(r, f, user, raw));
      && after.families.Keys == rows.families.Keys + {f} && after.tokens.Keys == rows.tokens.Keys + {Sha256(raw)}
      && after.families[f] == Family(user, false, None) && after.tokens[Sha256(raw)] == Token(f, false, now + 604800000)
      && (forall g :: g in rows.families && g != f ==> after.families[g] == rows.families[g])
      && (forall u :: u in rows.tokens && u != Sha256(raw) ==> after.tokens[u] == rows.tokens[u])
  {
  }

  /** A logout revokes the family of its token; logging out everywhere those of the user. */
  lemma LogoutDoes(rows: Rows, now: nat, r: RequestId, raw: string, user: UserId)
    ensures var one, all := RowsAfter(rows, now, Logout(r, raw)), RowsAfter(rows, now, LogoutAll(user));
      && one.tokens == all.tokens == rows.tokens
      && RevokedExactly(rows.families, one.families,
        f => Sha256(raw) in rows.tokens && rows.tokens[Sha256(raw)].familyId == f, UserLogout)
      && RevokedExactly(rows.families, all.families,
        f => f in rows.families && rows.families[f].userId == user, UserLogoutAll)
  {
  }

  /** A password change revokes the user's families that are not revoked yet, if the old password was right. */
  lemma PasswordChangeDoes(rows: Rows, now: nat, user: UserId, valid: bool)
    ensures var after := RowsAfter(rows, now, ChangePassword(user, valid));
      && after.tokens == rows.tokens
      && RevokedExactly(rows.families, after.families,
        f => valid && f in rows.families && rows.families[f].userId == user && !rows.families[f].isRevoked, PassChange)
  {
  }

  function BirthsAfter(s: Sys, q: Request): (births: Births)
  {
    match q
    case Login(r, f, user, raw) => s.births[Sha256(raw) := Birth(None, |s.rows.tokens|, r)]
    case Refresh(r, raw, successor) =>
      if Judge(s.rows, s.now, raw) == Admitted
      then s.births[Sha256(successor) := Birth(Some(Sha256(raw)), |s.rows.tokens|, r)] else s.births
    case _ => s.births
  }

  lemma DoTwo(s: Sys, q: Request, a: Event, b: Event)
    requires Inv(s) && Fresh(s, q) && Steps(s, q) == [a, b] && Enabled(s, a) && Enabled(Next(s, a), b)
    ensures Do(s, q) == Next(Next(s, a), b)
  {
    RunTwo(s, a, b);
  }

  lemma DoOne(s: Sys, q: Request, a: Event)
    requires Inv(s) && Fresh(s, q) && Steps(s, q) == [a] && Enabled(s, a)
    ensures Do(s, q) == Next(s, a)
  {
    RunOne(s, a);
  }

  lemma RefreshIsItsSteps(s: Sys, q: Request)
    requires Inv(s) && s.pending == map[] && Fresh(s, q) && q.Refresh?
    ensures Do(s, q).rows == RowsAfter(s.rows, s.now, q)
    ensures Do(s, q).births == BirthsAfter(s, q) && Do(s, q).pending == map[]
  {
    match Judge(s.rows, s.now, q.raw) {
      case Admitted => DoTwo(s, q, RefreshRead(q.r, q.raw), RefreshCommit(q.r, q.successor));
      case Reused => DoTwo(s, q, RefreshRead(q.r, q.raw), RevokeCommit(q.r));
      case _ => DoOne(s, q, RefreshRead(q.r, q.raw));
    }
  }

  /**
    Running the protocol steps of one request without interruption has exactly
    the effect `RowsAfter` gives, and leaves nothing pending.
   */
  lemma RequestIsItsSteps(s: Sys, q: Request)
    requires Inv(s) && s.pending == map[] && Fresh(s, q)
    ensures Do(s, q).rows == RowsAfter(s.rows, s.now, q)
    ensures Do(s, q).births == BirthsAfter(s, q) && Do(s, q).pending == map[]
  {
    match q
    case Login(r, f, user, raw) =>
      DoTwo(s, q, LoginFamily(r, f, user), LoginToken(r, raw));
    case Refresh(r, raw, successor) => RefreshIsItsSteps(s, q);
    case Logout(r, raw) =>
      if Sha256(raw) in s.rows.tokens {
        DoTwo(s, q, LogoutRead(r, raw), RevokeCommit(r));
      } else {
        DoOne(s, q, LogoutRead(r, raw));
      }
    case LogoutAll(user) => DoOne(s, q, LogoutEverywhere(user));
    case ChangePassword(user, valid) => DoOne(s, q, PasswordChanged(user, valid));
    case Wait(ms) => DoOne(s, q, Tick(ms));
  }

  /******* Each family has one unused token *******/

  /** `t` is the only unused token of `f`, and every other one was issued before it. */
  predicate IsTip(tokens: Tokens, births: Births, t: Digest, f: FamilyId)
    requires births.Keys == tokens.Keys
  {
    && InFamily(tokens, t, f) && !tokens[t].isUsed
    && forall u :: u in tokens && tokens[u].familyId == f && u != t ==>
      tokens[u].isUsed && births[u].serial < births[t].serial
  }

  ghost predicate HasTip(tokens: Tokens, births: Births, f: FamilyId)
    requires births.Keys == tokens.Keys
  {
    exists t :: t in tokens && IsTip(tokens, births, t, f)
  }

  ghost predicate OneTipEach(families: set<FamilyId>, tokens: Tokens, births: Births)
    requires births.Keys == tokens.Keys
  {
    forall f :: f in families ==> HasTip(tokens, births, f)
  }

  ghost predicate Quiet(s: Sys)
  {
    Inv(s) && s.pending == map[] && OneTipEach(s.rows.families.Keys, s.rows.tokens, s.births)
  }

  lemma InsertKeepsOtherTip(tokens: Tokens, births: Births, from: Option<Digest>, t: Digest, tok: Token,
      birth: Birth, f: FamilyId)
    requires births.Keys == tokens.Keys && MayIssue(tokens, t, from, tok.familyId) && f != tok.familyId
    requires HasTip(tokens, births, f)
    ensures Insert(tokens, from, t, tok).Keys == births[t := birth].Keys
    ensures HasTip(Insert(tokens, from, t, tok), births[t := birth], f)
  {
    InsertedTokens(tokens, from, t, tok);
    var tip :| tip in tokens && IsTip(tokens, births, tip, f);
    assert IsTip(Insert(tokens, from, t, tok), births[t := birth], tip, f);
  }

  /** The login token is the tip of its new family. */
  lemma RootIsTip(tokens: Tokens, births: Births, t: Digest, tok: Token, birth: Birth)
    requires births.Keys == tokens.Keys && t !in tokens && !tok.isUsed
    requires forall u :: u in tokens ==> tokens[u].familyId != tok.familyId
    ensures Insert(tokens, None, t, tok).Keys == births[t := birth].Keys
    ensures HasTip(Insert(tokens, None, t, tok), births[t := birth], tok.familyId)
  {
    InsertedTokens(tokens, None, t, tok);
    assert IsTip(Insert(tokens, None, t, tok), births[t := birth], t, tok.familyId);
  }

  /** Rotating the tip makes the successor the tip. */
  lemma RotationMovesTip(tokens: Tokens, births: Births, used: Digest, t: Digest, tok: Token, birth: Birth)
    requires Forest(tokens, births) && MayIssue(tokens, t, Some(used), tok.familyId) && !tok.isUsed
    requires !tokens[used].isUsed && HasTip(tokens, births, tok.familyId) && birth.serial == |tokens|
    ensures Insert(tokens, Some(used), t, tok).Keys == births[t := birth].Keys
    ensures HasTip(Insert(tokens, Some(used), t, tok), births[t := birth], tok.familyId)
  {
    InsertedTokens(tokens, Some(used), t, tok);
    var tip :| tip in tokens && IsTip(tokens, births, tip, tok.familyId);
    assert tip == used;
    assert IsTip(Insert(tokens, Some(used), t, tok), births[t := birth], t, tok.familyId);
  }

  lemma LoginTips(rows: Rows, births: Births, f: FamilyId, t: Digest, tok: Token, birth: Birth)
    requires births.Keys == rows.tokens.Keys && OneTipEach(rows.families.Keys, rows.tokens, births)
    requires ForeignKeys(rows.families.Keys, rows.tokens)
    requires t !in rows.tokens && !tok.isUsed && tok.familyId == f && f !in rows.families
    ensures rows.tokens[t := tok].Keys == births[t := birth].Keys
    ensures OneTipEach(rows.families.Keys + {f}, rows.tokens[t := tok], births[t := birth])
  {
    RootIsTip(rows.tokens, births, t, tok, birth);
    forall g | g in rows.families.Keys
      ensures HasTip(rows.tokens[t := tok], births[t := birth], g)
    {
      InsertKeepsOtherTip(rows.tokens, births, None, t, tok, birth, g);
    }
  }

  lemma RotationTips(families: set<FamilyId>, tokens: Tokens, births: Births, used: Digest, t: Digest,
      tok: Token, birth: Birth)
    requires Forest(tokens, births) && OneTipEach(families, tokens, births) && tok.familyId in families
    requires MayIssue(tokens, t, Some(used), tok.familyId) && !tok.isUsed && !tokens[used].isUsed
    requires birth.serial == |tokens|
    ensures Insert(tokens, Some(used), t, tok).Keys == births[t := birth].Keys
    ensures OneTipEach(families, Insert(tokens, Some(used), t, tok), births[t := birth])
  {
    RotationMovesTip(tokens, births, used, t, tok, birth);
    forall g | g in families && g != tok.familyId
      ensures HasTip(Insert(tokens, Some(used), t, tok), births[t := birth], g)
    {
      InsertKeepsOtherTip(tokens, births, Some(used), t, tok, birth, g);
    }
  }

  ghost predicate Tips(rows: Rows, births: Births)
  {
    births.Keys == rows.tokens.Keys && OneTipEach(rows.families.Keys, rows.tokens, births)
  }

  lemma LoginRequestTips(s: Sys, r: RequestId, f: FamilyId, user: UserId, raw: string)
    requires Tips(s.rows, s.births) && ForeignKeys(s.rows.families.Keys, s.rows.tokens)
    requires Sha256(raw) !in s.rows.tokens && f !in s.rows.families
    ensures Tips(RowsAfter(s.rows, s.now, Login(r, f, user, raw)), BirthsAfter(s, Login(r, f, user, raw)))
  {
    var rows' := RowsAfter(s.rows, s.now, Login(r, f, user, raw));
    assert rows'.families.Keys == s.rows.families.Keys + {f};
    LoginTips(s.rows, s.births, f, Sha256(raw), NewToken(s.now, f), Birth(None, |s.rows.tokens|, r));
  }

  lemma RotationRequestTips(s: Sys, r: RequestId, raw: string, successor: string)
    requires Tips(s.rows, s.births) && Forest(s.rows.tokens, s.births)
    requires Sha256(successor) !in s.rows.tokens && Judge(s.rows, s.now, raw) == Admitted
    ensures Tips(RowsAfter(s.rows, s.now, Refresh(r, raw, successor)), BirthsAfter(s, Refresh(r, raw, successor)))
  {
    RotationTips(s.rows.families.Keys, s.rows.tokens, s.births, Sha256(raw), Sha256(successor),
                 NewToken(s.now, s.rows.tokens[Sha256(raw)].familyId), Birth(Some(Sha256(raw)), |s.rows.tokens|, r));
  }

  predicate WritesFlagsOnly(rows: Rows, now: nat, q: Request)
  {
    !q.Login? && (q.Refresh? ==> Judge(rows, now, q.raw) != Admitted)
  }

  lemma FlagRequestTips(s: Sys, q: Request)
    requires Tips(s.rows, s.births) && WritesFlagsOnly(s.rows, s.now, q)
    ensures Tips(RowsAfter(s.rows, s.now, q), BirthsAfter(s, q))
  {
  }

  lemma RequestTips(s: Sys, q: Request)
    requires Quiet(s) && Fresh(s, q)
    ensures Tips(RowsAfter(s.rows, s.now, q), BirthsAfter(s, q))
  {
    if q.Login? {
      LoginRequestTips(s, q.r, q.f, q.user, q.raw);
    } else if q.Refresh? && Judge(s.rows, s.now, q.raw) == Admitted {
      RotationRequestTips(s, q.r, q.raw, q.successor);
    } else {
      FlagRequestTips(s, q);
    }
  }

  lemma RequestInv(s: Sys, q: Request)
    requires Inv(s) && Fresh(s, q)
    ensures Inv(Do(s, q)) && Grows(s, Do(s, q))
  {
    StepsAreRunnable(s, q);
    RunKeepsInv(s, Steps(s, q));
    RunGrows(s, Steps(s, q));
  }

  lemma RequestIsQuiet(s: Sys, q: Request)
    requires Quiet(s) && Fresh(s, q)
    ensures Quiet(Do(s, q))
  {
    RequestInv(s, q);
    RequestIsItsSteps(s, q);
    RequestTips(s, q);
  }

  /******* Whole runs *******/

  predicate AllFresh(s: Sys, qs: seq<Request>)
    decreases |qs|
  {
    qs == [] || (Fresh(s, qs[0]) && AllFresh(Do(s, qs[0]), qs[1..]))
  }

  function DoAll(s: Sys, qs: seq<Request>): (s': Sys)
    decreases |qs|
  {
    if qs == [] then s else DoAll(Do(s, qs[0]), qs[1..])
  }

  /** After every run each family has exactly one unused token, which is its newest. */
  lemma {:induction false} RunIsQuiet(s: Sys, qs: seq<Request>)
    requires Quiet(s) && AllFresh(s, qs)
    ensures Quiet(DoAll(s, qs))
    decreases |qs|
  {
    if qs != [] {
      RequestIsQuiet(s, qs[0]);
      RequestInv(s, qs[0]);
      RunIsQuiet(Do(s, qs[0]), qs[1..]);
    }
  }

  lemma ReachableIsQuiet(qs: seq<Request>)
    requires AllFresh(INIT, qs)
    ensures Quiet(DoAll(INIT, qs))
  {
    RunIsQuiet(INIT, qs);
  }

  /** Revocation is never undone, and a revoked family answers every token with a refusal. */
  lemma {:induction false} RevokedStaysRevoked(s: Sys, qs: seq<Request>, f: FamilyId)
    requires Inv(s) && AllFresh(s, qs) && IsRevoked(s.rows.families, f)
    ensures IsRevoked(DoAll(s, qs).rows.families, f) && Closed(DoAll(s, qs), f)
    ensures Grows(s, DoAll(s, qs))
    decreases |qs|
  {
    if qs != [] {
      RequestInv(s, qs[0]);
      RevokedStaysRevoked(Do(s, qs[0]), qs[1..], f);
    }
  }

  lemma PasswordChangeRevokes(s: Sys, user: UserId, f: FamilyId)
    requires Inv(s) && f in s.rows.families && s.rows.families[f].userId == user
    ensures Inv(Do(s, ChangePassword(user, true)))
    ensures IsRevoked(Do(s, ChangePassword(user, true)).rows.families, f)
    ensures Do(s, ChangePassword(user, true)).rows.tokens == s.rows.tokens
  {
    RequestInv(s, ChangePassword(user, true));
    RunOne(s, PasswordChanged(user, true));
  }

  /** A token of a family that was revoked is refused after every run. */
  lemma RevokedTokenIsRefused(s: Sys, qs: seq<Request>, t: Digest, f: FamilyId)
    requires Inv(s) && AllFresh(s, qs) && IsRevoked(s.rows.families, f) && InFamily(s.rows.tokens, t, f)
    ensures Judge(DoAll(s, qs).rows, DoAll(s, qs).now, t.raw) == Revoked
  {
    RevokedStaysRevoked(s, qs, f);
    assert InFamily(DoAll(s, qs).rows.tokens, t, f);
  }

  /**
    No refresh token issued before a password change is exchanged after it: in
    every later state the refresh of such a token is refused.
   */
  lemma PasswordChangeEndsOldTokens(s: Sys, user: UserId, qs: seq<Request>, raw: string)
    requires Inv(s) && Sha256(raw) in s.rows.tokens
    requires s.rows.families[s.rows.tokens[Sha256(raw)].familyId].userId == user
    requires AllFresh(Do(s, ChangePassword(user, true)), qs)
    ensures var s' := DoAll(Do(s, ChangePassword(user, true)), qs);
      Judge(s'.rows, s'.now, raw) == Revoked
  {
    var f := s.rows.tokens[Sha256(raw)].familyId;
    PasswordChangeRevokes(s, user, f);
    RevokedTokenIsRefused(Do(s, ChangePassword(user, true)), qs, Sha256(raw), f);
  }

  /** A refresh with a used token of a family that is not revoked. */
  predicate IsReplay(s: Sys, q: Request)
  {
    q.Refresh? && InLiveFamily(s.rows, Sha256(q.raw)) && s.rows.tokens[Sha256(q.raw)].isUsed
  }

  lemma ReplayRevokes(s: Sys, q: Request)
    requires Inv(s) && Fresh(s, q) && IsReplay(s, q)
    ensures Inv(Do(s, q)) && Do(s, q).rows.tokens == s.rows.tokens
    ensures IsRevoked(Do(s, q).rows.families, s.rows.tokens[Sha256(q.raw)].familyId)
  {
    VerdictIff(s.rows, s.now, q.raw);
    RequestInv(s, q);
    RunTwo(s, RefreshRead(q.r, q.raw), RevokeCommit(q.r));
  }

  /** With whole requests a replayed token always closes its family before anything else runs. */
  lemma ReplayEndsFamily(s: Sys, q: Request, qs: seq<Request>, raw: string)
    requires Inv(s) && Fresh(s, q) && IsReplay(s, q)
    requires InFamily(s.rows.tokens, Sha256(raw), s.rows.tokens[Sha256(q.raw)].familyId)
    requires AllFresh(Do(s, q), qs)
    ensures Judge(DoAll(Do(s, q), qs).rows, DoAll(Do(s, q), qs).now, raw) == Revoked
  {
    ReplayRevokes(s, q);
    RevokedTokenIsRefused(Do(s, q), qs, Sha256(raw), s.rows.tokens[Sha256(q.raw)].familyId);
  }

  /******* The service *******/

  datatype RefreshAnswer = Refused(verdict: Verdict) | NewPair(refreshToken: string)

  /** The service over its two tables. */
  class TokenService {
    var families: map<FamilyId, Family>
    var tokens: map<Digest, Token>

    ghost predicate Valid()
      reads this
    {
      ForeignKeys(families.Keys, tokens)
    }

    function Tables(): Rows
      reads this
    {
      Rows(families, tokens)
    }

    constructor ()
      ensures Valid() && Tables() == INIT.rows
    {
      families, tokens := map[], map[];
    }

    method CreateTokenPair(ghost r: RequestId, now: nat, f: FamilyId, user: UserId, raw: string)
      requires Valid() && f !in families && Sha256(raw) !in tokens
      modifies this
      ensures Valid() && Tables() == RowsAfter(old(Tables()), now, Login(r, f, user, raw))
    {
      families := families[f := Family(user, false, None)];
      tokens := tokens[Sha256(raw) := Token(f, false, now + REFRESH_EXPIRY_MS)];
    }

    method RefreshToken(ghost r: RequestId, now: nat, raw: string, successor: string) returns (answer: RefreshAnswer)
      requires Valid() && Sha256(successor) !in tokens
      modifies this
      ensures Valid() && Tables() == RowsAfter(old(Tables()), now, Refresh(r, raw, successor))
      ensures answer == (match Judge(old(Tables()), now, raw)
                         case Admitted => NewPair(successor)
                         case v => Refused(v))
    {
      var tokenHash := Sha256(raw);
      if tokenHash !in tokens {
        return Refused(Unknown);
      }
      var tokenRecord := tokens[tokenHash];
      var family := families[tokenRecord.familyId];
      if family.isRevoked {
        return Refused(Revoked);
      }
      if tokenRecord.isUsed {
        families := families[tokenRecord.familyId :=
          family.(isRevoked := true, revokedReason := Some(TokenReuseDetected))];
        return Refused(Reused);
      }
      if now > tokenRecord.expiresAt {
        return Refused(Expired);
      }
      tokens := tokens[tokenHash := tokenRecord.(isUsed := true)];
      tokens := tokens[Sha256(successor) := Token(tokenRecord.familyId, false, now + REFRESH_EXPIRY_MS)];
      answer := NewPair(successor);
    }

    method LogoutToken(ghost r: RequestId, ghost now: nat, raw: string)
      requires Valid()
      modifies this
      ensures Valid() && Tables() == RowsAfter(old(Tables()), now, Logout(r, raw))
    {
      if Sha256(raw) in tokens {
        var f := tokens[Sha256(raw)].familyId;
        families := families[f := families[f].(isRevoked := true, revokedReason := Some(UserLogout))];
      }
    }

    method LogoutUser(ghost now: nat, user: UserId)
      requires Valid()
      modifies this
      ensures Valid() && Tables() == RowsAfter(old(Tables()), now, LogoutAll(user))
    {
      families := map f | f in families ::
        if families[f].userId == user
        then families[f].(isRevoked := true, revokedReason := Some(UserLogoutAll)) else families[f];
    }

    method RevokeAllOtherSessions(ghost now: nat, user: UserId)
      requires Valid()
      modifies this
      ensures Valid() && Tables() == RowsAfter(old(Tables()), now, ChangePassword(user, true))
    {
      families := map f | f in families ::
        if families[f].userId == user && !families[f].isRevoked
        then families[f].(isRevoked := true, revokedReason := Some(PassChange)) else families[f];
    }
  }
}

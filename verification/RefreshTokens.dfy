/**
  Refresh-token families: rotation with reuse detection.

  The database rows are `Rows`.  A request is not one step: the look-up of a
  refresh and its rotating transaction are separate, and so are the look-up and
  the write of a logout and of a reuse alarm.  `Sys` therefore carries the
  requests that have read but not yet written, and `Next` is one database step
  of one request, in any interleaving.

  `births` is history: for each token the one it was rotated from, its place in
  the order of issue and the request that issued it.  No step reads it.
 */
module RefreshTokens {
  import opened Optional

  type UserId = string
  type FamilyId = int
  type RequestId = int

  /** SHA-256 as an injective constructor. */
  datatype Digest = Sha256(raw: string)

  datatype Reason = TokenReuseDetected | UserLogout | UserLogoutAll | PassChange

  datatype Family = Family(userId: UserId, isRevoked: bool, revokedReason: Option<Reason>)
  datatype Token = Token(familyId: FamilyId, isUsed: bool, expiresAt: nat)
  datatype Rows = Rows(families: map<FamilyId, Family>, tokens: map<Digest, Token>)

  const REFRESH_EXPIRY_MS: nat := 7 * 24 * 60 * 60 * 1000

  /** What a refresh decides from the row it read. */
  datatype Verdict = Unknown | Revoked | Reused | Expired | Admitted

  function Judge(rows: Rows, now: nat, raw: string): (v: Verdict)
  {
    var t := Sha256(raw);
    if t !in rows.tokens then Unknown
    else if rows.tokens[t].familyId !in rows.families then Unknown
    else if rows.families[rows.tokens[t].familyId].isRevoked then Revoked
    else if rows.tokens[t].isUsed then Reused
    else if now > rows.tokens[t].expiresAt then Expired
    else Admitted
  }

  /** The token is there and its family has not been revoked. */
  predicate InLiveFamily(rows: Rows, t: Digest)
  {
    t in rows.tokens && rows.tokens[t].familyId in rows.families && !rows.families[rows.tokens[t].familyId].isRevoked
  }

  /**
    What a refresh is answered, on the rows alone: a used token of a live family is a
    replay however old it is; of the unused ones those up to their expiry are admitted
    and the others are expired; and a revoked family refuses all.
   */
  lemma VerdictIff(rows: Rows, now: nat, raw: string)
    ensures var t := Sha256(raw);
      && (Judge(rows, now, raw) == Unknown <==>
        t !in rows.tokens || rows.tokens[t].familyId !in rows.families)
      && (Judge(rows, now, raw) == Revoked <==>
        t in rows.tokens && rows.tokens[t].familyId in rows.families
        && rows.families[rows.tokens[t].familyId].isRevoked)
      && (Judge(rows, now, raw) == Reused <==> InLiveFamily(rows, t) && rows.tokens[t].isUsed)
      && (Judge(rows, now, raw) == Expired <==>
        InLiveFamily(rows, t) && !rows.tokens[t].isUsed && rows.tokens[t].expiresAt < now)
      && (Judge(rows, now, raw) == Admitted <==>
        InLiveFamily(rows, t) && !rows.tokens[t].isUsed && now <= rows.tokens[t].expiresAt)
  {
  }

  function CreateFamily(rows: Rows, f: FamilyId, user: UserId): Rows
  {
    rows.(families := rows.families[f := Family(user, false, None)])
  }

  /** Insert a token and, on rotation, mark the one it replaces: one transaction. */
  function Insert(tokens: map<Digest, Token>, from: Option<Digest>, t: Digest, tok: Token): map<Digest, Token>
    requires from.Some? ==> from.value in tokens
  {
    match from
    case None => tokens[t := tok]
    case Some(p) => tokens[p := tokens[p].(isUsed := true)][t := tok]
  }

  function NewToken(now: nat, f: FamilyId): Token
  {
    Token(f, false, now + REFRESH_EXPIRY_MS)
  }

  function RevokeFamily(rows: Rows, f: FamilyId, reason: Reason): Rows
    requires f in rows.families
  {
    rows.(families := rows.families[f := rows.families[f].(isRevoked := true, revokedReason := Some(reason))])
  }

  /** `updateMany` over one user's families; `liveOnly` is the `isRevoked: false` filter. */
  function RevokeUser(rows: Rows, user: UserId, reason: Reason, liveOnly: bool): Rows
  {
    rows.(families := map f | f in rows.families ::
      if rows.families[f].userId == user && !(liveOnly && rows.families[f].isRevoked)
      then rows.families[f].(isRevoked := true, revokedReason := Some(reason))
      else rows.families[f])
  }

  /******* The protocol *******/

  datatype Pending =
    | IssueRoot(familyId: FamilyId)
    | Rotation(used: Digest, familyId: FamilyId)
    | Revocation(familyId: FamilyId, reason: Reason)

  datatype Birth = Birth(parent: Option<Digest>, serial: nat, issuer: RequestId)

  datatype Sys = Sys(
    rows: Rows,
    now: nat,
    pending: map<RequestId, Pending>,
    seen: set<RequestId>,
    births: map<Digest, Birth>)

  datatype Event =
    | LoginFamily(r: RequestId, f: FamilyId, user: UserId)
    | LoginToken(r: RequestId, raw: string)
    | RefreshRead(r: RequestId, raw: string)
    | RefreshCommit(r: RequestId, raw: string)
    | LogoutRead(r: RequestId, raw: string)
    | RevokeCommit(r: RequestId)
    | LogoutEverywhere(user: UserId)
    | PasswordChanged(user: UserId, oldPasswordValid: bool)
    | Tick(ms: nat)

  const INIT := Sys(Rows(map[], map[]), 0, map[], {}, map[])

  /** Request ids are not reused, and generated tokens and family ids are new. */
  predicate Enabled(s: Sys, e: Event)
  {
    match e
    case LoginFamily(r, f, user) => r !in s.seen && f !in s.rows.families
    case LoginToken(r, raw) => r in s.pending && s.pending[r].IssueRoot? && Sha256(raw) !in s.rows.tokens
    case RefreshRead(r, raw) => r !in s.seen
    case RefreshCommit(r, raw) =>
      r in s.pending && s.pending[r].Rotation? && s.pending[r].used in s.rows.tokens && Sha256(raw) !in s.rows.tokens
    case LogoutRead(r, raw) => r !in s.seen
    case RevokeCommit(r) =>
      r in s.pending && s.pending[r].Revocation? && s.pending[r].familyId in s.rows.families
    case LogoutEverywhere(_) => true
    case PasswordChanged(_, _) => true
    case Tick(_) => true
  }

  function Issue(s: Sys, r: RequestId, t: Digest, from: Option<Digest>, f: FamilyId): Sys
    requires from.Some? ==> from.value in s.rows.tokens
  {
    Sys(Rows(s.rows.families, Insert(s.rows.tokens, from, t, NewToken(s.now, f))),
        s.now,
        s.pending - {r},
        s.seen,
        s.births[t := Birth(from, |s.rows.tokens|, r)])
  }

  function Open(s: Sys, r: RequestId, f: FamilyId, user: UserId): Sys
  {
    s.(rows := CreateFamily(s.rows, f, user), seen := s.seen + {r}, pending := s.pending[r := IssueRoot(f)])
  }

  function Begin(s: Sys, r: RequestId, p: Option<Pending>): Sys
  {
    s.(seen := s.seen + {r}, pending := if p.Some? then s.pending[r := p.value] else s.pending)
  }

  function Finish(s: Sys, r: RequestId): Sys
  {
    s.(pending := s.pending - {r})
  }

  /** What a refresh still has to write after its read. */
  function AfterRead(rows: Rows, now: nat, raw: string): (p: Option<Pending>)
  {
    match Judge(rows, now, raw)
    case Admitted => Some(Rotation(Sha256(raw), rows.tokens[Sha256(raw)].familyId))
    case Reused => Some(Revocation(rows.tokens[Sha256(raw)].familyId, TokenReuseDetected))
    case _ => None
  }

  function AfterLogoutRead(rows: Rows, raw: string): (p: Option<Pending>)
  {
    if Sha256(raw) in rows.tokens then Some(Revocation(rows.tokens[Sha256(raw)].familyId, UserLogout)) else None
  }

  function Next(s: Sys, e: Event): (s': Sys)
    requires Enabled(s, e)
  {
    match e
    case LoginFamily(r, f, user) => Open(s, r, f, user)
    case LoginToken(r, raw) => Issue(s, r, Sha256(raw), None, s.pending[r].familyId)
    case RefreshRead(r, raw) => Begin(s, r, AfterRead(s.rows, s.now, raw))
    case RefreshCommit(r, raw) => Issue(s, r, Sha256(raw), Some(s.pending[r].used), s.pending[r].familyId)
    case LogoutRead(r, raw) => Begin(s, r, AfterLogoutRead(s.rows, raw))
    case RevokeCommit(r) =>
      Finish(s, r).(rows := RevokeFamily(s.rows, s.pending[r].familyId, s.pending[r].reason))
    case LogoutEverywhere(user) => s.(rows := RevokeUser(s.rows, user, UserLogoutAll, false))
    case PasswordChanged(user, valid) =>
      if valid then s.(rows := RevokeUser(s.rows, user, PassChange, true)) else s
    case Tick(ms) => s.(now := s.now + ms)
  }

  predicate Runnable(s: Sys, es: seq<Event>)
    decreases |es|
  {
    es == [] || (Enabled(s, es[0]) && Runnable(Next(s, es[0]), es[1..]))
  }

  function Exec(s: Sys, es: seq<Event>): (s': Sys)
    requires Runnable(s, es)
    decreases |es|
  {
    if es == [] then s else Exec(Next(s, es[0]), es[1..])
  }

  /******* The invariant *******/

  type Tokens = map<Digest, Token>
  type Births = map<Digest, Birth>

  predicate HasSuccessor(births: Births, t: Digest)
  {
    exists c :: c in births && births[c].parent == Some(t)
  }

  predicate ForeignKeys(families: set<FamilyId>, tokens: Tokens)
  {
    forall t :: t in tokens ==> tokens[t].familyId in families
  }

  /** Parents are earlier tokens of the same family, so every family is a forest. */
  predicate Forest(tokens: Tokens, births: Births)
  {
    && births.Keys == tokens.Keys
    && (forall t :: t in tokens ==> births[t].serial < |tokens|)
    && (forall c :: c in tokens && births[c].parent.Some? ==>
          && births[c].parent.value in tokens
          && tokens[births[c].parent.value].familyId == tokens[c].familyId
          && births[births[c].parent.value].serial < births[c].serial)
  }

  /** Only the login token has no parent, so the forest of a family is one tree. */
  predicate OneRoot(tokens: Tokens, births: Births)
    requires births.Keys == tokens.Keys
  {
    forall t, u :: t in tokens && u in tokens && births[t].parent.None? && births[u].parent.None? && t != u ==>
      tokens[t].familyId != tokens[u].familyId
  }

  /** Never half-rotated: the used flag and the successor are written together. */
  predicate UsedIffRotated(tokens: Tokens, births: Births)
  {
    forall t {:trigger tokens[t].isUsed} {:trigger HasSuccessor(births, t)} ::
      t in tokens ==> (tokens[t].isUsed <==> HasSuccessor(births, t))
  }

  /** A request issues at most one token, and has nothing left to write afterwards. */
  predicate IssuersSound(births: Births, seen: set<RequestId>, pending: map<RequestId, Pending>)
  {
    && (forall t :: t in births ==> births[t].issuer in seen && births[t].issuer !in pending)
    && (forall t, u :: t in births && u in births && t != u ==> births[t].issuer != births[u].issuer)
  }

  predicate PendingSound(families: set<FamilyId>, tokens: Tokens, pending: map<RequestId, Pending>)
  {
    && (forall r :: r in pending ==> pending[r].familyId in families)
    && (forall r :: r in pending && pending[r].Rotation? ==>
          pending[r].used in tokens && tokens[pending[r].used].familyId == pending[r].familyId)
    && (forall r, t :: r in pending && pending[r].IssueRoot? && t in tokens ==>
          tokens[t].familyId != pending[r].familyId)
    && (forall r, q :: r in pending && q in pending && pending[r].IssueRoot? && pending[q].IssueRoot? && r != q ==>
          pending[r].familyId != pending[q].familyId)
  }

  ghost predicate Inv(s: Sys)
  {
    && ForeignKeys(s.rows.families.Keys, s.rows.tokens)
    && Forest(s.rows.tokens, s.births)
    && OneRoot(s.rows.tokens, s.births)
    && UsedIffRotated(s.rows.tokens, s.births)
    && s.pending.Keys <= s.seen
    && IssuersSound(s.births, s.seen, s.pending)
    && PendingSound(s.rows.families.Keys, s.rows.tokens, s.pending)
  }

  lemma OpenKeepsInv(s: Sys, r: RequestId, f: FamilyId, user: UserId)
    requires Inv(s) && r !in s.seen && f !in s.rows.families
    ensures Inv(Open(s, r, f, user))
  {
  }

  lemma BeginKeepsInv(s: Sys, r: RequestId, p: Option<Pending>)
    requires Inv(s) && r !in s.seen
    requires p.Some? ==> !p.value.IssueRoot? && p.value.familyId in s.rows.families
    requires p.Some? && p.value.Rotation? ==>
      p.value.used in s.rows.tokens && s.rows.tokens[p.value.used].familyId == p.value.familyId
    ensures Inv(Begin(s, r, p))
  {
  }

  /** Writing revocation flags keeps the invariant. */
  lemma FlagsKeepInv(s: Sys, families: map<FamilyId, Family>)
    requires Inv(s) && families.Keys == s.rows.families.Keys
    ensures Inv(s.(rows := Rows(families, s.rows.tokens)))
  {
  }

  lemma FinishKeepsInv(s: Sys, r: RequestId)
    requires Inv(s)
    ensures Inv(Finish(s, r))
  {
  }

  predicate MayIssue(tokens: Tokens, t: Digest, from: Option<Digest>, f: FamilyId)
  {
    t !in tokens && (from.Some? ==> from.value in tokens && tokens[from.value].familyId == f)
  }

  lemma InsertedTokens(tokens: Tokens, from: Option<Digest>, t: Digest, tok: Token)
    requires MayIssue(tokens, t, from, tok.familyId)
    ensures var tokens' := Insert(tokens, from, t, tok);
      && tokens'.Keys == tokens.Keys + {t} && |tokens'| == |tokens| + 1 && tokens'[t] == tok
      && (forall u :: u in tokens ==>
            tokens'[u] == Token(tokens[u].familyId, tokens[u].isUsed || from == Some(u), tokens[u].expiresAt))
  {
  }

  lemma InsertKeepsForeignKeys(families: set<FamilyId>, tokens: Tokens, from: Option<Digest>, t: Digest, tok: Token)
    requires ForeignKeys(families, tokens) && MayIssue(tokens, t, from, tok.familyId) && tok.familyId in families
    ensures ForeignKeys(families, Insert(tokens, from, t, tok))
  {
  }

  lemma InsertKeepsForest(tokens: Tokens, births: Births, from: Option<Digest>, t: Digest, tok: Token, r: RequestId)
    requires Forest(tokens, births) && MayIssue(tokens, t, from, tok.familyId)
    ensures Forest(Insert(tokens, from, t, tok), births[t := Birth(from, |tokens|, r)])
  {
  }

  lemma InsertKeepsOneRoot(tokens: Tokens, births: Births, from: Option<Digest>, t: Digest, tok: Token, r: RequestId)
    requires births.Keys == tokens.Keys && OneRoot(tokens, births) && MayIssue(tokens, t, from, tok.familyId)
    requires from.None? ==> forall u :: u in tokens ==> tokens[u].familyId != tok.familyId
    ensures Insert(tokens, from, t, tok).Keys == births[t := Birth(from, |tokens|, r)].Keys
    ensures OneRoot(Insert(tokens, from, t, tok), births[t := Birth(from, |tokens|, r)])
  {
  }

  lemma InsertKeepsUsedIffRotated(tokens: Tokens, births: Births, from: Option<Digest>, t: Digest, tok: Token,
      r: RequestId)
    requires Forest(tokens, births) && UsedIffRotated(tokens, births)
    requires MayIssue(tokens, t, from, tok.familyId) && !tok.isUsed
    ensures UsedIffRotated(Insert(tokens, from, t, tok), births[t := Birth(from, |tokens|, r)])
  {
    InsertedTokens(tokens, from, t, tok);
    var births' := births[t := Birth(from, |tokens|, r)];
    forall u
      ensures HasSuccessor(births', u) <==> HasSuccessor(births, u) || from == Some(u)
    {
      if HasSuccessor(births, u) {
        var c :| c in births && births[c].parent == Some(u);
        assert births'[c].parent == Some(u);
      }
      if from == Some(u) {
        assert births'[t].parent == Some(u);
      }
      if HasSuccessor(births', u) {
        var c :| c in births' && births'[c].parent == Some(u);
        assert c == t || births[c].parent == Some(u);
      }
    }
    assert !HasSuccessor(births, t);
  }

  lemma InsertKeepsPending(families: set<FamilyId>, tokens: Tokens, from: Option<Digest>, t: Digest, tok: Token,
                           pending: map<RequestId, Pending>, r: RequestId)
    requires MayIssue(tokens, t, from, tok.familyId) && PendingSound(families, tokens, pending)
    requires from.Some? || (r in pending && pending[r] == IssueRoot(tok.familyId))
    ensures PendingSound(families, Insert(tokens, from, t, tok), pending - {r})
  {
  }

  lemma InsertKeepsIssuers(births: Births, seen: set<RequestId>, pending: map<RequestId, Pending>,
                           t: Digest, birth: Birth)
    requires IssuersSound(births, seen, pending) && t !in births && birth.issuer in pending && birth.issuer in seen
    ensures IssuersSound(births[t := birth], seen, pending - {birth.issuer})
  {
  }

  lemma IssueKeepsInv(s: Sys, r: RequestId, t: Digest, from: Option<Digest>, f: FamilyId)
    requires Inv(s) && MayIssue(s.rows.tokens, t, from, f) && r in s.pending && s.pending[r].familyId == f
    requires from.None? ==> s.pending[r].IssueRoot?
    ensures Inv(Issue(s, r, t, from, f))
  {
    var tok := NewToken(s.now, f);
    InsertKeepsForeignKeys(s.rows.families.Keys, s.rows.tokens, from, t, tok);
    InsertKeepsForest(s.rows.tokens, s.births, from, t, tok, r);
    InsertKeepsOneRoot(s.rows.tokens, s.births, from, t, tok, r);
    InsertKeepsUsedIffRotated(s.rows.tokens, s.births, from, t, tok, r);
    InsertKeepsPending(s.rows.families.Keys, s.rows.tokens, from, t, tok, s.pending, r);
    InsertKeepsIssuers(s.births, s.seen, s.pending, t, Birth(from, |s.rows.tokens|, r));
  }

  lemma RevocationKeepsInv(s: Sys, e: Event)
    requires Inv(s) && Enabled(s, e) && (e.RevokeCommit? || e.LogoutEverywhere? || e.PasswordChanged?)
    ensures Inv(Next(s, e))
  {
    match e
    case RevokeCommit(r) =>
      FinishKeepsInv(s, r);
      FlagsKeepInv(Finish(s, r), Next(s, e).rows.families);
    case LogoutEverywhere(user) => FlagsKeepInv(s, Next(s, e).rows.families);
    case PasswordChanged(user, valid) => FlagsKeepInv(s, Next(s, e).rows.families);
  }

  lemma StepKeepsInv(s: Sys, e: Event)
    requires Inv(s) && Enabled(s, e)
    ensures Inv(Next(s, e))
  {
    match e
    case LoginFamily(r, f, user) => OpenKeepsInv(s, r, f, user);
    case LoginToken(r, raw) => IssueKeepsInv(s, r, Sha256(raw), None, s.pending[r].familyId);
    case RefreshRead(r, raw) => BeginKeepsInv(s, r, AfterRead(s.rows, s.now, raw));
    case RefreshCommit(r, raw) => IssueKeepsInv(s, r, Sha256(raw), Some(s.pending[r].used), s.pending[r].familyId);
    case LogoutRead(r, raw) => BeginKeepsInv(s, r, AfterLogoutRead(s.rows, raw));
    case RevokeCommit(_) => RevocationKeepsInv(s, e);
    case LogoutEverywhere(_) => RevocationKeepsInv(s, e);
    case PasswordChanged(_, _) => RevocationKeepsInv(s, e);
    case Tick(_) =>
  }

  /** Every interleaving of requests keeps the invariant. */
  lemma {:induction false} RunKeepsInv(s: Sys, es: seq<Event>)
    requires Inv(s) && Runnable(s, es)
    ensures Inv(Exec(s, es))
    decreases |es|
  {
    if es != [] {
      StepKeepsInv(s, es[0]);
      RunKeepsInv(Next(s, es[0]), es[1..]);
    }
  }

  /** The rotations that led from a login token to `t`. */
  ghost function Lineage(tokens: Tokens, births: Births, t: Digest): (path: seq<Digest>)
    requires Forest(tokens, births) && t in tokens
    ensures |path| > 0 && path[|path| - 1] == t
    decreases births[t].serial
  {
    match births[t].parent
    case None => [t]
    case Some(p) => Lineage(tokens, births, p) + [t]
  }

  ghost predicate IsRotationPath(births: Births, path: seq<Digest>)
  {
    && |path| > 0 && path[0] in births && births[path[0]].parent == None
    && forall i :: 0 < i < |path| ==> path[i] in births && births[path[i]].parent == Some(path[i - 1])
  }

  lemma {:induction false} LineageIsRotationPath(tokens: Tokens, births: Births, t: Digest)
    requires Forest(tokens, births) && t in tokens
    ensures IsRotationPath(births, Lineage(tokens, births, t))
    ensures Lineage(tokens, births, t)[0] in tokens
    ensures tokens[Lineage(tokens, births, t)[0]].familyId == tokens[t].familyId
    decreases births[t].serial
  {
    match births[t].parent
    case None =>
    case Some(p) => LineageIsRotationPath(tokens, births, p);
  }

  /**
    Each family is a tree: in every reachable state every token of it is reached
    from one and the same login token by rotations, and a token is used exactly
    when it was rotated.
   */
  lemma FamilyIsTree(es: seq<Event>, t: Digest, u: Digest)
    requires Runnable(INIT, es)
    requires t in Exec(INIT, es).rows.tokens && u in Exec(INIT, es).rows.tokens
    requires Exec(INIT, es).rows.tokens[t].familyId == Exec(INIT, es).rows.tokens[u].familyId
    ensures var s := Exec(INIT, es);
      && Forest(s.rows.tokens, s.births)
      && IsRotationPath(s.births, Lineage(s.rows.tokens, s.births, t))
      && Lineage(s.rows.tokens, s.births, t)[0] == Lineage(s.rows.tokens, s.births, u)[0]
      && (s.rows.tokens[t].isUsed <==> HasSuccessor(s.births, t))
  {
    RunKeepsInv(INIT, es);
    var s := Exec(INIT, es);
    LineageIsRotationPath(s.rows.tokens, s.births, t);
    LineageIsRotationPath(s.rows.tokens, s.births, u);
  }

  /******* Revocation is permanent *******/

  /** Families are never deleted, change no owner and are never un-revoked. */
  predicate FamiliesGrow(m: map<FamilyId, Family>, m': map<FamilyId, Family>)
  {
    forall f :: f in m ==> f in m' && m'[f].userId == m[f].userId && (m[f].isRevoked ==> m'[f].isRevoked)
  }

  /** Tokens are never deleted, change neither family nor expiry and are never un-used. */
  predicate TokensGrow(m: Tokens, m': Tokens)
  {
    forall t :: t in m ==>
      t in m' && m'[t].familyId == m[t].familyId && m'[t].expiresAt == m[t].expiresAt && (m[t].isUsed ==> m'[t].isUsed)
  }

  predicate Grows(s: Sys, s': Sys)
  {
    && FamiliesGrow(s.rows.families, s'.rows.families)
    && TokensGrow(s.rows.tokens, s'.rows.tokens)
    && (forall t :: t in s.births ==> t in s'.births && s'.births[t] == s.births[t])
  }

  lemma IssueGrows(s: Sys, r: RequestId, t: Digest, from: Option<Digest>, f: FamilyId)
    requires MayIssue(s.rows.tokens, t, from, f) && t !in s.births
    ensures Grows(s, Issue(s, r, t, from, f))
  {
    InsertedTokens(s.rows.tokens, from, t, NewToken(s.now, f));
  }

  lemma RevokeUserGrows(rows: Rows, user: UserId, reason: Reason, liveOnly: bool)
    ensures FamiliesGrow(rows.families, RevokeUser(rows, user, reason, liveOnly).families)
  {
  }

  lemma FlagsGrow(s: Sys, s': Sys)
    requires s'.rows.tokens == s.rows.tokens && s'.births == s.births
    requires FamiliesGrow(s.rows.families, s'.rows.families)
    ensures Grows(s, s')
  {
  }

  lemma StepGrows(s: Sys, e: Event)
    requires Inv(s) && Enabled(s, e)
    ensures Grows(s, Next(s, e))
  {
    match e
    case LoginToken(r, raw) => IssueGrows(s, r, Sha256(raw), None, s.pending[r].familyId);
    case RefreshCommit(r, raw) => IssueGrows(s, r, Sha256(raw), Some(s.pending[r].used), s.pending[r].familyId);
    case LogoutEverywhere(user) => RevokeUserGrows(s.rows, user, UserLogoutAll, false); FlagsGrow(s, Next(s, e));
    case PasswordChanged(user, valid) => RevokeUserGrows(s.rows, user, PassChange, true); FlagsGrow(s, Next(s, e));
    case _ => FlagsGrow(s, Next(s, e));
  }

  /** No flag is ever cleared and no row ever disappears, in any interleaving. */
  lemma {:induction false} RunGrows(s: Sys, es: seq<Event>)
    requires Inv(s) && Runnable(s, es)
    ensures Grows(s, Exec(s, es))
    decreases |es|
  {
    if es != [] {
      StepKeepsInv(s, es[0]);
      StepGrows(s, es[0]);
      RunGrows(Next(s, es[0]), es[1..]);
    }
  }

  lemma StepPending(s: Sys, e: Event)
    requires Inv(s) && Enabled(s, e)
    ensures s.seen <= Next(s, e).seen
    ensures forall r :: r in s.seen && r in Next(s, e).pending ==>
      r in s.pending && Next(s, e).pending[r] == s.pending[r]
  {
  }

  /** A request keeps what it has to write until it writes it. */
  lemma {:induction false} PendingIsStable(s: Sys, es: seq<Event>, r: RequestId)
    requires Inv(s) && Runnable(s, es) && r in s.seen
    ensures r in Exec(s, es).pending ==> r in s.pending && Exec(s, es).pending[r] == s.pending[r]
    decreases |es|
  {
    if es != [] {
      StepKeepsInv(s, es[0]);
      StepPending(s, es[0]);
      PendingIsStable(Next(s, es[0]), es[1..], r);
    }
  }

  predicate InFamily(tokens: Tokens, t: Digest, f: FamilyId)
  {
    t in tokens && tokens[t].familyId == f
  }

  predicate IsRevoked(families: map<FamilyId, Family>, f: FamilyId)
  {
    f in families && families[f].isRevoked
  }

  /** A request that may still add a token to family `f` because it read in time. */
  predicate StillWriting(pending: map<RequestId, Pending>, r: RequestId, f: FamilyId)
  {
    r in pending && pending[r].familyId == f && !pending[r].Revocation?
  }

  lemma StepInClosedFamily(s: Sys, e: Event, f: FamilyId)
    requires Inv(s) && Enabled(s, e) && IsRevoked(s.rows.families, f)
    ensures forall r :: StillWriting(Next(s, e).pending, r, f) ==> StillWriting(s.pending, r, f)
    ensures forall t :: InFamily(Next(s, e).rows.tokens, t, f) && t !in s.rows.tokens ==>
      t in Next(s, e).births && StillWriting(s.pending, Next(s, e).births[t].issuer, f)
  {
  }

  /** Whatever is presented later, a revoked family answers it with a refusal. */
  ghost predicate Closed(s: Sys, f: FamilyId)
  {
    forall t :: InFamily(s.rows.tokens, t, f) ==> Judge(s.rows, s.now, t.raw) == Revoked
  }

  /**
    After its revocation a family is closed for good, and gains no token except
    those of requests that had already read, at most one for each.
   */
  lemma {:induction false} RevokedFamilyStaysClosed(s: Sys, es: seq<Event>, f: FamilyId)
    requires Inv(s) && Runnable(s, es) && IsRevoked(s.rows.families, f)
    ensures Inv(Exec(s, es)) && IsRevoked(Exec(s, es).rows.families, f) && Closed(Exec(s, es), f)
    ensures forall r :: StillWriting(Exec(s, es).pending, r, f) ==> StillWriting(s.pending, r, f)
    ensures forall t :: InFamily(Exec(s, es).rows.tokens, t, f) && t !in s.rows.tokens ==>
      StillWriting(s.pending, Exec(s, es).births[t].issuer, f)
    decreases |es|
  {
    if es != [] {
      var s1 := Next(s, es[0]);
      StepKeepsInv(s, es[0]);
      StepGrows(s, es[0]);
      StepInClosedFamily(s, es[0], f);
      RevokedFamilyStaysClosed(s1, es[1..], f);
      RunGrows(s1, es[1..]);
    }
  }

  /**
    Reuse detection.  A used token of a live family is presented by request `r`;
    any steps happen; `r` writes its revocation; any steps happen.  From then on
    every token of the family is refused, whichever branch it is on, and the
    family holds no new token except those of requests that had read before the
    revocation, at most one for each.
   */
  lemma ReplayClosesFamily(s: Sys, r: RequestId, raw: string, mid: seq<Event>, late: seq<Event>)
    requires Inv(s) && Enabled(s, RefreshRead(r, raw))
    requires InLiveFamily(s.rows, Sha256(raw)) && s.rows.tokens[Sha256(raw)].isUsed
    requires Runnable(Next(s, RefreshRead(r, raw)), mid)
    requires r in Exec(Next(s, RefreshRead(r, raw)), mid).pending
    ensures Enabled(Exec(Next(s, RefreshRead(r, raw)), mid), RevokeCommit(r))
    ensures var f := s.rows.tokens[Sha256(raw)].familyId;
      var s3 := Next(Exec(Next(s, RefreshRead(r, raw)), mid), RevokeCommit(r));
      Runnable(s3, late) ==>
        var s4 := Exec(s3, late);
        && Inv(s4) && Closed(s4, f)
        && (forall t :: InFamily(s4.rows.tokens, t, f) && t !in s3.rows.tokens ==>
              StillWriting(s3.pending, s4.births[t].issuer, f))
        && (forall t, u :: InFamily(s4.rows.tokens, t, f) && InFamily(s4.rows.tokens, u, f) && t != u ==>
              s4.births[t].issuer != s4.births[u].issuer)
  {
    VerdictIff(s.rows, s.now, raw);
    var f := s.rows.tokens[Sha256(raw)].familyId;
    var s1 := Next(s, RefreshRead(r, raw));
    StepKeepsInv(s, RefreshRead(r, raw));
    var s2 := Exec(s1, mid);
    RunKeepsInv(s1, mid);
    PendingIsStable(s1, mid, r);
    assert s2.pending[r] == Revocation(f, TokenReuseDetected);
    var s3 := Next(s2, RevokeCommit(r));
    StepKeepsInv(s2, RevokeCommit(r));
    if Runnable(s3, late) {
      RevokedFamilyStaysClosed(s3, late, f);
    }
  }

  /**
    The rotation does not test the used flag again, so two overlapping refreshes
    of one token both succeed and leave the family with two unused tokens.
   */
  lemma OverlappingRefreshesBranch(s: Sys, r: RequestId, q: RequestId, raw: string, a: string, b: string)
    requires Inv(s) && r !in s.seen && q !in s.seen && r != q
    requires Judge(s.rows, s.now, raw) == Admitted
    requires Sha256(a) !in s.rows.tokens && Sha256(b) !in s.rows.tokens && a != b
    ensures Enabled(s, RefreshRead(r, raw))
    ensures var s1 := Next(s, RefreshRead(r, raw));
      && Enabled(s1, RefreshRead(q, raw))
      && var s2 := Next(s1, RefreshRead(q, raw));
      && Enabled(s2, RefreshCommit(r, a))
      && var s3 := Next(s2, RefreshCommit(r, a));
      && Enabled(s3, RefreshCommit(q, b))
      && var s4 := Next(s3, RefreshCommit(q, b));
      && Judge(s4.rows, s4.now, a) == Admitted
      && Judge(s4.rows, s4.now, b) == Admitted
  {
  }

  /** Refreshes begun after a password change fail for every family that existed at it. */
  lemma PasswordChangeClosesFamilies(s: Sys, user: UserId, es: seq<Event>, f: FamilyId)
    requires Inv(s) && f in s.rows.families && s.rows.families[f].userId == user
    requires Runnable(Next(s, PasswordChanged(user, true)), es)
    ensures Closed(Exec(Next(s, PasswordChanged(user, true)), es), f)
  {
    StepKeepsInv(s, PasswordChanged(user, true));
    RevokedFamilyStaysClosed(Next(s, PasswordChanged(user, true)), es, f);
  }
}

/**
  Where the rotation protocol falls short of whole requests, and exactly when: a
  family keeps one unused token as long as no rotation finds its token used, and a
  token stays good until it is rotated, expires or its family is revoked.
 */
module TokenBranches {
  import opened Optional
  import opened RefreshTokens
  import opened TokenRequests

  // ------------------------------------------------------------------ branching

  predicate Unused(tokens: Tokens, t: Digest, f: FamilyId)
  {
    InFamily(tokens, t, f) && !tokens[t].isUsed
  }

  /** Two branches of the family could both go on. */
  ghost predicate Branched(tokens: Tokens, f: FamilyId)
  {
    exists t, u :: Unused(tokens, t, f) && Unused(tokens, u, f) && t != u
  }

  lemma BranchedHasNoTip(tokens: Tokens, births: Births, f: FamilyId)
    requires births.Keys == tokens.Keys && Branched(tokens, f)
    ensures !HasTip(tokens, births, f)
  {
    var t, u :| Unused(tokens, t, f) && Unused(tokens, u, f) && t != u;
    forall tip | tip in tokens
      ensures !IsTip(tokens, births, tip, f)
    {
      if tip == t {
        assert tokens[u].familyId == f && !tokens[u].isUsed;
      } else {
        assert tokens[t].familyId == f && !tokens[t].isUsed;
      }
    }
  }

  /** A rotation of a token that is already used leaves the tip unused and adds another. */
  lemma SecondRotationBranches(tokens: Tokens, births: Births, used: Digest, t: Digest, tok: Token)
    requires births.Keys == tokens.Keys && MayIssue(tokens, t, Some(used), tok.familyId) && !tok.isUsed
    requires tokens[used].isUsed && HasTip(tokens, births, tok.familyId)
    ensures Branched(Insert(tokens, Some(used), t, tok), tok.familyId)
  {
    InsertedTokens(tokens, Some(used), t, tok);
    var tip :| tip in tokens && IsTip(tokens, births, tip, tok.familyId);
    var tokens' := Insert(tokens, Some(used), t, tok);
    assert Unused(tokens', tip, tok.familyId) && Unused(tokens', t, tok.familyId);
  }

  lemma InsertKeepsBranched(tokens: Tokens, from: Option<Digest>, t: Digest, tok: Token, f: FamilyId)
    requires MayIssue(tokens, t, from, tok.familyId) && !tok.isUsed && Branched(tokens, f)
    ensures Branched(Insert(tokens, from, t, tok), f)
  {
    InsertedTokens(tokens, from, t, tok);
    var a, b :| Unused(tokens, a, f) && Unused(tokens, b, f) && a != b;
    var tokens' := Insert(tokens, from, t, tok);
    var c := if from == Some(a) then t else a;
    var d := if from == Some(b) then t else b;
    assert Unused(tokens', c, f) && Unused(tokens', d, f) && c != d;
  }

  /**
    One rotating transaction: the family keeps its single unused token if and only
    if the token it rotates is still unused, which the transaction does not test.
   */
  lemma CommitKeepsTipIff(s: Sys, r: RequestId, raw: string)
    requires Inv(s) && Enabled(s, RefreshCommit(r, raw)) && HasTip(s.rows.tokens, s.births, s.pending[r].familyId)
    ensures var s' := Next(s, RefreshCommit(r, raw));
      && s'.births.Keys == s'.rows.tokens.Keys
      && (HasTip(s'.rows.tokens, s'.births, s.pending[r].familyId) <==> !s.rows.tokens[s.pending[r].used].isUsed)
  {
    var used, f := s.pending[r].used, s.pending[r].familyId;
    var t, tok, birth := Sha256(raw), NewToken(s.now, f), Birth(Some(used), |s.rows.tokens|, r);
    InsertedTokens(s.rows.tokens, Some(used), t, tok);
    if s.rows.tokens[used].isUsed {
      SecondRotationBranches(s.rows.tokens, s.births, used, t, tok);
      BranchedHasNoTip(Insert(s.rows.tokens, Some(used), t, tok), s.births[t := birth], f);
    } else {
      RotationMovesTip(s.rows.tokens, s.births, used, t, tok, birth);
    }
  }

  /** The step rotates a token of the family that is already used. */
  predicate RotatesUsed(s: Sys, e: Event, f: FamilyId)
    requires Enabled(s, e)
  {
    e.RefreshCommit? && s.pending[e.r].familyId == f && s.rows.tokens[s.pending[e.r].used].isUsed
  }

  predicate NeverRotatesUsed(s: Sys, es: seq<Event>, f: FamilyId)
    requires Runnable(s, es)
    decreases |es|
  {
    es == [] || (!RotatesUsed(s, es[0], f) && NeverRotatesUsed(Next(s, es[0]), es[1..], f))
  }

  ghost predicate TipOf(s: Sys, f: FamilyId)
  {
    s.births.Keys == s.rows.tokens.Keys && HasTip(s.rows.tokens, s.births, f)
  }

  lemma OtherIssueKeepsTip(s: Sys, r: RequestId, t: Digest, from: Option<Digest>, g: FamilyId, f: FamilyId)
    requires Inv(s) && MayIssue(s.rows.tokens, t, from, g) && f != g && TipOf(s, f)
    ensures TipOf(Issue(s, r, t, from, g), f)
  {
    InsertKeepsOtherTip(s.rows.tokens, s.births, from, t, NewToken(s.now, g), Birth(from, |s.rows.tokens|, r), f);
  }

  lemma StepKeepsTipIff(s: Sys, e: Event, f: FamilyId)
    requires Inv(s) && Enabled(s, e) && TipOf(s, f)
    ensures TipOf(Next(s, e), f) <==> !RotatesUsed(s, e, f)
    ensures RotatesUsed(s, e, f) ==> Branched(Next(s, e).rows.tokens, f)
  {
    match e {
      case LoginToken(r, raw) =>
        var tip :| tip in s.rows.tokens && IsTip(s.rows.tokens, s.births, tip, f);
        OtherIssueKeepsTip(s, r, Sha256(raw), None, s.pending[r].familyId, f);
      case RefreshCommit(r, raw) =>
        var g := s.pending[r].familyId;
        if g == f {
          CommitKeepsTipIff(s, r, raw);
          if s.rows.tokens[s.pending[r].used].isUsed {
            SecondRotationBranches(s.rows.tokens, s.births, s.pending[r].used, Sha256(raw), NewToken(s.now, f));
          }
        } else {
          OtherIssueKeepsTip(s, r, Sha256(raw), Some(s.pending[r].used), g, f);
        }
      case _ =>
        assert Next(s, e).rows.tokens == s.rows.tokens && Next(s, e).births == s.births;
    }
  }

  lemma StepKeepsBranched(s: Sys, e: Event, f: FamilyId)
    requires PendingSound(s.rows.families.Keys, s.rows.tokens, s.pending)
    requires Enabled(s, e) && Branched(s.rows.tokens, f)
    ensures Branched(Next(s, e).rows.tokens, f)
  {
    match e {
      case LoginToken(r, raw) =>
        InsertKeepsBranched(s.rows.tokens, None, Sha256(raw), NewToken(s.now, s.pending[r].familyId), f);
      case RefreshCommit(r, raw) =>
        InsertKeepsBranched(s.rows.tokens, Some(s.pending[r].used), Sha256(raw),
            NewToken(s.now, s.pending[r].familyId), f);
      case _ =>
        assert Next(s, e).rows.tokens == s.rows.tokens;
    }
  }

  lemma {:induction false} BranchedForGood(s: Sys, es: seq<Event>, f: FamilyId)
    requires Inv(s) && Runnable(s, es) && Branched(s.rows.tokens, f)
    ensures Branched(Exec(s, es).rows.tokens, f)
    decreases |es|
  {
    if es != [] {
      StepKeepsInv(s, es[0]);
      StepKeepsBranched(s, es[0], f);
      BranchedForGood(Next(s, es[0]), es[1..], f);
    }
  }

  /**
    Over every interleaving: a family with one unused token keeps exactly one, its
    newest, if and only if no rotation in the run finds its token already used.
   */
  lemma {:induction false} RunKeepsTipIff(s: Sys, es: seq<Event>, f: FamilyId)
    requires Inv(s) && Runnable(s, es) && TipOf(s, f)
    ensures TipOf(Exec(s, es), f) <==> NeverRotatesUsed(s, es, f)
    decreases |es|
  {
    if es != [] {
      var s' := Next(s, es[0]);
      StepKeepsInv(s, es[0]);
      StepKeepsTipIff(s, es[0], f);
      if RotatesUsed(s, es[0], f) {
        BranchedForGood(s', es[1..], f);
        RunKeepsInv(s', es[1..]);
        BranchedHasNoTip(Exec(s', es[1..]).rows.tokens, Exec(s', es[1..]).births, f);
      } else {
        RunKeepsTipIff(s', es[1..], f);
      }
    }
  }

  // ------------------------------------------------------------------ how long a token is good

  /** The step writes a revocation of the family. */
  predicate Revokes(s: Sys, e: Event, f: FamilyId)
    requires Enabled(s, e)
  {
    match e
    case RevokeCommit(r) => s.pending[r].familyId == f
    case LogoutEverywhere(user) => f in s.rows.families && s.rows.families[f].userId == user
    case PasswordChanged(user, valid) => valid && f in s.rows.families && s.rows.families[f].userId == user
    case _ => false
  }

  predicate Rotates(s: Sys, e: Event, t: Digest)
    requires Enabled(s, e)
  {
    e.RefreshCommit? && s.pending[e.r].used == t
  }

  /** Some step of the run revokes the family or rotates the token. */
  predicate Ends(s: Sys, es: seq<Event>, t: Digest, f: FamilyId)
    requires Runnable(s, es)
    decreases |es|
  {
    es != [] && (Revokes(s, es[0], f) || Rotates(s, es[0], t) || Ends(Next(s, es[0]), es[1..], t, f))
  }

  /** The token is unused in a family that is not revoked. */
  predicate Good(rows: Rows, t: Digest)
  {
    && t in rows.tokens && !rows.tokens[t].isUsed
    && rows.tokens[t].familyId in rows.families && !rows.families[rows.tokens[t].familyId].isRevoked
  }

  lemma StepKeepsGoodIff(s: Sys, e: Event, t: Digest)
    requires Inv(s) && Enabled(s, e) && Good(s.rows, t)
    ensures Good(Next(s, e).rows, t) <==> !Revokes(s, e, s.rows.tokens[t].familyId) && !Rotates(s, e, t)
    ensures t in Next(s, e).rows.tokens && Next(s, e).rows.tokens[t].familyId == s.rows.tokens[t].familyId
    ensures Next(s, e).rows.tokens[t].expiresAt == s.rows.tokens[t].expiresAt
  {
    match e {
      case LoginToken(r, raw) =>
        InsertedTokens(s.rows.tokens, None, Sha256(raw), NewToken(s.now, s.pending[r].familyId));
      case RefreshCommit(r, raw) =>
        InsertedTokens(s.rows.tokens, Some(s.pending[r].used), Sha256(raw), NewToken(s.now, s.pending[r].familyId));
      case _ =>
    }
  }

  /** A token that is used or whose family is revoked never becomes good again. */
  lemma NotGoodForGood(s: Sys, es: seq<Event>, t: Digest)
    requires Inv(s) && Runnable(s, es) && t in s.rows.tokens && !Good(s.rows, t)
    ensures !Good(Exec(s, es).rows, t)
  {
    RunGrows(s, es);
  }

  lemma {:induction false} RunKeepsGoodIff(s: Sys, es: seq<Event>, t: Digest)
    requires Inv(s) && Runnable(s, es) && Good(s.rows, t)
    ensures Good(Exec(s, es).rows, t) <==> !Ends(s, es, t, s.rows.tokens[t].familyId)
    ensures t in Exec(s, es).rows.tokens && Exec(s, es).rows.tokens[t].expiresAt == s.rows.tokens[t].expiresAt
    decreases |es|
  {
    if es != [] {
      var s' := Next(s, es[0]);
      StepKeepsInv(s, es[0]);
      StepKeepsGoodIff(s, es[0], t);
      if Good(s'.rows, t) {
        RunKeepsGoodIff(s', es[1..], t);
      } else {
        NotGoodForGood(s', es[1..], t);
        RunGrows(s', es[1..]);
      }
    }
  }

  /**
    How long the alarm takes: after a replay was seen, and through any further steps,
    an unused token of the family is admitted if and only if it has not expired and
    no step has rotated it or written a revocation of the family.  Seeing the replay
    closes nothing; writing does.
   */
  lemma ReplayWindow(s: Sys, r: RequestId, used: string, mid: seq<Event>, unused: string)
    requires Inv(s) && Enabled(s, RefreshRead(r, used))
    requires Judge(s.rows, s.now, used) == Reused && Judge(s.rows, s.now, unused) == Admitted
    requires Runnable(Next(s, RefreshRead(r, used)), mid)
    ensures var s1 := Next(s, RefreshRead(r, used));
      var s2 := Exec(s1, mid);
      var t := Sha256(unused);
      Judge(s2.rows, s2.now, unused) == Admitted <==>
        s2.now <= s.rows.tokens[t].expiresAt && !Ends(s1, mid, t, s.rows.tokens[t].familyId)
  {
    StepKeepsInv(s, RefreshRead(r, used));
    var s1 := Next(s, RefreshRead(r, used));
    RunKeepsInv(s1, mid);
    RunKeepsGoodIff(s1, mid, Sha256(unused));
  }
}

/**
  Emergency codes of an account with a second factor: each is good for one login.
  The list is read and written back in two database calls.
 */
module RecoveryCodes {
  import opened Sequences

  /** SHA-256 as an injective constructor. */
  datatype Digest = Sha256(text: string)

  type Codes = seq<Digest>

  datatype Outcome = ByTotp | ByCode | Denied

  /** An attempt: the text after normalisation, and whether its six digits pass as a time-based code. */
  datatype Try = Try(text: string, totpValid: bool)

  function IndexOf(codes: Codes, h: Digest): (i: int)
    ensures -1 <= i < |codes|
    ensures i >= 0 ==> codes[i] == h && h !in codes[..i]
    ensures i < 0 ==> h !in codes
  {
    if codes == [] then -1
    else if codes[0] == h then 0
    else
      var i := IndexOf(codes[1..], h);
      if i < 0 then -1 else i + 1
  }

  function Spliced(codes: Codes, i: int): (codes': Codes)
    requires 0 <= i < |codes|
  {
    codes[..i] + codes[i + 1..]
  }

  function Verify(enabled: bool, codes: Codes, t: Try): (x: (Codes, Outcome))
  {
    if !enabled then (codes, Denied)
    else if t.totpValid then (codes, ByTotp)
    else
      var i := IndexOf(codes, Sha256(t.text));
      if i < 0 then (codes, Denied) else (Spliced(codes, i), ByCode)
  }

  lemma BurnTakesOne(codes: Codes, i: int)
    requires 0 <= i < |codes|
    ensures multiset(codes) == multiset(Spliced(codes, i)) + multiset{codes[i]}
  {
    assert codes == codes[..i] + [codes[i]] + codes[i + 1..];
  }

  /**
    What an attempt is answered: nothing passes while the second factor is off; a valid
    time-based code passes and leaves the list; else a code on the list passes and is
    taken off it once, and anything else is denied.
   */
  lemma VerifyDoes(enabled: bool, codes: Codes, t: Try)
    ensures var (codes', outcome) := Verify(enabled, codes, t);
      && (outcome == ByTotp <==> enabled && t.totpValid)
      && (outcome == ByCode <==> enabled && !t.totpValid && Sha256(t.text) in codes)
      && (outcome != ByCode ==> codes' == codes)
      && (outcome == ByCode ==> multiset(codes) == multiset(codes') + multiset{Sha256(t.text)})
  {
    var i := IndexOf(codes, Sha256(t.text));
    if i >= 0 {
      BurnTakesOne(codes, i);
    }
  }

  // ------------------------------------------------------------------ requests one after the other

  function Left(codes: Codes, ts: seq<Try>): (codes': Codes)
    decreases |ts|
  {
    if ts == [] then codes else Left(Verify(true, codes, ts[0]).0, ts[1..])
  }

  /** The codes by which attempts were let in, in order. */
  function Spent(codes: Codes, ts: seq<Try>): (spent: Codes)
    decreases |ts|
  {
    if ts == [] then []
    else
      var (codes', outcome) := Verify(true, codes, ts[0]);
      (if outcome.ByCode? then [Sha256(ts[0].text)] else []) + Spent(codes', ts[1..])
  }

  /** What was issued is what was spent and what is left: no code works more often than it was issued. */
  lemma {:induction false} CodesAreConserved(codes: Codes, ts: seq<Try>)
    ensures multiset(codes) == multiset(Spent(codes, ts)) + multiset(Left(codes, ts))
    decreases |ts|
  {
    if ts != [] {
      var (codes', outcome) := Verify(true, codes, ts[0]);
      CodesAreConserved(codes', ts[1..]);
      if outcome.ByCode? {
        BurnTakesOne(codes, IndexOf(codes, Sha256(ts[0].text)));
      }
    }
  }

  lemma {:induction false} DistinctCountsOne(codes: Codes, h: Digest)
    requires Distinct(codes)
    requires h in codes
    ensures multiset(codes)[h] == 1
  {
    var i := IndexOf(codes, h);
    BurnTakesOne(codes, i);
    assert h !in Spliced(codes, i);
  }

  /** With distinct codes a spent one is refused ever after, and an unspent one still works. */
  lemma SpentOnceIffGone(codes: Codes, ts: seq<Try>, text: string)
    requires Distinct(codes)
    requires Sha256(text) in codes
    ensures Verify(true, Left(codes, ts), Try(text, false)).1 ==
      (if Sha256(text) in Spent(codes, ts) then Denied else ByCode)
  {
    var h := Sha256(text);
    CodesAreConserved(codes, ts);
    DistinctCountsOne(codes, h);
    var spent, left := Spent(codes, ts), Left(codes, ts);
    assert multiset(codes)[h] == multiset(spent)[h] + multiset(left)[h];
    assert h in spent <==> multiset(spent)[h] > 0;
    assert h in left <==> multiset(left)[h] > 0;
  }

  // ------------------------------------------------------------------ requests that overlap

  /**
    A request that was let in by a code on the list it read; `at` counts the writes before
    that, and is read by no step.
   */
  datatype Reading = Reading(list: Codes, code: Digest, at: nat)

  /** `spent` is history: the codes by which requests were let in and that they burned. */
  datatype Sys = Sys(codes: Codes, pending: map<int, Reading>, spent: multiset<Digest>)

  datatype Event = Read(r: int, text: string) | Write(r: int)

  /** Attempts that no code lets in write nothing. */
  predicate Enabled(s: Sys, e: Event)
  {
    match e
    case Read(r, text) => r !in s.pending && Sha256(text) in s.codes
    case Write(r) => r in s.pending && s.pending[r].code in s.pending[r].list
  }

  function Burned(p: Reading): (codes: Codes)
    requires p.code in p.list
  {
    Spliced(p.list, IndexOf(p.list, p.code))
  }

  function Next(s: Sys, e: Event): (s': Sys)
    requires Enabled(s, e)
  {
    match e
    case Read(r, text) => s.(pending := s.pending[r := Reading(s.codes, Sha256(text), |s.spent|)])
    case Write(r) => Sys(Burned(s.pending[r]), s.pending - {r}, s.spent + multiset{s.pending[r].code})
  }

  predicate Runnable(s: Sys, es: seq<Event>)
    decreases |es|
  {
    es == [] || (Enabled(s, es[0]) && Runnable(Next(s, es[0]), es[1..]))
  }

  function Exec(s: Sys, es: seq<Event>): (s': Sys)
    requires Runnable(s, es)
    decreases |es|
  {
    if es == [] then s else Exec(Next(s, es[0]), es[1..])
  }

  /** Undisturbed, the two steps are the request. */
  lemma StepsAreVerify(s: Sys, r: int, text: string)
    requires Enabled(s, Read(r, text))
    ensures Enabled(Next(s, Read(r, text)), Write(r))
    ensures Next(Next(s, Read(r, text)), Write(r)) ==
      Sys(Verify(true, s.codes, Try(text, false)).0, s.pending, s.spent + multiset{Sha256(text)})
    ensures Verify(true, s.codes, Try(text, false)).1 == ByCode
  {
  }

  lemma BurnedKeepsOthers(p: Reading, h: Digest)
    requires p.code in p.list && Distinct(p.list)
    ensures h in Burned(p) <==> h in p.list && h != p.code
  {
    var i := IndexOf(p.list, p.code);
    if h in p.list && h != p.code {
      var k :| 0 <= k < |p.list| && p.list[k] == h;
      assert Burned(p)[if k < i then k else k - 1] == h;
    }
  }

  /**
    A write puts a code back that had left the list if and only if some code on the
    list it read, other than its own, has left the list since.
   */
  lemma WriteGivesBackIff(s: Sys, r: int)
    requires Enabled(s, Write(r)) && Distinct(s.pending[r].list)
    ensures var p := s.pending[r];
      (exists h :: h in Next(s, Write(r)).codes && h !in s.codes) <==>
        exists h :: h in p.list && h != p.code && h !in s.codes
  {
    var p := s.pending[r];
    forall h
      ensures h in Burned(p) <==> h in p.list && h != p.code
    {
      BurnedKeepsOthers(p, h);
    }
  }

  /** The codes issued are those spent and those left. */
  predicate Conserved(issued: Codes, s: Sys)
  {
    multiset(issued) == s.spent + multiset(s.codes)
  }

  /** The step writes nothing, or finds the list that its request read. */
  predicate Undisturbed(s: Sys, e: Event)
    requires Enabled(s, e)
  {
    e.Write? ==> s.codes == s.pending[e.r].list
  }

  predicate AllUndisturbed(s: Sys, es: seq<Event>)
    requires Runnable(s, es)
    decreases |es|
  {
    es == [] || (Undisturbed(s, es[0]) && AllUndisturbed(Next(s, es[0]), es[1..]))
  }

  /** No more codes are missing than were spent, on the list and on every list that was read. */
  predicate NoneMissing(issued: Codes, s: Sys)
  {
    && |s.codes| + |s.spent| >= |issued|
    && (forall r :: r in s.pending ==>
      s.pending[r].at <= |s.spent| && |s.pending[r].list| + s.pending[r].at >= |issued|)
    && (forall r :: r in s.pending && s.pending[r].at == |s.spent| ==> s.pending[r].list == s.codes)
  }

  /** More codes are left than have not been spent. */
  predicate Surplus(issued: Codes, s: Sys)
  {
    |s.codes| + |s.spent| > |issued|
  }

  lemma StepKeepsNoneMissing(issued: Codes, s: Sys, e: Event)
    requires NoneMissing(issued, s) && Enabled(s, e)
    ensures NoneMissing(issued, Next(s, e))
    ensures Surplus(issued, s) || !Undisturbed(s, e) ==> Surplus(issued, Next(s, e))
  {
  }

  lemma UndisturbedConserves(issued: Codes, s: Sys, e: Event)
    requires Conserved(issued, s) && Enabled(s, e) && Undisturbed(s, e)
    ensures Conserved(issued, Next(s, e))
  {
    if e.Write? {
      BurnTakesOne(s.codes, IndexOf(s.codes, s.pending[e.r].code));
    }
  }

  lemma {:induction false} SurplusForGood(issued: Codes, s: Sys, es: seq<Event>)
    requires NoneMissing(issued, s) && Surplus(issued, s) && Runnable(s, es)
    ensures Surplus(issued, Exec(s, es))
    decreases |es|
  {
    if es != [] {
      StepKeepsNoneMissing(issued, s, es[0]);
      SurplusForGood(issued, Next(s, es[0]), es[1..]);
    }
  }

  lemma ConservedHasNoSurplus(issued: Codes, s: Sys)
    requires Conserved(issued, s)
    ensures !Surplus(issued, s)
  {
    assert |multiset(issued)| == |s.spent| + |multiset(s.codes)|;
  }

  lemma {:induction false} ConservedFromIff(issued: Codes, s: Sys, es: seq<Event>)
    requires NoneMissing(issued, s) && Conserved(issued, s) && Runnable(s, es)
    ensures Conserved(issued, Exec(s, es)) <==> AllUndisturbed(s, es)
    decreases |es|
  {
    if es != [] {
      var s' := Next(s, es[0]);
      StepKeepsNoneMissing(issued, s, es[0]);
      if Undisturbed(s, es[0]) {
        UndisturbedConserves(issued, s, es[0]);
        ConservedFromIff(issued, s', es[1..]);
      } else {
        SurplusForGood(issued, s', es[1..]);
        if Conserved(issued, Exec(s', es[1..])) {
          ConservedHasNoSurplus(issued, Exec(s', es[1..]));
        }
      }
    }
  }

  /**
    Over every interleaving the codes issued are the codes spent plus the codes left
    if and only if every write finds the list that its request read.
   */
  lemma OverlapConservesIff(issued: Codes, es: seq<Event>)
    requires Runnable(Sys(issued, map[], multiset{}), es)
    ensures Conserved(issued, Exec(Sys(issued, map[], multiset{}), es)) <==>
      AllUndisturbed(Sys(issued, map[], multiset{}), es)
  {
    ConservedFromIff(issued, Sys(issued, map[], multiset{}), es);
  }

  /** Two requests let in by two codes, one inside the other, leave the first code on the list, where it works again. */
  lemma OverlapRestoresCode(codes: Codes, x: string, y: string)
    requires Distinct(codes) && Sha256(x) in codes && Sha256(y) in codes && x != y
    ensures var s0 := Sys(codes, map[], multiset{});
      && Enabled(s0, Read(1, x)) && Enabled(Next(s0, Read(1, x)), Read(2, y))
      && var s2 := Next(Next(s0, Read(1, x)), Read(2, y));
      && Enabled(s2, Write(1)) && Enabled(Next(s2, Write(1)), Write(2))
      && Sha256(x) !in Next(s2, Write(1)).codes
      && Enabled(Next(Next(s2, Write(1)), Write(2)), Read(3, x))
  {
    BurnedKeepsOthers(Reading(codes, Sha256(x), 0), Sha256(x));
    BurnedKeepsOthers(Reading(codes, Sha256(y), 0), Sha256(x));
  }

  class TwoFactorService {
    var enabled: bool
    var codes: Codes

    constructor (codes: Codes)
      ensures enabled && this.codes == codes
    {
      enabled := true;
      this.codes := codes;
    }

    method Verify2FAToken(t: Try) returns (valid: bool)
      modifies this`codes
      ensures codes == Verify(enabled, old(codes), t).0
      ensures valid <==> !Verify(enabled, old(codes), t).1.Denied?
    {
      if !enabled {
        return false;
      }
      if t.totpValid {
        return true;
      }
      var codeIndex := IndexOf(codes, Sha256(t.text));
      if codeIndex != -1 {
        codes := codes[..codeIndex] + codes[codeIndex + 1..];
        return true;
      }
      valid := false;
    }
  }
}

/**
  The limiter with its calls apart: a request is let through by the check, a failure
  is counted later, and its locks are set later still, with other requests in between.
 */
module LimiterOverlap {
  import opened Optional
  import opened TimedStore
  import opened RateLimiter

  datatype Open = Open(flow: Flow, user: Id, ip: Id)

  /** A request that was let in, or one whose failure was counted and whose locks are not set yet. */
  datatype Pending = LetIn(q: Open) | Tallied(q: Open, attempts: nat)

  datatype Sys = Sys(store: Store, pending: map<int, Pending>)

  datatype Event =
    | Check(r: int, request: Open, heldInMemory: bool)
    | CountFailure(r: int)
    | SetLocks(r: int)
    | Finish(r: int, right: bool)

  datatype Step = Step(now: int, event: Event)

  predicate Enabled(s: Sys, e: Event)
  {
    match e
    case Check(r, _, _) => r !in s.pending
    case SetLocks(r) => r in s.pending && s.pending[r].Tallied?
    case _ => e.r in s.pending && s.pending[e.r].LetIn?
  }

  function Next(s: Sys, step: Step): (s': Sys)
    requires Enabled(s, step.event)
  {
    match step.event
    case Check(r, q, held) =>
      if Wait(s.store, q.flow, q.user, q.ip, step.now) > 0 || held then s
      else s.(pending := s.pending[r := LetIn(q)])
    case CountFailure(r) => (
      var q := s.pending[r].q;
      var (store, attempts) := Tally(s.store, q.flow, q.user, q.ip, step.now);
      Sys(store, s.pending[r := Tallied(q, attempts)]))
    case SetLocks(r) => (
      var q := s.pending[r].q;
      Sys(Locked(s.store, q.flow, q.user, q.ip, s.pending[r].attempts, step.now), s.pending - {r}))
    case Finish(r, right) => (
      var q := s.pending[r].q;
      Sys(if right then Succeed(s.store, q.flow, q.user, q.ip) else s.store, s.pending - {r}))
  }

  predicate Runnable(s: Sys, steps: seq<Step>)
    decreases |steps|
  {
    steps == [] || (Enabled(s, steps[0].event) && Runnable(Next(s, steps[0]), steps[1..]))
  }

  function Exec(s: Sys, steps: seq<Step>): (s': Sys)
    requires Runnable(s, steps)
    decreases |steps|
  {
    if steps == [] then s else Exec(Next(s, steps[0]), steps[1..])
  }

  predicate Ordered(start: int, steps: seq<Step>)
    decreases |steps|
  {
    steps == [] || (start <= steps[0].now && Ordered(steps[0].now, steps[1..]))
  }

  /** With nothing in between, the steps are one whole request. */
  lemma StepsAreAttempt(sys: Sys, r: int, t: Try)
    requires r !in sys.pending
    ensures var q := Open(t.flow, t.user, t.ip);
      var checked := Next(sys, Step(t.now, Check(r, q, t.heldInMemory)));
      var after := Sys(Attempt(sys.store, t).0, sys.pending);
      && (Attempt(sys.store, t).1 == Refused <==> r !in checked.pending)
      && (r !in checked.pending ==> checked == after)
      && (r in checked.pending ==>
            match t.outcome
            case Wrong =>
              && Enabled(checked, CountFailure(r))
              && var counted := Next(checked, Step(t.now, CountFailure(r)));
              Enabled(counted, SetLocks(r)) && Next(counted, Step(t.now, SetLocks(r))) == after
            case Right => Enabled(checked, Finish(r, true)) && Next(checked, Step(t.now, Finish(r, true))) == after
            case Undecided =>
              Enabled(checked, Finish(r, false)) && Next(checked, Step(t.now, Finish(r, false))) == after)
  {
    var q := Open(t.flow, t.user, t.ip);
    assert (sys.pending[r := LetIn(q)]) - {r} == sys.pending;
    if t.outcome == Wrong && Attempt(sys.store, t).1 != Refused {
      var attempts := Tally(sys.store, t.flow, t.user, t.ip, t.now).1;
      assert (sys.pending[r := LetIn(q)][r := Tallied(q, attempts)]) - {r} == sys.pending;
    }
  }

  // ------------------------------------------------------------------ requests under way

  predicate Concerns(q: Open, s: Scope)
  {
    Covers(q.flow, q.user, q.ip, s)
  }

  predicate Sets(p: Pending)
  {
    p.Tallied? && LockSeconds(p.q.flow, p.attempts) > 0
  }

  function Waiting(pending: map<int, Pending>, s: Scope): (rs: set<int>)
  {
    set r | r in pending && Concerns(pending[r].q, s)
  }

  function Entering(pending: map<int, Pending>, s: Scope): (rs: set<int>)
  {
    set r | r in pending && Concerns(pending[r].q, s) && pending[r].LetIn?
  }

  function Locking(pending: map<int, Pending>, s: Scope): (rs: set<int>)
  {
    set r | r in pending && Concerns(pending[r].q, s) && Sets(pending[r])
  }

  /** At no time do more than `k` requests of the scope overlap. */
  predicate AtMost(sys: Sys, steps: seq<Step>, s: Scope, k: nat)
    requires Runnable(sys, steps)
    decreases |steps|
  {
    |Waiting(sys.pending, s)| <= k && (steps != [] ==> AtMost(Next(sys, steps[0]), steps[1..], s, k))
  }

  function One(b: bool): (n: nat)
  {
    if b then 1 else 0
  }

  lemma EnteringGrows(pending: map<int, Pending>, r: int, p: Pending, s: Scope)
    requires r !in pending
    ensures |Entering(pending[r := p], s)| == |Entering(pending, s)| + One(Concerns(p.q, s) && p.LetIn?)
  {
    var before, after := Entering(pending, s), Entering(pending[r := p], s);
    assert after == if Concerns(p.q, s) && p.LetIn? then before + {r} else before;
  }

  lemma LockingGrows(pending: map<int, Pending>, r: int, p: Pending, s: Scope)
    requires r !in pending
    ensures |Locking(pending[r := p], s)| == |Locking(pending, s)| + One(Concerns(p.q, s) && Sets(p))
  {
    var before, after := Locking(pending, s), Locking(pending[r := p], s);
    assert after == if Concerns(p.q, s) && Sets(p) then before + {r} else before;
  }

  lemma SizesGrow(pending: map<int, Pending>, r: int, p: Pending, s: Scope)
    requires r !in pending
    ensures |Entering(pending[r := p], s)| == |Entering(pending, s)| + One(Concerns(p.q, s) && p.LetIn?)
    ensures |Locking(pending[r := p], s)| == |Locking(pending, s)| + One(Concerns(p.q, s) && Sets(p))
  {
    EnteringGrows(pending, r, p, s);
    LockingGrows(pending, r, p, s);
  }

  lemma SizesShrink(pending: map<int, Pending>, r: int, s: Scope)
    requires r in pending
    ensures |Entering(pending, s)| ==
      |Entering(pending - {r}, s)| + One(Concerns(pending[r].q, s) && pending[r].LetIn?)
    ensures |Locking(pending, s)| == |Locking(pending - {r}, s)| + One(Concerns(pending[r].q, s) && Sets(pending[r]))
  {
    SizesGrow(pending - {r}, r, pending[r], s);
    assert (pending - {r})[r := pending[r]] == pending;
  }

  lemma SizesChange(pending: map<int, Pending>, r: int, p: Pending, s: Scope)
    requires r in pending && pending[r].LetIn? && p.Tallied? && p.q == pending[r].q
    ensures |Entering(pending, s)| == |Entering(pending[r := p], s)| + One(Concerns(p.q, s))
    ensures |Locking(pending[r := p], s)| == |Locking(pending, s)| + One(Concerns(p.q, s) && Sets(p))
  {
    SizesShrink(pending, r, s);
    SizesGrow(pending - {r}, r, p, s);
    assert (pending - {r})[r := p] == pending[r := p];
  }

  lemma SubsetSize(a: set<int>, b: set<int>)
    requires a <= b
    ensures |a| <= |b|
  {
    assert b == a + (b - a);
  }

  lemma SizesFit(pending: map<int, Pending>, s: Scope)
    ensures |Entering(pending, s)| + |Locking(pending, s)| <= |Waiting(pending, s)|
  {
    var entering, locking := Entering(pending, s), Locking(pending, s);
    forall r | r in entering
      ensures r !in locking
    {
      assert pending[r].LetIn?;
    }
    SubsetSize(entering + locking, Waiting(pending, s));
  }

  // ------------------------------------------------------------------ the bound

  /**
    The most failures a counter can hold when at most `k` requests overlap; with one it is
    the cap of whole requests.
   */
  function OverlapCap(flow: Flow, k: nat): (n: nat)
    ensures k == 1 ==> n == Cap(flow)
  {
    if flow == Login then 4 + 2 * k else 2 + k
  }

  /**
    A login counter with `p` requests let in and `c` about to set a lock.  It has counted
    fewer than five; or every failure from the fifth on has yet to set its lock; or the
    first of them did, and holds new requests off until 300 seconds before the window
    ends; or that time has come, and at most `k` more got in; or one of those set its
    lock, which outlasts the window.
   */
  predicate LoginGuarded(n: nat, end: int, lock: Option<int>, p: nat, c: nat, k: nat, now: int)
  {
    || n <= 4 + c
    || (lock.Some? && lock.value >= end - 300 && now < lock.value && n + p <= 4 + k)
    || (now >= end - 300 && n <= 4 + k + c)
    || (now >= end - 300 && lock.Some? && lock.value >= end && n <= 4 + 2 * k && (now < end ==> n + p <= 4 + 2 * k))
  }

  /** For second factors every lock outlasts the window. */
  predicate TfaGuarded(n: nat, end: int, lock: Option<int>, p: nat, c: nat, k: nat, now: int)
  {
    || n <= 2 + c
    || (lock.Some? && lock.value >= end && n <= 2 + k && (now < end ==> n + p <= 2 + k))
  }

  predicate CounterGuarded(s: Scope, counter: Option<Entry<string>>, lock: Option<Entry<string>>, p: nat, c: nat,
      k: nat, now: int)
  {
    && (lock.Some? ==> lock.value.expiresAt.Some?)
    && (counter.Some? ==>
      && counter.value.cell.Num? && counter.value.expiresAt.Some?
      && counter.value.expiresAt.value <= now + Window(s.flow)
      && var n, end := counter.value.cell.count, counter.value.expiresAt.value;
      if s.flow == Login then LoginGuarded(n, end, LockEnd(lock), p, c, k, now)
      else TfaGuarded(n, end, LockEnd(lock), p, c, k, now))
  }

  /** Time passing keeps it. */
  lemma GuardedLater(s: Scope, counter: Option<Entry<string>>, lock: Option<Entry<string>>, p: nat, c: nat, k: nat,
      now: int, later: int)
    requires CounterGuarded(s, counter, lock, p, c, k, now) && now <= later
    ensures CounterGuarded(s, counter, lock, p, c, k, later)
  {
  }

  /** A request let in while the lock is not in force keeps it. */
  lemma GuardedByCheck(s: Scope, counter: Option<Entry<string>>, lock: Option<Entry<string>>, p: nat, c: nat, k: nat,
      now: int)
    requires CounterGuarded(s, counter, lock, p, c, k, now) && Free(lock, now)
    ensures CounterGuarded(s, counter, lock, p + 1, c, k, now)
  {
  }

  /** A request that ends without a failure keeps it. */
  lemma GuardedByFewer(s: Scope, counter: Option<Entry<string>>, lock: Option<Entry<string>>, p: nat, c: nat, k: nat,
      now: int)
    requires CounterGuarded(s, counter, lock, p, c, k, now) && p > 0
    ensures CounterGuarded(s, counter, lock, p - 1, c, k, now)
  {
  }

  /** A failure that is counted keeps it. */
  lemma GuardedByCount(s: Scope, counter: Option<Entry<string>>, lock: Option<Entry<string>>, p: nat, c: nat, k: nat,
      attempts: nat, now: int)
    requires CounterGuarded(s, counter, lock, p, c, k, now) && p > 0
    requires Counted(Live(counter, now), Window(s.flow), now).1 <= attempts
    ensures CounterGuarded(s, Some(Counted(Live(counter, now), Window(s.flow), now).0), lock, p - 1,
        c + One(LockSeconds(s.flow, attempts) > 0), k, now)
  {
  }

  /** Locks that are set keep it, by one of at most `k` requests under way. */
  lemma GuardedByLocks(s: Scope, counter: Option<Entry<string>>, lock: Option<Entry<string>>, p: nat, c: nat, k: nat,
      attempts: nat, now: int)
    requires CounterGuarded(s, counter, lock, p, c, k, now) && p + c <= k
    requires LockSeconds(s.flow, attempts) > 0 && c > 0
    ensures CounterGuarded(s, counter, NewLock(s.flow, attempts, now), p, c - 1, k, now)
  {
  }

  // ------------------------------------------------------------------ runs

  predicate ScopeGuarded(sys: Sys, s: Scope, k: nat, now: int)
  {
    CounterGuarded(s, EntryAt(sys.store, Attempts(s)), EntryAt(sys.store, Lock(s)),
      |Entering(sys.pending, s)|, |Locking(sys.pending, s)|, k, now)
  }

  ghost predicate AllWellKept(d: Store)
  {
    forall s: Scope :: WellKept(d, s)
  }

  lemma TallyAt(d: Store, q: Open, now: int, s: Scope)
    requires AllWellKept(d)
    ensures var (d', attempts) := Tally(d, q.flow, q.user, q.ip, now);
      && WellKept(d, s)
      && EntryAt(d', Lock(s)) == EntryAt(d, Lock(s))
      && if Concerns(q, s) then
        NextCount(d, s, now).1 <= attempts && EntryAt(d', Attempts(s)) == Some(NextCount(d, s, now).0)
      else EntryAt(d', Attempts(s)) == EntryAt(d, Attempts(s))
  {
    assert WellKept(d, s);
    assert WellKept(d, User(q.flow, q.user)) && WellKept(d, Address(q.flow, q.ip));
    FailWrites(d, q.flow, q.user, q.ip, now);
  }

  lemma LockedAt(d: Store, q: Open, attempts: nat, now: int, s: Scope)
    ensures var d' := Locked(d, q.flow, q.user, q.ip, attempts, now);
      && EntryAt(d', Attempts(s)) == EntryAt(d, Attempts(s))
      && EntryAt(d', Lock(s)) ==
        if Concerns(q, s) then OrElse(NewLock(s.flow, attempts, now), EntryAt(d, Lock(s))) else EntryAt(d, Lock(s))
  {
  }

  lemma StepKeepsWell(sys: Sys, step: Step)
    requires AllWellKept(sys.store) && Enabled(sys, step.event)
    ensures AllWellKept(Next(sys, step).store)
  {
    var d' := Next(sys, step).store;
    forall s: Scope
      ensures WellKept(d', s)
    {
      assert WellKept(sys.store, s);
      if step.event.CountFailure? {
        TallyAt(sys.store, sys.pending[step.event.r].q, step.now, s);
        assert EntryAt(d', Attempts(s)).Some? ==> EntryAt(d', Attempts(s)).value == d'[Attempts(s)];
        assert EntryAt(d', Lock(s)).Some? ==> EntryAt(d', Lock(s)).value == d'[Lock(s)];
      } else if step.event.SetLocks? {
        var p := sys.pending[step.event.r];
        LockedAt(sys.store, p.q, p.attempts, step.now, s);
        assert EntryAt(d', Attempts(s)).Some? ==> EntryAt(d', Attempts(s)).value == d'[Attempts(s)];
        assert EntryAt(d', Lock(s)).Some? ==> EntryAt(d', Lock(s)).value == d'[Lock(s)];
      }
    }
  }

  lemma CheckKeepsGuarded(sys: Sys, step: Step, s: Scope, k: nat)
    requires ScopeGuarded(sys, s, k, step.now) && Enabled(sys, step.event) && step.event.Check? && Checked(s)
    ensures ScopeGuarded(Next(sys, step), s, k, step.now)
  {
    var q := step.event.request;
    if Next(sys, step) != sys {
      SizesGrow(sys.pending, step.event.r, LetIn(q), s);
      if Concerns(q, s) {
        AllowedMeansFree(sys.store, q.flow, q.user, q.ip, step.now);
        GuardedByCheck(s, EntryAt(sys.store, Attempts(s)), EntryAt(sys.store, Lock(s)),
            |Entering(sys.pending, s)|, |Locking(sys.pending, s)|, k, step.now);
      }
    }
  }

  lemma CountKeepsGuarded(sys: Sys, step: Step, s: Scope, k: nat)
    requires AllWellKept(sys.store) && ScopeGuarded(sys, s, k, step.now)
    requires Enabled(sys, step.event) && step.event.CountFailure?
    ensures ScopeGuarded(Next(sys, step), s, k, step.now)
  {
    var q := sys.pending[step.event.r].q;
    var attempts := Tally(sys.store, q.flow, q.user, q.ip, step.now).1;
    TallyAt(sys.store, q, step.now, s);
    SizesChange(sys.pending, step.event.r, Tallied(q, attempts), s);
    if Concerns(q, s) {
      GuardedByCount(s, EntryAt(sys.store, Attempts(s)), EntryAt(sys.store, Lock(s)),
          |Entering(sys.pending, s)|, |Locking(sys.pending, s)|, k, attempts, step.now);
    }
  }

  lemma LocksKeepGuarded(sys: Sys, step: Step, s: Scope, k: nat)
    requires ScopeGuarded(sys, s, k, step.now) && |Waiting(sys.pending, s)| <= k
    requires Enabled(sys, step.event) && step.event.SetLocks?
    ensures ScopeGuarded(Next(sys, step), s, k, step.now)
  {
    var p := sys.pending[step.event.r];
    LockedAt(sys.store, p.q, p.attempts, step.now, s);
    SizesShrink(sys.pending, step.event.r, s);
    SizesFit(sys.pending, s);
    if Concerns(p.q, s) && Sets(p) {
      GuardedByLocks(s, EntryAt(sys.store, Attempts(s)), EntryAt(sys.store, Lock(s)),
          |Entering(sys.pending, s)|, |Locking(sys.pending, s)|, k, p.attempts, step.now);
    }
  }

  lemma FinishKeepsGuarded(sys: Sys, step: Step, s: Scope, k: nat)
    requires ScopeGuarded(sys, s, k, step.now) && Enabled(sys, step.event) && step.event.Finish?
    ensures ScopeGuarded(Next(sys, step), s, k, step.now)
  {
    var q := sys.pending[step.event.r].q;
    SizesShrink(sys.pending, step.event.r, s);
    if Concerns(q, s) && !step.event.right {
      GuardedByFewer(s, EntryAt(sys.store, Attempts(s)), EntryAt(sys.store, Lock(s)),
          |Entering(sys.pending, s)|, |Locking(sys.pending, s)|, k, step.now);
    }
  }

  lemma {:induction false} RunKeepsGuarded(sys: Sys, steps: seq<Step>, s: Scope, k: nat, start: int) returns (end: int)
    requires Runnable(sys, steps) && Ordered(start, steps) && AtMost(sys, steps, s, k) && Checked(s)
    requires AllWellKept(sys.store) && ScopeGuarded(sys, s, k, start)
    ensures ScopeGuarded(Exec(sys, steps), s, k, end) && |Waiting(Exec(sys, steps).pending, s)| <= k
    decreases |steps|
  {
    if steps == [] {
      end := start;
    } else {
      var step := steps[0];
      GuardedLater(s, EntryAt(sys.store, Attempts(s)), EntryAt(sys.store, Lock(s)),
          |Entering(sys.pending, s)|, |Locking(sys.pending, s)|, k, start, step.now);
      StepKeepsWell(sys, step);
      match step.event {
        case Check(_, _, _) => CheckKeepsGuarded(sys, step, s, k);
        case CountFailure(_) => CountKeepsGuarded(sys, step, s, k);
        case SetLocks(_) => LocksKeepGuarded(sys, step, s, k);
        case Finish(_, _) => FinishKeepsGuarded(sys, step, s, k);
      }
      end := RunKeepsGuarded(Next(sys, step), steps[1..], s, k, step.now);
    }
  }

  const INIT := Sys(map[], map[])

  /**
    For every run in which at most `k` requests of a checked scope overlap, its counter
    stays within 2 + k for second factors and 4 + 2k for logins.
   */
  lemma CountersUnderOverlap(steps: seq<Step>, s: Scope, k: nat, start: int)
    requires Runnable(INIT, steps) && Ordered(start, steps) && AtMost(INIT, steps, s, k) && Checked(s) && k > 0
    ensures Count(Exec(INIT, steps).store, s) <= OverlapCap(s.flow, k)
  {
    var end := RunKeepsGuarded(INIT, steps, s, k, start);
    SizesFit(Exec(INIT, steps).pending, s);
  }

  // ------------------------------------------------------------------ when a lock is cut short

  /** The scope's lock is there until `until` at least. */
  predicate HoldsUntil(d: Store, s: Scope, until: int)
  {
    LockEnd(EntryAt(d, Lock(s))).Some? && LockEnd(EntryAt(d, Lock(s))).value >= until
  }

  /** The step sets the scope's lock to an earlier time, or lifts it after a success. */
  predicate Undercuts(sys: Sys, step: Step, s: Scope, until: int)
    requires Enabled(sys, step.event)
  {
    match step.event
    case SetLocks(r) =>
      && Concerns(sys.pending[r].q, s) && Sets(sys.pending[r])
      && step.now + LockSeconds(s.flow, sys.pending[r].attempts) < until
    case Finish(r, right) => right && Concerns(sys.pending[r].q, s)
    case _ => false
  }

  predicate NeverUndercuts(sys: Sys, steps: seq<Step>, s: Scope, until: int)
    requires Runnable(sys, steps)
    decreases |steps|
  {
    steps == [] || (!Undercuts(sys, steps[0], s, until) && NeverUndercuts(Next(sys, steps[0]), steps[1..], s, until))
  }

  predicate HoldsThroughout(sys: Sys, steps: seq<Step>, s: Scope, until: int)
    requires Runnable(sys, steps)
    decreases |steps|
  {
    && HoldsUntil(sys.store, s, until)
    && (steps != [] ==> HoldsThroughout(Next(sys, steps[0]), steps[1..], s, until))
  }

  lemma StepHoldsIff(sys: Sys, step: Step, s: Scope, until: int)
    requires AllWellKept(sys.store) && HoldsUntil(sys.store, s, until) && Enabled(sys, step.event)
    ensures HoldsUntil(Next(sys, step).store, s, until) <==> !Undercuts(sys, step, s, until)
  {
    match step.event
    case Check(_, _, _) =>
    case CountFailure(r) => TallyAt(sys.store, sys.pending[r].q, step.now, s);
    case SetLocks(r) => LockedAt(sys.store, sys.pending[r].q, sys.pending[r].attempts, step.now, s);
    case Finish(_, _) =>
  }

  /**
    A lock holds through a run if and only if no request that is under way meanwhile
    succeeds or sets a shorter lock that ends earlier.
   */
  lemma {:induction false} LockHoldsIff(sys: Sys, steps: seq<Step>, s: Scope, until: int)
    requires AllWellKept(sys.store) && HoldsUntil(sys.store, s, until) && Runnable(sys, steps)
    ensures HoldsThroughout(sys, steps, s, until) <==> NeverUndercuts(sys, steps, s, until)
    decreases |steps|
  {
    if steps != [] {
      StepKeepsWell(sys, steps[0]);
      StepHoldsIff(sys, steps[0], s, until);
      if HoldsUntil(Next(sys, steps[0]).store, s, until) {
        LockHoldsIff(Next(sys, steps[0]), steps[1..], s, until);
      }
    }
  }

  // ------------------------------------------------------------------ the bound is reached

  /**
    Like requests under way: those below `m` let in, the rest counted, the newest first
    and from `base` on.  Both counters stand at `n`, and both locks end at `lock`, if
    there are any.
   */
  ghost predicate Stage(sys: Sys, q: Open, n: nat, a: nat, m: nat, b: nat, base: nat, lock: Option<int>, windowEnd: int)
  {
    var u, w := User(q.flow, q.user), Address(q.flow, q.ip);
    && a <= m <= b
    && (forall r :: r in sys.pending <==> a <= r < b)
    && (forall r :: r in sys.pending ==> sys.pending[r] == if r < m then LetIn(q) else Tallied(q, base + b - r))
    && (forall s :: s == u || s == w ==>
          && EntryAt(sys.store, Attempts(s)) == (if n == 0 then None else Some(Entry(Num(n), Some(windowEnd))))
          && EntryAt(sys.store, Lock(s)) == (if lock.None? then None else Some(Entry(Doc("locked"), lock))))
  }

  function Range(p: nat): (rs: set<int>)
  {
    if p == 0 then {} else Range(p - 1) + {p - 1}
  }

  lemma {:induction false} RangeSize(p: nat)
    ensures |Range(p)| == p
    ensures forall r :: r in Range(p) <==> 0 <= r < p
  {
    if p > 0 {
      RangeSize(p - 1);
    }
  }

  lemma StageLoad(sys: Sys, q: Open, n: nat, a: nat, m: nat, b: nat, base: nat, lock: Option<int>, windowEnd: int,
      s: Scope)
    requires Stage(sys, q, n, a, m, b, base, lock, windowEnd)
    ensures |Waiting(sys.pending, s)| <= b
  {
    var rs := Waiting(sys.pending, s);
    RangeSize(b);
    forall r | r in rs
      ensures r in Range(b)
    {
      assert r in sys.pending;
    }
    SubsetSize(rs, Range(b));
  }

  lemma StageCheck(sys: Sys, q: Open, n: nat, b: nat, base: nat, lock: Option<int>, windowEnd: int, now: int)
    requires Stage(sys, q, n, 0, b, b, base, lock, windowEnd) && (lock.Some? ==> lock.value <= now)
    ensures Enabled(sys, Check(b, q, false))
    ensures Stage(Next(sys, Step(now, Check(b, q, false))), q, n, 0, b + 1, b + 1, base, lock, windowEnd)
  {
    assert b !in sys.pending;
    var u, w := User(q.flow, q.user), Address(q.flow, q.ip);
    assert Ttl(sys.store, Lock(u), now) <= 0 && Ttl(sys.store, Lock(w), now) <= 0;
  }

  lemma StageCount(sys: Sys, q: Open, n: nat, m: nat, b: nat, base: nat, lock: Option<int>, windowEnd: int, now: int)
    requires Stage(sys, q, n, 0, m, b, base, lock, windowEnd) && m > 0 && n == base + b - m && now < windowEnd
    requires n == 0 ==> windowEnd == now + Window(q.flow)
    ensures Enabled(sys, CountFailure(m - 1))
    ensures Stage(Next(sys, Step(now, CountFailure(m - 1))), q, n + 1, 0, m - 1, b, base, lock, windowEnd)
  {
    var u, w := User(q.flow, q.user), Address(q.flow, q.ip);
    assert m - 1 in sys.pending;
    assert WellKept(sys.store, u) && WellKept(sys.store, w);
    FailWrites(sys.store, q.flow, q.user, q.ip, now);
    assert NextCount(sys.store, u, now) == (Entry(Num(n + 1), Some(windowEnd)), n + 1);
    assert NextCount(sys.store, w, now) == (Entry(Num(n + 1), Some(windowEnd)), n + 1);
  }

  /** The lock after one more is set. */
  function LockAfter(flow: Flow, attempts: nat, lock: Option<int>, now: int): (lock': Option<int>)
  {
    if LockSeconds(flow, attempts) == 0 then lock else Some(now + LockSeconds(flow, attempts))
  }

  lemma StageLocks(sys: Sys, q: Open, n: nat, a: nat, b: nat, base: nat, lock: Option<int>, windowEnd: int, now: int)
    requires Stage(sys, q, n, a, a, b, base, lock, windowEnd) && a < b
    ensures Enabled(sys, SetLocks(a))
    ensures Stage(Next(sys, Step(now, SetLocks(a))), q, n, a + 1, a + 1, b, base,
        LockAfter(q.flow, base + b - a, lock, now), windowEnd)
  {
    assert a in sys.pending;
    var u, w := User(q.flow, q.user), Address(q.flow, q.ip);
    LockedAt(sys.store, q, base + b - a, now, u);
    LockedAt(sys.store, q, base + b - a, now, w);
  }

  /** A run from `sys` to `end` between two times, with at most `k` requests of the scope under way. */
  predicate Goes(sys: Sys, steps: seq<Step>, end: Sys, s: Scope, k: nat, start: int, stop: int)
  {
    && Runnable(sys, steps) && Exec(sys, steps) == end && AtMost(sys, steps, s, k)
    && start <= stop && Ordered(start, steps) && forall i :: 0 <= i < |steps| ==> steps[i].now <= stop
  }

  lemma OrderedEarlier(steps: seq<Step>, start: int, t: int)
    requires start <= t && Ordered(t, steps)
    ensures Ordered(start, steps)
  {
  }

  lemma {:induction false} Join(sys: Sys, a: seq<Step>, mid: Sys, b: seq<Step>, end: Sys, s: Scope, k: nat,
      start: int, t: int, stop: int)
    requires Goes(sys, a, mid, s, k, start, t) && Goes(mid, b, end, s, k, t, stop)
    ensures Goes(sys, a + b, end, s, k, start, stop)
    decreases |a|
  {
    if a == [] {
      assert a + b == b;
      OrderedEarlier(b, start, t);
    } else {
      assert (a + b)[1..] == a[1..] + b && (a + b)[0] == a[0];
      Join(Next(sys, a[0]), a[1..], mid, b, end, s, k, a[0].now, t, stop);
    }
  }

  /** A first step and the run after it. */
  lemma StepFirst(sys: Sys, step: Step, rest: seq<Step>, end: Sys, s: Scope, k: nat, now: int)
    requires Enabled(sys, step.event) && step.now == now && |Waiting(sys.pending, s)| <= k
    requires Goes(Next(sys, step), rest, end, s, k, now, now)
    ensures Goes(sys, [step] + rest, end, s, k, now, now)
  {
    assert ([step] + rest)[1..] == rest;
  }

  lemma {:induction false} Checks(sys: Sys, q: Open, n: nat, b: nat, more: nat, base: nat, lock: Option<int>,
      windowEnd: int, now: int, s: Scope, k: nat)
    returns (steps: seq<Step>, end: Sys)
    requires Stage(sys, q, n, 0, b, b, base, lock, windowEnd) && (lock.Some? ==> lock.value <= now) && b + more <= k
    ensures Stage(end, q, n, 0, b + more, b + more, base, lock, windowEnd) && Goes(sys, steps, end, s, k, now, now)
    decreases more
  {
    StageLoad(sys, q, n, 0, b, b, base, lock, windowEnd, s);
    if more == 0 {
      return [], sys;
    }
    var step := Step(now, Check(b, q, false));
    StageCheck(sys, q, n, b, base, lock, windowEnd, now);
    var rest: seq<Step>;
    rest, end := Checks(Next(sys, step), q, n, b + 1, more - 1, base, lock, windowEnd, now, s, k);
    StepFirst(sys, step, rest, end, s, k, now);
    steps := [step] + rest;
  }

  lemma {:induction false} Counts(sys: Sys, q: Open, n: nat, m: nat, b: nat, base: nat, lock: Option<int>,
      windowEnd: int, now: int, s: Scope, k: nat)
    returns (steps: seq<Step>, end: Sys)
    requires Stage(sys, q, n, 0, m, b, base, lock, windowEnd) && n == base + b - m && now < windowEnd && b <= k
    requires n == 0 ==> windowEnd == now + Window(q.flow)
    ensures Stage(end, q, base + b, 0, 0, b, base, lock, windowEnd) && Goes(sys, steps, end, s, k, now, now)
    decreases m
  {
    StageLoad(sys, q, n, 0, m, b, base, lock, windowEnd, s);
    if m == 0 {
      return [], sys;
    }
    var step := Step(now, CountFailure(m - 1));
    StageCount(sys, q, n, m, b, base, lock, windowEnd, now);
    var rest: seq<Step>;
    rest, end := Counts(Next(sys, step), q, n + 1, m - 1, b, base, lock, windowEnd, now, s, k);
    StepFirst(sys, step, rest, end, s, k, now);
    steps := [step] + rest;
  }

  /** The oldest failure sets its locks last. */
  lemma {:induction false} Locks(sys: Sys, q: Open, n: nat, a: nat, b: nat, base: nat, lock: Option<int>,
      windowEnd: int, now: int, s: Scope, k: nat)
    returns (steps: seq<Step>, end: Sys)
    requires Stage(sys, q, n, a, a, b, base, lock, windowEnd) && a < b <= k
    requires LockSeconds(q.flow, base + 1) > 0 || b == a + 1
    ensures Stage(end, q, n, 0, 0, 0, n, LockAfter(q.flow, base + 1, lock, now), windowEnd)
    ensures Goes(sys, steps, end, s, k, now, now)
    decreases b - a
  {
    StageLoad(sys, q, n, a, a, b, base, lock, windowEnd, s);
    var step := Step(now, SetLocks(a));
    StageLocks(sys, q, n, a, b, base, lock, windowEnd, now);
    var lock' := LockAfter(q.flow, base + b - a, lock, now);
    var rest: seq<Step>;
    if b == a + 1 {
      rest, end := [], Next(sys, step);
      StageLoad(end, q, n, a + 1, a + 1, b, base, lock', windowEnd, s);
      assert forall r :: r !in end.pending;
    } else {
      rest, end := Locks(Next(sys, step), q, n, a + 1, b, base, lock', windowEnd, now, s, k);
    }
    StepFirst(sys, step, rest, end, s, k, now);
    steps := [step] + rest;
  }

  /** `b` requests let through and then all counted. */
  lemma Batch(sys: Sys, q: Open, n: nat, b: nat, lock: Option<int>, windowEnd: int, now: int, s: Scope, k: nat)
    returns (steps: seq<Step>, end: Sys)
    requires Stage(sys, q, n, 0, 0, 0, n, lock, windowEnd) && (lock.Some? ==> lock.value <= now) && b <= k
    requires now < windowEnd && (n == 0 ==> windowEnd == now + Window(q.flow))
    ensures Stage(end, q, n + b, 0, 0, b, n, lock, windowEnd) && Goes(sys, steps, end, s, k, now, now)
  {
    var c, mid := Checks(sys, q, n, 0, b, n, lock, windowEnd, now, s, k);
    var d, last := Counts(mid, q, n, b, b, n, lock, windowEnd, now, s, k);
    Join(sys, c, mid, d, last, s, k, now, now, now);
    return c + d, last;
  }

  /** The same, and then the locks. */
  lemma Round(sys: Sys, q: Open, n: nat, b: nat, lock: Option<int>, windowEnd: int, now: int, s: Scope, k: nat)
    returns (steps: seq<Step>, end: Sys)
    requires Stage(sys, q, n, 0, 0, 0, n, lock, windowEnd) && (lock.Some? ==> lock.value <= now) && 0 < b <= k
    requires now < windowEnd && (n == 0 ==> windowEnd == now + Window(q.flow))
    requires LockSeconds(q.flow, n + 1) > 0 || b == 1
    ensures Stage(end, q, n + b, 0, 0, 0, n + b, LockAfter(q.flow, n + 1, lock, now), windowEnd)
    ensures Goes(sys, steps, end, s, k, now, now)
  {
    var c, mid := Batch(sys, q, n, b, lock, windowEnd, now, s, k);
    var d, last := Locks(mid, q, n + b, 0, b, n, lock, windowEnd, now, s, k);
    Join(sys, c, mid, d, last, s, k, now, now, now);
    return c + d, last;
  }

  /** One failure after another, below the first threshold. */
  lemma {:induction false} SingleRounds(q: Open, n: nat, s: Scope, k: nat) returns (steps: seq<Step>, end: Sys)
    requires k > 0 && LockSeconds(q.flow, n) == 0
    ensures Stage(end, q, n, 0, 0, 0, n, None, Window(q.flow)) && Goes(INIT, steps, end, s, k, 0, 0)
  {
    if n == 0 {
      assert Waiting(INIT.pending, s) == {};
      return [], INIT;
    }
    var a, mid := SingleRounds(q, n - 1, s, k);
    var b, last := Round(mid, q, n - 1, 1, None, Window(q.flow), 0, s, k);
    Join(INIT, a, mid, b, last, s, k, 0, 0, 0);
    return a + b, last;
  }

  /** Four failures, then `k` at once whose shortest lock is set last. */
  lemma FirstBatch(q: Open, k: nat) returns (steps: seq<Step>, end: Sys)
    requires k > 0 && q.flow == Login
    ensures Goes(INIT, steps, end, User(q.flow, q.user), k, 0, 0)
    ensures Stage(end, q, 4 + k, 0, 0, 0, 4 + k, Some(300), 600)
  {
    var s := User(q.flow, q.user);
    var a, mid := SingleRounds(q, 4, s, k);
    var b, last := Round(mid, q, 4, k, None, 600, 0, s, k);
    Join(INIT, a, mid, b, last, s, k, 0, 0, 0);
    return a + b, last;
  }

  /** When that lock ends, `k` more. */
  lemma SecondBatch(sys: Sys, q: Open, k: nat) returns (steps: seq<Step>, end: Sys)
    requires q.flow == Login && Stage(sys, q, 4 + k, 0, 0, 0, 4 + k, Some(300), 600)
    ensures Goes(sys, steps, end, User(q.flow, q.user), k, 0, 300)
    ensures Stage(end, q, 4 + k + k, 0, 0, k, 4 + k, Some(300), 600)
  {
    steps, end := Batch(sys, q, 4 + k, k, Some(300), 600, 300, User(q.flow, q.user), k);
    OrderedEarlier(steps, 0, 300);
  }

  /**
    The bound is exact for every `k`: some run with at most `k` overlapping requests of
    a user brings the counter to it.  So three overlapping requests are enough for the
    second factor's longer lock, and two for eight failed logins within one window.
   */
  lemma OverlapCapIsReached(q: Open, k: nat) returns (steps: seq<Step>)
    requires k > 0
    ensures Runnable(INIT, steps) && Ordered(0, steps) && AtMost(INIT, steps, User(q.flow, q.user), k)
    ensures Count(Exec(INIT, steps).store, User(q.flow, q.user)) == OverlapCap(q.flow, k)
  {
    var s := User(q.flow, q.user);
    if q.flow == Login {
      var a, s1 := FirstBatch(q, k);
      var b, s2 := SecondBatch(s1, q, k);
      Join(INIT, a, s1, b, s2, s, k, 0, 0, 300);
      steps := a + b;
    } else {
      var a, s1 := SingleRounds(q, 2, s, k);
      var b, s2 := Batch(s1, q, 2, k, None, 300, 0, s, k);
      Join(INIT, a, s1, b, s2, s, k, 0, 0, 0);
      steps := a + b;
    }
  }
}

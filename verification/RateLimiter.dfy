/**
  Failed-attempt counters and locks for password logins and for second-factor
  codes, kept in the timed store for a user and for an address at once.
 */
module RateLimiter {
  import opened Optional
  import opened TimedStore

  type Id = string

  datatype Flow = Login | SecondFactor

  /** What a counter and its lock belong to. */
  datatype Scope = User(flow: Flow, id: Id) | Address(flow: Flow, ip: Id)

  datatype Key = Attempts(scope: Scope) | Lock(scope: Scope)

  type Store = Data<Key, string>

  // ------------------------------------------------------------------ keys as text

  function ScopeText(s: Scope): (t: string)
  {
    match s
    case User(Login, id) => "user:" + id
    case Address(Login, ip) => "ip:" + ip
    case User(SecondFactor, id) => "2fa:user:" + id
    case Address(SecondFactor, ip) => "2fa:ip:" + ip
  }

  function KeyText(k: Key): (t: string)
  {
    match k
    case Attempts(s) => "brute:attempt:" + ScopeText(s)
    case Lock(s) => "brute:lock:" + ScopeText(s)
  }

  function Tail(t: string, n: nat): (r: string)
  {
    if n <= |t| then t[n..] else t
  }

  lemma ScopeTextInjective(a: Scope, b: Scope)
    requires ScopeText(a) == ScopeText(b)
    ensures a == b
  {
    var t := ScopeText(a);
    assert t[0] == ScopeText(b)[0];
    if t[0] == '2' {
      assert t[4] == ScopeText(b)[4];
      assert Tail(t, 9) == Tail(ScopeText(b), 9) && Tail(t, 7) == Tail(ScopeText(b), 7);
    } else {
      assert Tail(t, 5) == Tail(ScopeText(b), 5) && Tail(t, 3) == Tail(ScopeText(b), 3);
    }
    assert a.User? ==> a.id == Tail(t, if t[0] == '2' then 9 else 5);
    assert b.User? ==> b.id == Tail(t, if t[0] == '2' then 9 else 5);
    assert a.Address? ==> a.ip == Tail(t, if t[0] == '2' then 7 else 3);
    assert b.Address? ==> b.ip == Tail(t, if t[0] == '2' then 7 else 3);
  }

  /** No name of a user and no address can make two keys fall together. */
  lemma KeyTextInjective(a: Key, b: Key)
    requires KeyText(a) == KeyText(b)
    ensures a == b
  {
    assert KeyText(a)[6] == KeyText(b)[6];
    var n := if a.Attempts? then 14 else 11;
    assert KeyText(a)[n..] == ScopeText(a.scope);
    assert KeyText(b)[n..] == ScopeText(b.scope);
    ScopeTextInjective(a.scope, b.scope);
  }

  // ------------------------------------------------------------------ the rules

  /** Addresses whose login lock is not looked at. */
  predicate Exempt(ip: Id)
  {
    ip == "127.0.0.1" || ip == "::1" || ip == "::ffff:127.0.0.1" || ip == "localhost" || ip == "unknown"
  }

  function Window(flow: Flow): (seconds: nat)
  {
    if flow == Login then 600 else 300
  }

  function LockSeconds(flow: Flow, attempts: nat): (seconds: nat)
  {
    match flow
    case Login => if attempts >= 10 then 1800 else if attempts >= 5 then 300 else 0
    case SecondFactor => if attempts >= 5 then 900 else if attempts >= 3 then 300 else 0
  }

  /** The lock of this scope is looked at before each attempt. */
  predicate Checked(s: Scope)
  {
    s.flow == SecondFactor || s.User? || !Exempt(s.ip)
  }

  /** The scope is that of the user or of the address. */
  predicate Covers(flow: Flow, user: Id, ip: Id, s: Scope)
  {
    s == User(flow, user) || s == Address(flow, ip)
  }

  function Max(a: int, b: int): (m: int)
  {
    if a >= b then a else b
  }

  /** Seconds for which an attempt is still refused; not positive when it is allowed. */
  function Wait(d: Store, flow: Flow, user: Id, ip: Id, now: int): (seconds: int)
  {
    var userTtl := Ttl(d, Lock(User(flow, user)), now);
    if Checked(Address(flow, ip)) then Max(userTtl, Ttl(d, Lock(Address(flow, ip)), now)) else Max(userTtl, 0)
  }

  function Locked(d: Store, flow: Flow, user: Id, ip: Id, attempts: nat, now: int): (d': Store)
  {
    var seconds := LockSeconds(flow, attempts);
    if seconds == 0 then d
    else Put(Put(d, Lock(User(flow, user)), "locked", seconds, now), Lock(Address(flow, ip)), "locked", seconds, now)
  }

  /** A failure counted for the user and the address, with the larger count. */
  function Tally(d: Store, flow: Flow, user: Id, ip: Id, now: int): (r: (Store, nat))
  {
    var (d1, userAttempts) := Incr(d, Attempts(User(flow, user)), Window(flow), now);
    var (d2, ipAttempts) := Incr(d1, Attempts(Address(flow, ip)), Window(flow), now);
    (d2, if userAttempts >= ipAttempts then userAttempts else ipAttempts)
  }

  function Fail(d: Store, flow: Flow, user: Id, ip: Id, now: int): (r: (Store, nat))
  {
    var (d', attempts) := Tally(d, flow, user, ip, now);
    (Locked(d', flow, user, ip, attempts, now), attempts)
  }

  function Succeed(d: Store, flow: Flow, user: Id, ip: Id): (d': Store)
  {
    d - {Attempts(User(flow, user)), Lock(User(flow, user)), Attempts(Address(flow, ip)), Lock(Address(flow, ip))}
  }

  /**
    What became of an attempt that was let through; some logins record nothing, as when a
    second factor is asked for.
   */
  datatype Outcome = Wrong | Right | Undecided

  /** One request; `heldInMemory` stands for a refusal by the locks that the process keeps for itself. */
  datatype Try = Try(flow: Flow, user: Id, ip: Id, heldInMemory: bool, outcome: Outcome, now: int)

  datatype Answer = Refused | Failed(attempts: nat) | Passed

  function Attempt(d: Store, t: Try): (r: (Store, Answer))
  {
    if Wait(d, t.flow, t.user, t.ip, t.now) > 0 || t.heldInMemory then (d, Refused)
    else
      match t.outcome
      case Wrong => (var (d', attempts) := Fail(d, t.flow, t.user, t.ip, t.now); (d', Failed(attempts)))
      case Right => (Succeed(d, t.flow, t.user, t.ip), Passed)
      case Undecided => (d, Passed)
  }

  predicate Ordered(start: int, ts: seq<Try>)
  {
    && (forall i :: 0 <= i < |ts| ==> start <= ts[i].now)
    && forall i, j :: 0 <= i < j < |ts| ==> ts[i].now <= ts[j].now
  }

  function Run(d: Store, ts: seq<Try>): (d': Store)
    decreases |ts|
  {
    if ts == [] then d else Attempt(Run(d, ts[..|ts| - 1]), ts[|ts| - 1]).0
  }

  // ------------------------------------------------------------------ the invariant

  /** The most failures a scope's counter can hold. */
  function Cap(flow: Flow): (n: nat)
  {
    if flow == Login then 6 else 3
  }

  function LockEnd(lock: Option<Entry<string>>): (at: Option<int>)
  {
    if lock.Some? then lock.value.expiresAt else None
  }

  /**
    A counter that has reached the first threshold has a lock behind it: one that
    outlasts the counter, but for the fifth login failure, whose lock may end up
    to 300 seconds before the counter does.
   */
  predicate Guarded(flow: Flow, count: nat, counterEnd: int, lock: Option<Entry<string>>)
  {
    && count <= Cap(flow)
    && (count >= (if flow == Login then 5 else 3) ==>
      LockEnd(lock).Some? && LockEnd(lock).value >= counterEnd - if flow == Login && count == 5 then 300 else 0)
  }

  predicate CounterOk(s: Scope, counter: Option<Entry<string>>, lock: Option<Entry<string>>, now: int)
  {
    && (lock.Some? ==> lock.value.expiresAt.Some?)
    && (counter.Some? ==>
      && counter.value.cell.Num? && counter.value.expiresAt.Some?
      && counter.value.expiresAt.value <= now + Window(s.flow)
      && (Checked(s) ==> Guarded(s.flow, counter.value.cell.count, counter.value.expiresAt.value, lock)))
  }

  function EntryAt(d: Store, key: Key): (e: Option<Entry<string>>)
  {
    if key in d then Some(d[key]) else None
  }

  predicate ScopeOk(d: Store, s: Scope, now: int)
  {
    CounterOk(s, EntryAt(d, Attempts(s)), EntryAt(d, Lock(s)), now)
  }

  ghost predicate Inv(d: Store, now: int)
  {
    forall s: Scope :: ScopeOk(d, s, now)
  }

  predicate Free(lock: Option<Entry<string>>, now: int)
  {
    LockEnd(lock).Some? ==> LockEnd(lock).value <= now
  }

  function Live(e: Option<Entry<string>>, now: int): (l: Option<Entry<string>>)
  {
    if e.Some? && Alive(e.value, now) then e else None
  }

  function NewLock(flow: Flow, attempts: nat, now: int): (lock: Option<Entry<string>>)
  {
    var seconds := LockSeconds(flow, attempts);
    if seconds == 0 then None else Some(Entry(Doc("locked"), Some(now + seconds)))
  }

  function OrElse<T>(a: Option<T>, b: Option<T>): (r: Option<T>)
  {
    if a.Some? then a else b
  }

  /** One failure recorded for a scope whose lock is not in force. */
  lemma CounterAfterFailure(s: Scope, counter: Option<Entry<string>>, lock: Option<Entry<string>>,
      attempts: nat, now: int)
    requires CounterOk(s, counter, lock, now)
    requires Checked(s) ==> Free(lock, now)
    requires Counted(Live(counter, now), Window(s.flow), now).1 <= attempts
    ensures CounterOk(s, Some(Counted(Live(counter, now), Window(s.flow), now).0),
        OrElse(NewLock(s.flow, attempts, now), lock), now)
    ensures Checked(s) ==> Counted(Live(counter, now), Window(s.flow), now).1 <= Cap(s.flow)
  {
  }

  lemma LaterIsFine(d: Store, now: int, later: int)
    requires Inv(d, now) && now <= later
    ensures Inv(d, later)
  {
    forall s: Scope
      ensures ScopeOk(d, s, later)
    {
      assert ScopeOk(d, s, now);
    }
  }

  lemma AllowedMeansFree(d: Store, flow: Flow, user: Id, ip: Id, now: int)
    requires Wait(d, flow, user, ip, now) <= 0
    ensures Free(EntryAt(d, Lock(User(flow, user))), now)
    ensures Checked(Address(flow, ip)) ==> Free(EntryAt(d, Lock(Address(flow, ip))), now)
  {
  }

  function Writes(d: Store, u: Scope, a: Scope, cu: Entry<string>, ca: Entry<string>,
      lock: Option<Entry<string>>): (d': Store)
  {
    var counted := d[Attempts(u) := cu][Attempts(a) := ca];
    if lock.None? then counted else counted[Lock(u) := lock.value][Lock(a) := lock.value]
  }

  function NextCount(d: Store, s: Scope, now: int): (r: (Entry<string>, nat))
    requires EntryAt(d, Attempts(s)).Some? ==> d[Attempts(s)].cell.Num?
  {
    Counted(Live(EntryAt(d, Attempts(s)), now), Window(s.flow), now)
  }

  /** Counters are counters and locks have an end. */
  predicate WellKept(d: Store, s: Scope)
  {
    && (Lock(s) in d ==> d[Lock(s)].expiresAt.Some?)
    && (Attempts(s) in d ==> d[Attempts(s)].cell.Num?)
  }

  /** The entries a failure writes, and nothing else. */
  lemma FailWrites(d: Store, flow: Flow, user: Id, ip: Id, now: int)
    requires WellKept(d, User(flow, user)) && WellKept(d, Address(flow, ip))
    ensures
      var (d', attempts) := Fail(d, flow, user, ip, now);
      var u, a := User(flow, user), Address(flow, ip);
      && Tally(d, flow, user, ip, now).0 == Writes(d, u, a, NextCount(d, u, now).0, NextCount(d, a, now).0, None)
      && attempts == Max(NextCount(d, u, now).1, NextCount(d, a, now).1)
      && d' == Writes(d, u, a, NextCount(d, u, now).0, NextCount(d, a, now).0, NewLock(flow, attempts, now))
  {
    var u, a := Attempts(User(flow, user)), Attempts(Address(flow, ip));
    assert Find(d, u, now) == Live(EntryAt(d, u), now);
    var d1 := Incr(d, u, Window(flow), now).0;
    assert Find(d1, a, now) == Find(d, a, now) == Live(EntryAt(d, a), now);
  }

  lemma WritesKeepInv(d: Store, u: Scope, a: Scope, cu: Entry<string>, ca: Entry<string>,
      lock: Option<Entry<string>>, now: int)
    requires Inv(d, now) && u != a
    requires CounterOk(u, Some(cu), OrElse(lock, EntryAt(d, Lock(u))), now)
    requires CounterOk(a, Some(ca), OrElse(lock, EntryAt(d, Lock(a))), now)
    ensures Inv(Writes(d, u, a, cu, ca, lock), now)
  {
    var d' := Writes(d, u, a, cu, ca, lock);
    forall s: Scope
      ensures ScopeOk(d', s, now)
    {
      assert ScopeOk(d, s, now);
      if s == u {
        assert EntryAt(d', Lock(s)) == OrElse(lock, EntryAt(d, Lock(u)));
      } else if s == a {
        assert EntryAt(d', Lock(s)) == OrElse(lock, EntryAt(d, Lock(a)));
      } else {
        assert EntryAt(d', Lock(s)) == EntryAt(d, Lock(s)) && EntryAt(d', Attempts(s)) == EntryAt(d, Attempts(s));
      }
    }
  }

  lemma FailKeepsInv(d: Store, flow: Flow, user: Id, ip: Id, now: int)
    requires Inv(d, now) && Wait(d, flow, user, ip, now) <= 0
    ensures Inv(Fail(d, flow, user, ip, now).0, now)
    ensures Checked(Address(flow, ip)) ==> Fail(d, flow, user, ip, now).1 <= Cap(flow)
  {
    var u, a := User(flow, user), Address(flow, ip);
    assert ScopeOk(d, u, now) && ScopeOk(d, a, now);
    FailWrites(d, flow, user, ip, now);
    AllowedMeansFree(d, flow, user, ip, now);
    var attempts := Fail(d, flow, user, ip, now).1;
    CounterAfterFailure(u, EntryAt(d, Attempts(u)), EntryAt(d, Lock(u)), attempts, now);
    CounterAfterFailure(a, EntryAt(d, Attempts(a)), EntryAt(d, Lock(a)), attempts, now);
    WritesKeepInv(d, u, a, NextCount(d, u, now).0, NextCount(d, a, now).0, NewLock(flow, attempts, now), now);
  }

  lemma AttemptKeepsInv(d: Store, t: Try)
    requires Inv(d, t.now)
    ensures Inv(Attempt(d, t).0, t.now)
    ensures Attempt(d, t).1.Failed? && Checked(Address(t.flow, t.ip)) ==> Attempt(d, t).1.attempts <= Cap(t.flow)
  {
    if Attempt(d, t).1.Failed? {
      FailKeepsInv(d, t.flow, t.user, t.ip, t.now);
    } else {
      var d' := Attempt(d, t).0;
      forall s: Scope
        ensures ScopeOk(d', s, t.now)
      {
        assert ScopeOk(d, s, t.now);
      }
    }
  }

  lemma {:induction false} RunKeepsInv(ts: seq<Try>, start: int, now: int)
    requires Ordered(start, ts) && start <= now
    requires forall i :: 0 <= i < |ts| ==> ts[i].now <= now
    ensures Inv(Run(map[], ts), now)
    decreases |ts|
  {
    if ts != [] {
      var last := ts[|ts| - 1];
      RunKeepsInv(ts[..|ts| - 1], start, last.now);
      AttemptKeepsInv(Run(map[], ts[..|ts| - 1]), last);
      LaterIsFine(Run(map[], ts), last.now, now);
    }
  }

  // ------------------------------------------------------------------ what users get

  function Count(d: Store, s: Scope): (n: nat)
  {
    if Attempts(s) in d && d[Attempts(s)].cell.Num? then d[Attempts(s)].cell.count else 0
  }

  /**
    After any run of requests: no second-factor counter exceeds 3, and no login
    counter exceeds 6 but for those of exempt addresses.
   */
  lemma CountersAreCapped(ts: seq<Try>, start: int, s: Scope)
    requires Ordered(start, ts) && Checked(s)
    ensures Count(Run(map[], ts), s) <= Cap(s.flow)
  {
    var now := if ts == [] then start else ts[|ts| - 1].now;
    RunKeepsInv(ts, start, now);
    assert ScopeOk(Run(map[], ts), s, now);
  }

  /**
    The long tiers: a second-factor failure never counts to 5, and a login failure
    that counts past 6, and so one that locks for 30 minutes, comes from an exempt address.
   */
  lemma LongTiersNeedExemptAddress(ts: seq<Try>, start: int, t: Try)
    requires Ordered(start, ts + [t])
    ensures
      var answer := Attempt(Run(map[], ts), t).1;
      answer.Failed? && answer.attempts > Cap(t.flow) ==> t.flow == Login && Exempt(t.ip)
  {
    var all := ts + [t];
    assert all[|ts|] == t;
    assert forall i :: 0 <= i < |ts| ==> all[i] == ts[i];
    RunKeepsInv(ts, start, t.now);
    AttemptKeepsInv(Run(map[], ts), t);
  }

  // ------------------------------------------------------------------ what the limiter answers and writes

  predicate LockedAt(d: Store, s: Scope, now: int)
  {
    Lock(s) in d && d[Lock(s)].expiresAt.Some? && now < d[Lock(s)].expiresAt.value
  }

  /** An attempt has to wait exactly while the user is locked, or the address unless it is an exempt one of a login. */
  lemma WaitIff(d: Store, flow: Flow, user: Id, ip: Id, now: int)
    ensures Wait(d, flow, user, ip, now) > 0 <==>
      LockedAt(d, User(flow, user), now) ||
      (LockedAt(d, Address(flow, ip), now) &&
        (flow == SecondFactor || ip !in ["127.0.0.1", "::1", "::ffff:127.0.0.1", "localhost", "unknown"]))
  {
  }

  /** Failures of the scope in a window that is still open. */
  function OpenCount(d: Store, s: Scope, now: int): (n: nat)
  {
    if Attempts(s) in d && d[Attempts(s)].cell.Num? && Alive(d[Attempts(s)], now) then d[Attempts(s)].cell.count else 0
  }

  /**
    A failure counts one more for the user and for the address, in a window of 10 or 5
    minutes from the first, and by the larger count sets both locks: for logins 5 minutes
    from the fifth and 30 from the tenth, for second factors 5 from the third and 15 from
    the fifth.
   */
  lemma FailDoes(d: Store, flow: Flow, user: Id, ip: Id, now: int, s: Scope)
    requires WellKept(d, User(flow, user)) && WellKept(d, Address(flow, ip))
    requires forall k :: k in d ==> d[k].expiresAt.Some?
    ensures var (d', attempts) := Fail(d, flow, user, ip, now);
      var seconds := if flow == Login then (if attempts >= 10 then 1800 else if attempts >= 5 then 300 else 0)
        else (if attempts >= 5 then 900 else if attempts >= 3 then 300 else 0);
      && attempts == Max(OpenCount(d, User(flow, user), now) + 1, OpenCount(d, Address(flow, ip), now) + 1)
      && EntryAt(d', Attempts(s)) == (
        if s != User(flow, user) && s != Address(flow, ip) then EntryAt(d, Attempts(s))
        else Some(Entry(Num(OpenCount(d, s, now) + 1),
          if OpenCount(d, s, now) > 0 then d[Attempts(s)].expiresAt
          else Some(now + if flow == Login then 600 else 300))))
      && EntryAt(d', Lock(s)) == (
        if (s != User(flow, user) && s != Address(flow, ip)) || seconds == 0 then EntryAt(d, Lock(s))
        else Some(Entry(Doc("locked"), Some(now + seconds))))
  {
    FailWrites(d, flow, user, ip, now);
  }

  /** A success removes the counters and locks of the user and the address, and nothing else. */
  lemma SucceedDoes(d: Store, flow: Flow, user: Id, ip: Id, k: Key)
    ensures EntryAt(Succeed(d, flow, user, ip), k) ==
      if k.scope == User(flow, user) || k.scope == Address(flow, ip) then None else EntryAt(d, k)
  {
  }

  /** A request is refused while it has to wait; otherwise only a wrong outcome fails and only a right one clears. */
  lemma AttemptDoes(d: Store, t: Try)
    ensures var (d', answer) := Attempt(d, t);
      var waits := Wait(d, t.flow, t.user, t.ip, t.now) > 0 || t.heldInMemory;
      && (answer == Refused <==> waits) && (answer.Failed? <==> !waits && t.outcome == Wrong)
      && (answer.Failed? ==> (d', answer.attempts) == Fail(d, t.flow, t.user, t.ip, t.now))
      && (answer == Passed && t.outcome == Right ==> d' == Succeed(d, t.flow, t.user, t.ip))
      && (waits || t.outcome == Undecided ==> d' == d)
  {
  }

  // ------------------------------------------------------------------ locks hold

  predicate LockedUntil(d: Store, s: Scope, end: int)
  {
    Lock(s) in d && d[Lock(s)].expiresAt == Some(end)
  }

  /**
    A lock that is checked refuses the attempt and is neither shortened nor lifted by it,
    and the scope's counter stands still.
   */
  lemma LockSurvives(d: Store, t: Try, s: Scope, end: int)
    requires LockedUntil(d, s, end) && Checked(s) && t.now < end
    ensures LockedUntil(Attempt(d, t).0, s, end) && Count(Attempt(d, t).0, s) == Count(d, s)
    ensures Covers(t.flow, t.user, t.ip, s) ==> Attempt(d, t).1 == Refused
  {
    if Attempt(d, t).1.Failed? {
      var u, a := Attempts(User(t.flow, t.user)), Attempts(Address(t.flow, t.ip));
      var d1 := Incr(d, u, Window(t.flow), t.now).0;
      var d2 := Incr(d1, a, Window(t.flow), t.now).0;
      assert Count(d2, s) == Count(d, s) && EntryAt(d2, Lock(s)) == EntryAt(d, Lock(s));
    }
  }

  lemma {:induction false} LockHoldsOverRun(d: Store, ts: seq<Try>, s: Scope, end: int)
    requires LockedUntil(d, s, end) && Checked(s)
    requires forall i :: 0 <= i < |ts| ==> ts[i].now < end
    ensures LockedUntil(Run(d, ts), s, end) && Count(Run(d, ts), s) == Count(d, s)
    ensures forall i :: 0 <= i < |ts| && Covers(ts[i].flow, ts[i].user, ts[i].ip, s) ==>
      Attempt(Run(d, ts[..i]), ts[i]).1 == Refused
    decreases |ts|
  {
    if ts != [] {
      var n := |ts| - 1;
      var front := ts[..n];
      LockHoldsOverRun(d, front, s, end);
      LockSurvives(Run(d, front), ts[n], s, end);
      forall i | 0 <= i < |ts| && Covers(ts[i].flow, ts[i].user, ts[i].ip, s)
        ensures Attempt(Run(d, ts[..i]), ts[i]).1 == Refused
      {
        if i < n {
          assert front[..i] == ts[..i];
        }
      }
    }
  }

  // ------------------------------------------------------------------ the exempt counter

  /** Wrong passwords for different users from one address, all in the same second. */
  predicate Sweeping(ts: seq<Try>, ip: Id, now: int)
  {
    && (forall i :: 0 <= i < |ts| ==> ts[i] == Try(Login, ts[i].user, ip, false, Wrong, now))
    && forall i, j :: 0 <= i < j < |ts| ==> ts[i].user != ts[j].user
  }

  /** No failure and no lock of this user is in the store. */
  predicate Unknown(d: Store, user: Id)
  {
    Attempts(User(Login, user)) !in d && Lock(User(Login, user)) !in d
  }

  predicate AddressCounts(d: Store, ip: Id, n: nat, now: int)
  {
    EntryAt(d, Attempts(Address(Login, ip))) == if n == 0 then None else Some(Entry(Num(n), Some(now + 600)))
  }

  lemma ExemptFailure(d: Store, user: Id, ip: Id, now: int, n: nat)
    requires Unknown(d, user) && AddressCounts(d, ip, n, now) && Exempt(ip)
    ensures
      var d' := Attempt(d, Try(Login, user, ip, false, Wrong, now)).0;
      && AddressCounts(d', ip, n + 1, now)
      && (n + 1 >= 10 ==> Ttl(d', Lock(User(Login, user)), now) == 1800)
      && forall u :: u != user && Unknown(d, u) ==> Unknown(d', u)
  {
  }

  /**
    From an exempt address the address counter goes as high as there are users, so
    the tenth user is locked for 30 minutes on a first mistake.
   */
  lemma {:induction false} ExemptAddressCountsOn(ts: seq<Try>, ip: Id, now: int)
    requires Sweeping(ts, ip, now) && Exempt(ip) && ts != []
    ensures AddressCounts(Run(map[], ts), ip, |ts|, now)
    ensures |ts| >= 10 ==> Ttl(Run(map[], ts), Lock(User(Login, ts[|ts| - 1].user)), now) == 1800
    ensures forall u :: (forall i :: 0 <= i < |ts| ==> ts[i].user != u) ==> Unknown(Run(map[], ts), u)
    decreases |ts|
  {
    var n := |ts| - 1;
    var d := Run(map[], ts[..n]);
    var user := ts[n].user;
    if n > 0 {
      ExemptAddressCountsOn(ts[..n], ip, now);
    }
    assert Unknown(d, user) && AddressCounts(d, ip, n, now);
    assert Attempt(d, ts[n]) == Attempt(d, Try(Login, user, ip, false, Wrong, now));
    forall u | forall i :: 0 <= i < |ts| ==> ts[i].user != u
      ensures u != user && Unknown(d, u)
    {
    }
    ExemptFailure(d, user, ip, now, n);
  }

  // ------------------------------------------------------------------ the service

  /** The process's own locks: seconds at which they end, by name. */
  type Memory = map<string, int>

  /** Users and addresses of logins share one table of names; second factors have prefixes of their own. */
  function UserName(flow: Flow, user: Id): (name: string)
  {
    if flow == Login then user else "2fa:" + user
  }

  function AddressName(flow: Flow, ip: Id): (name: string)
  {
    if flow == Login then ip else "2fa:ip:" + ip
  }

  predicate InForce(m: Memory, name: string, now: int)
  {
    name in m && m[name] > now
  }

  predicate Held(m: Memory, flow: Flow, user: Id, ip: Id, now: int)
  {
    InForce(m, UserName(flow, user), now) || (Checked(Address(flow, ip)) && InForce(m, AddressName(flow, ip), now))
  }

  function Remembered(m: Memory, flow: Flow, user: Id, ip: Id, attempts: nat, now: int): (m': Memory)
  {
    var seconds := LockSeconds(flow, attempts);
    if seconds == 0 then m else m[UserName(flow, user) := now + seconds][AddressName(flow, ip) := now + seconds]
  }

  function Forgotten(m: Memory, flow: Flow, user: Id, ip: Id): (m': Memory)
  {
    m - {UserName(flow, user), AddressName(flow, ip)}
  }

  /** The process's own locks stand under four kinds of name, and last as long as those of the store. */
  lemma MemoryDoes(m: Memory, user: Id, ip: Id, attempts: nat, now: int, name: string)
    ensures var login, second := Remembered(m, Login, user, ip, attempts, now),
        Remembered(m, SecondFactor, user, ip, attempts, now);
      && (attempts < 5 ==> login == m) && (attempts < 3 ==> second == m)
      && (attempts >= 5 ==> name in login && (name == user || name == ip) ==>
        login[name] == now + if attempts >= 10 then 1800 else 300)
      && (attempts >= 3 && (name == "2fa:" + user || name == "2fa:ip:" + ip) ==>
        name in second && second[name] == now + if attempts >= 5 then 900 else 300)
      && (attempts >= 5 ==> user in login && ip in login)
      && (name != user && name != ip ==> (name in login <==> name in m) && (name in m ==> login[name] == m[name]))
      && (name != "2fa:" + user && name != "2fa:ip:" + ip ==>
        (name in second <==> name in m) && (name in m ==> second[name] == m[name]))
    ensures Forgotten(m, Login, user, ip) == m - {user, ip}
    ensures Forgotten(m, SecondFactor, user, ip) == m - {"2fa:" + user, "2fa:ip:" + ip}
    ensures Held(m, SecondFactor, user, ip, now) <==>
      exists n :: n in m && (n == "2fa:" + user || n == "2fa:ip:" + ip) && now < m[n]
    ensures Held(m, Login, user, ip, now) <==>
      (user in m && now < m[user]) || (ip in m && now < m[ip] && !Exempt(ip))
  {
  }

  class BruteForceService {
    const redis: RedisService<Key, string>
    var memoryLocks: Memory

    constructor (redis: RedisService<Key, string>)
      ensures this.redis == redis && memoryLocks == map[]
    {
      this.redis := redis;
      memoryLocks := map[];
    }

    /** An address that is absent or empty counts as one address of that name. */
    static function AddressOf(ipAddress: Option<Id>): (ip: Id)
      ensures ip != "" && (ipAddress.Some? && ipAddress.value != "" ==> ip == ipAddress.value)
    {
      if ipAddress.Some? && ipAddress.value != "" then ipAddress.value else "unknown"
    }

    /** What the store and the process's own locks say together; without a connection only the latter speak. */
    predicate Allows(flow: Flow, user: Id, ip: Id, now: int)
      reads this, redis
    {
      (redis.ready ==> Wait(redis.data, flow, user, ip, now) <= 0) && !Held(memoryLocks, flow, user, ip, now)
    }

    /** What a failure leaves; without a connection it counts as a first one. */
    function Failing(flow: Flow, user: Id, ip: Id, now: int): (r: (Store, nat))
      reads this, redis
    {
      if redis.ready then Fail(redis.data, flow, user, ip, now) else (redis.data, 1)
    }

    method CheckLoginAllowed(user: Id, ipAddress: Option<Id>, now: int) returns (allowed: bool)
      ensures allowed <==> Allows(Login, user, AddressOf(ipAddress), now)
    {
      var ip := AddressOf(ipAddress);
      var isLoopback := ip in ["127.0.0.1", "::1", "::ffff:127.0.0.1", "localhost", "unknown"];
      var userTtl := redis.TimeToLive(Lock(User(Login, user)), now);
      var ipTtl := -2;
      if !isLoopback {
        ipTtl := redis.TimeToLive(Lock(Address(Login, ip)), now);
      }
      var maxTtl := Max(userTtl, if isLoopback then 0 else ipTtl);
      if maxTtl > 0 {
        return false;
      }
      var userHeld := user in memoryLocks && memoryLocks[user] > now;
      var ipHeld := !isLoopback && ip in memoryLocks && memoryLocks[ip] > now;
      allowed := !userHeld && !ipHeld;
    }

    method RecordFailedAttempt(user: Id, ipAddress: Option<Id>, now: int) returns (maxAttempts: nat)
      modifies this`memoryLocks, redis`data
      ensures (redis.data, maxAttempts) == old(Failing(Login, user, AddressOf(ipAddress), now))
      ensures memoryLocks == Remembered(old(memoryLocks), Login, user, AddressOf(ipAddress), maxAttempts, now)
    {
      var ip := AddressOf(ipAddress);
      var userAttempts := redis.Increment(Attempts(User(Login, user)), 600, now);
      var ipAttempts := redis.Increment(Attempts(Address(Login, ip)), 600, now);
      maxAttempts := if userAttempts >= ipAttempts then userAttempts else ipAttempts;
      if maxAttempts >= 10 {
        redis.Set(Lock(User(Login, user)), "locked", 1800, now);
        redis.Set(Lock(Address(Login, ip)), "locked", 1800, now);
        memoryLocks := memoryLocks[user := now + 1800][ip := now + 1800];
      } else if maxAttempts >= 5 {
        redis.Set(Lock(User(Login, user)), "locked", 300, now);
        redis.Set(Lock(Address(Login, ip)), "locked", 300, now);
        memoryLocks := memoryLocks[user := now + 300][ip := now + 300];
      }
    }

    method RecordLoginSuccess(user: Id, ipAddress: Option<Id>)
      modifies this`memoryLocks, redis`data
      ensures redis.data ==
        if redis.ready then Succeed(old(redis.data), Login, user, AddressOf(ipAddress)) else old(redis.data)
      ensures memoryLocks == Forgotten(old(memoryLocks), Login, user, AddressOf(ipAddress))
    {
      var ip := AddressOf(ipAddress);
      redis.Delete(Attempts(User(Login, user)));
      redis.Delete(Lock(User(Login, user)));
      redis.Delete(Attempts(Address(Login, ip)));
      redis.Delete(Lock(Address(Login, ip)));
      memoryLocks := memoryLocks - {user, ip};
      assert redis.ready ==> redis.data == Succeed(old(redis.data), Login, user, ip);
    }

    method Check2FAAllowed(user: Id, ipAddress: Option<Id>, now: int) returns (allowed: bool)
      ensures allowed <==> Allows(SecondFactor, user, AddressOf(ipAddress), now)
    {
      var ip := AddressOf(ipAddress);
      var userTtl := redis.TimeToLive(Lock(User(SecondFactor, user)), now);
      var ipTtl := redis.TimeToLive(Lock(Address(SecondFactor, ip)), now);
      if Max(userTtl, ipTtl) > 0 {
        return false;
      }
      var userName, ipName := "2fa:" + user, "2fa:ip:" + ip;
      var userHeld := userName in memoryLocks && memoryLocks[userName] > now;
      var ipHeld := ipName in memoryLocks && memoryLocks[ipName] > now;
      allowed := !userHeld && !ipHeld;
    }

    method Record2FAFailedAttempt(user: Id, ipAddress: Option<Id>, now: int) returns (maxAttempts: nat)
      modifies this`memoryLocks, redis`data
      ensures (redis.data, maxAttempts) == old(Failing(SecondFactor, user, AddressOf(ipAddress), now))
      ensures memoryLocks == Remembered(old(memoryLocks), SecondFactor, user, AddressOf(ipAddress), maxAttempts, now)
    {
      var ip := AddressOf(ipAddress);
      var userAttempts := redis.Increment(Attempts(User(SecondFactor, user)), 300, now);
      var ipAttempts := redis.Increment(Attempts(Address(SecondFactor, ip)), 300, now);
      maxAttempts := if userAttempts >= ipAttempts then userAttempts else ipAttempts;
      if maxAttempts >= 5 {
        redis.Set(Lock(User(SecondFactor, user)), "locked", 900, now);
        redis.Set(Lock(Address(SecondFactor, ip)), "locked", 900, now);
        memoryLocks := memoryLocks["2fa:" + user := now + 900]["2fa:ip:" + ip := now + 900];
      } else if maxAttempts >= 3 {
        redis.Set(Lock(User(SecondFactor, user)), "locked", 300, now);
        redis.Set(Lock(Address(SecondFactor, ip)), "locked", 300, now);
        memoryLocks := memoryLocks["2fa:" + user := now + 300]["2fa:ip:" + ip := now + 300];
      }
    }

    method Record2FASuccess(user: Id, ipAddress: Option<Id>)
      modifies this`memoryLocks, redis`data
      ensures redis.data ==
        if redis.ready then Succeed(old(redis.data), SecondFactor, user, AddressOf(ipAddress)) else old(redis.data)
      ensures memoryLocks == Forgotten(old(memoryLocks), SecondFactor, user, AddressOf(ipAddress))
    {
      var ip := AddressOf(ipAddress);
      redis.Delete(Attempts(User(SecondFactor, user)));
      redis.Delete(Lock(User(SecondFactor, user)));
      redis.Delete(Attempts(Address(SecondFactor, ip)));
      redis.Delete(Lock(Address(SecondFactor, ip)));
      memoryLocks := memoryLocks - {"2fa:" + user, "2fa:ip:" + ip};
      assert redis.ready ==> redis.data == Succeed(old(redis.data), SecondFactor, user, ip);
    }

    /**
      The order in which logins, second factors, step-ups and the vault call the
      limiter: check, verify, record.  With a connection it is one step of the runs
      above, whatever the process's own locks hold; without one the store stays as it
      is, every failure counts as the first, and only locks set before still refuse.
     */
    method Guard(flow: Flow, user: Id, ipAddress: Option<Id>, outcome: Outcome, now: int) returns (answer: Answer)
      modifies this`memoryLocks, redis`data
      ensures
        var held := old(Held(memoryLocks, flow, user, AddressOf(ipAddress), now));
        var t := Try(flow, user, AddressOf(ipAddress), held, outcome, now);
        redis.ready ==> (redis.data, answer) == Attempt(old(redis.data), t)
      ensures !redis.ready ==> redis.data == old(redis.data)
      ensures !redis.ready ==>
        answer == if old(Held(memoryLocks, flow, user, AddressOf(ipAddress), now)) then Refused
          else if outcome == Wrong then Failed(1) else Passed
      ensures var ip := AddressOf(ipAddress);
        memoryLocks ==
          if answer.Failed? then Remembered(old(memoryLocks), flow, user, ip, answer.attempts, now)
          else if answer == Passed && outcome == Right then Forgotten(old(memoryLocks), flow, user, ip)
          else old(memoryLocks)
    {
      var allowed: bool;
      if flow == Login {
        allowed := CheckLoginAllowed(user, ipAddress, now);
      } else {
        allowed := Check2FAAllowed(user, ipAddress, now);
      }
      if !allowed {
        return Refused;
      }
      if outcome == Wrong {
        var attempts: nat;
        if flow == Login {
          attempts := RecordFailedAttempt(user, ipAddress, now);
        } else {
          attempts := Record2FAFailedAttempt(user, ipAddress, now);
        }
        return Failed(attempts);
      }
      if outcome == Right {
        if flow == Login {
          RecordLoginSuccess(user, ipAddress);
        } else {
          Record2FASuccess(user, ipAddress);
        }
      }
      answer := Passed;
    }
  }
}

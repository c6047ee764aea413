/**
  One cached question of the calendar or of the feature flags, with the look-up, the
  fill, the change of a table and the dropping of the entry as steps of their own.
  What is asked of the tables is an arbitrary value that changes may alter; changes
  that drop no entry are the official holidays, the flag definitions and the
  overrides that subscriptions write.
 */
module CacheOverlap {
  import opened Optional
  import opened TimedStore
  import SchoolCalendar
  import FeatureFlags

  datatype Pending<V> = Fill(value: V, ttl: nat) | Drop

  /** What the rule says now and for how long that would be kept, the entry, and what is under way. */
  datatype Sys<V> = Sys(value: V, ttl: nat, entry: Option<Entry<V>>, pending: map<int, Pending<V>>)

  datatype Event<V> = Look(r: int) | Change(r: int, value: V, ttl: nat, drops: bool) | Finish(r: int)

  datatype Step<V> = Step(now: int, event: Event<V>)

  predicate Enabled<V>(s: Sys<V>, e: Event<V>)
  {
    match e
    case Look(r) => r !in s.pending
    case Change(r, _, _, _) => r !in s.pending
    case Finish(r) => r in s.pending
  }

  function LiveValue<V>(s: Sys<V>, now: int): (v: Option<V>)
  {
    if s.entry.Some? && Alive(s.entry.value, now) && s.entry.value.cell.Doc? then Some(s.entry.value.cell.value)
    else None
  }

  /** What a question at `now` is answered. */
  function Answer<V>(s: Sys<V>, now: int): (v: V)
  {
    if LiveValue(s, now).Some? then LiveValue(s, now).value else s.value
  }

  function Next<V>(s: Sys<V>, step: Step<V>): (s': Sys<V>)
    requires Enabled(s, step.event)
  {
    match step.event
    case Look(r) =>
      if LiveValue(s, step.now).Some? then s else s.(pending := s.pending[r := Fill(s.value, s.ttl)])
    case Change(r, value, ttl, drops) =>
      Sys(value, ttl, s.entry, if drops then s.pending[r := Drop] else s.pending)
    case Finish(r) =>
      s.(entry := match s.pending[r]
          case Fill(value, ttl) => Some(Entry(Doc(value), Expiry(ttl, step.now)))
          case Drop => None,
        pending := s.pending - {r})
  }

  predicate Runnable<V>(s: Sys<V>, steps: seq<Step<V>>)
    decreases |steps|, 0
  {
    steps == [] ||
    (Runnable(s, steps[..|steps| - 1]) && Enabled(Run(s, steps[..|steps| - 1]), steps[|steps| - 1].event))
  }

  function Run<V>(s: Sys<V>, steps: seq<Step<V>>): (s': Sys<V>)
    requires Runnable(s, steps)
    decreases |steps|, 1
  {
    if steps == [] then s else Next(Run(s, steps[..|steps| - 1]), steps[|steps| - 1])
  }

  // ------------------------------------------------------------------ where an answer comes from

  /** The value was what the rule said before the j-th step, which was a look-up. */
  ghost predicate ReadAt<V>(s: Sys<V>, steps: seq<Step<V>>, value: V, j: int)
    requires Runnable(s, steps)
  {
    && 0 <= j < |steps| && steps[j].event.Look?
    && Runnable(s, steps[..j]) && Run(s, steps[..j]).value == value
  }

  ghost predicate WasRead<V>(s: Sys<V>, steps: seq<Step<V>>, value: V)
    requires Runnable(s, steps)
  {
    exists j :: ReadAt(s, steps, value, j)
  }

  lemma StillRead<V>(s: Sys<V>, front: seq<Step<V>>, steps: seq<Step<V>>, value: V)
    requires Runnable(s, steps) && steps != [] && front == steps[..|steps| - 1]
    requires Runnable(s, front) && WasRead(s, front, value)
    ensures WasRead(s, steps, value)
  {
    var j :| ReadAt(s, front, value, j);
    assert front[..j] == steps[..j];
    assert ReadAt(s, steps, value, j);
  }

  ghost predicate AllRead<V>(s: Sys<V>, steps: seq<Step<V>>)
    requires Runnable(s, steps)
  {
    var now := Run(s, steps);
    && (now.entry.Some? && now.entry.value.cell.Doc? ==> WasRead(s, steps, now.entry.value.cell.value))
    && forall r :: r in now.pending && now.pending[r].Fill? ==> WasRead(s, steps, now.pending[r].value)
  }

  lemma {:induction false} EntriesWereRead<V>(s: Sys<V>, steps: seq<Step<V>>)
    requires s.entry == None && s.pending == map[] && Runnable(s, steps)
    ensures AllRead(s, steps)
    decreases |steps|
  {
    if steps != [] {
      var n := |steps| - 1;
      var front := steps[..n];
      EntriesWereRead(s, front);
      var before, after := Run(s, front), Run(s, steps);
      if steps[n].event.Look? {
        assert ReadAt(s, steps, before.value, n);
      }
      if after.entry.Some? && after.entry.value.cell.Doc? {
        StillRead(s, front, steps, after.entry.value.cell.value);
      }
      forall r | r in after.pending && after.pending[r].Fill?
        ensures WasRead(s, steps, after.pending[r].value)
      {
        if r in before.pending && before.pending[r] == after.pending[r] {
          StillRead(s, front, steps, after.pending[r].value);
        }
      }
    }
  }

  /**
    For every interleaving: an answer is the rule of now if and only if no live entry
    stands, or the rule said the same when the request that filled the entry looked.
   */
  lemma AnswerIsCurrentIff<V>(s: Sys<V>, steps: seq<Step<V>>, now: int) returns (j: int)
    requires s.entry == None && s.pending == map[] && Runnable(s, steps)
    ensures var s' := Run(s, steps);
      && (LiveValue(s', now).Some? ==> ReadAt(s, steps, LiveValue(s', now).value, j))
      && (Answer(s', now) == s'.value <==>
        LiveValue(s', now).None? || Run(s, steps[..j]).value == s'.value)
  {
    EntriesWereRead(s, steps);
    var s' := Run(s, steps);
    j := 0;
    if LiveValue(s', now).Some? {
      j :| ReadAt(s, steps, LiveValue(s', now).value, j);
    }
  }

  // ------------------------------------------------------------------ when answers go stale

  predicate DropIsDue<V>(s: Sys<V>)
  {
    exists r :: r in s.pending && s.pending[r].Drop?
  }

  /** The answer is the rule of now, or the entry is about to be dropped. */
  ghost predicate Settled<V>(s: Sys<V>, now: int)
  {
    Answer(s, now) == s.value || DropIsDue(s)
  }

  /**
    The step fills in a value that has changed since it was read, or changes the value of
    a live entry without dropping it, and no drop is due.
   */
  ghost predicate Stales<V>(s: Sys<V>, step: Step<V>)
    requires Enabled(s, step.event)
  {
    match step.event
    case Look(_) => false
    case Change(_, value, _, drops) =>
      !drops && !DropIsDue(s) && LiveValue(s, step.now).Some? && LiveValue(s, step.now).value != value
    case Finish(r) =>
      && s.pending[r].Fill? && !DropIsDue(s)
      && s.pending[r].value != s.value
  }

  predicate LiveTtl<V>(s: Sys<V>)
  {
    s.ttl > 0 && forall r :: r in s.pending && s.pending[r].Fill? ==> s.pending[r].ttl > 0
  }

  lemma DropsAfter<V>(s: Sys<V>, step: Step<V>)
    requires Enabled(s, step.event)
    ensures step.event.Look? ==> (DropIsDue(Next(s, step)) <==> DropIsDue(s))
    ensures step.event.Change? ==> (DropIsDue(Next(s, step)) <==> step.event.drops || DropIsDue(s))
    ensures step.event.Finish? && s.pending[step.event.r].Fill? ==> (DropIsDue(Next(s, step)) <==> DropIsDue(s))
  {
    var s' := Next(s, step);
    if DropIsDue(s) && !(step.event.Finish? && s.pending[step.event.r].Drop?) {
      var r :| r in s.pending && s.pending[r].Drop?;
      assert r in s'.pending && s'.pending[r].Drop?;
    }
    if step.event.Change? && step.event.drops {
      assert step.event.r in s'.pending && s'.pending[step.event.r].Drop?;
    }
  }

  lemma StepSettledIff<V>(s: Sys<V>, step: Step<V>)
    requires Settled(s, step.now) && Enabled(s, step.event) && LiveTtl(s)
    ensures Settled(Next(s, step), step.now) <==> !Stales(s, step)
  {
    DropsAfter(s, step);
  }

  /** Time passing settles only more. */
  lemma SettledLater<V>(s: Sys<V>, now: int, later: int)
    requires Settled(s, now) && now <= later
    ensures Settled(s, later)
  {
  }

  ghost predicate NeverStales<V>(s: Sys<V>, steps: seq<Step<V>>)
    requires Runnable(s, steps)
    decreases |steps|
  {
    steps != [] ==>
      var n := |steps| - 1;
      NeverStales(s, steps[..n]) && !Stales(Run(s, steps[..n]), steps[n])
  }

  ghost predicate SettledThroughout<V>(s: Sys<V>, steps: seq<Step<V>>)
    requires Runnable(s, steps)
    decreases |steps|
  {
    steps != [] ==>
      var n := |steps| - 1;
      SettledThroughout(s, steps[..n]) && Settled(Run(s, steps), steps[n].now)
  }

  predicate Ordered<V>(start: int, steps: seq<Step<V>>)
    decreases |steps|
  {
    steps != [] ==>
      var n := |steps| - 1;
      && Ordered(start, steps[..n])
      && (if n == 0 then start else steps[n - 1].now) <= steps[n].now
  }

  /** Every change names a time to keep its value. */
  predicate TtlsLive<V>(steps: seq<Step<V>>)
  {
    forall i :: 0 <= i < |steps| && steps[i].event.Change? ==> steps[i].event.ttl > 0
  }

  lemma {:induction false} RunKeepsTtls<V>(s: Sys<V>, steps: seq<Step<V>>)
    requires LiveTtl(s) && Runnable(s, steps) && TtlsLive(steps)
    ensures LiveTtl(Run(s, steps))
    decreases |steps|
  {
    if steps != [] {
      RunKeepsTtls(s, steps[..|steps| - 1]);
    }
  }

  /**
    Over every interleaving: answers stay current, but while a drop is due, if and only
    if no fill brings back a value that changed behind it and no change leaves a live
    entry with another value.
   */
  lemma {:induction false} SettledIffNeverStales<V>(s: Sys<V>, steps: seq<Step<V>>, start: int)
    requires s.entry == None && s.pending == map[] && s.ttl > 0
    requires Runnable(s, steps) && Ordered(start, steps) && TtlsLive(steps)
    ensures SettledThroughout(s, steps) <==> NeverStales(s, steps)
    ensures SettledThroughout(s, steps) ==>
      Settled(Run(s, steps), if steps == [] then start else steps[|steps| - 1].now)
    decreases |steps|
  {
    if steps != [] {
      var n := |steps| - 1;
      var front := steps[..n];
      SettledIffNeverStales(s, front, start);
      RunKeepsTtls(s, front);
      if SettledThroughout(s, front) {
        SettledLater(Run(s, front), if n == 0 then start else front[n - 1].now, steps[n].now);
        StepSettledIff(Run(s, front), steps[n]);
      }
    }
  }

  /** A change and its drop that fall between a look-up and its fill are not seen for the entry's whole life. */
  lemma OvertakenChangeIsNotSeen<V>(s: Sys<V>, value: V, ttl: nat, t: int, now: int)
    requires s.entry == None && s.pending == map[] && s.ttl > 0
    ensures var s1 := Next(s, Step(t, Look(1)));
      var s2 := Next(s1, Step(t, Change(2, value, ttl, true)));
      var s3 := Next(s2, Step(t, Finish(2)));
      var s4 := Next(s3, Step(t, Finish(1)));
      && s4.value == value && s4.pending == map[]
      && Answer(s4, now) == if now < t + s.ttl then s.value else value
  {
  }

  // ------------------------------------------------------------------ the two services

  /** A question asked with nothing in between. */
  function WholeAsk<V>(s: Sys<V>, now: int): (s': Sys<V>)
    requires s.pending == map[]
  {
    var looked := Next(s, Step(now, Look(0)));
    if 0 in looked.pending then Next(looked, Step(now, Finish(0))) else looked
  }

  /** A change and its drop with nothing in between. */
  function WholeChange<V>(s: Sys<V>, value: V, ttl: nat, drops: bool, now: int): (s': Sys<V>)
    requires s.pending == map[]
  {
    var changed := Next(s, Step(now, Change(0, value, ttl, drops)));
    if drops then Next(changed, Step(now, Finish(0))) else changed
  }

  function EntryOf<K, V>(cache: Data<K, V>, key: K): (e: Option<Entry<V>>)
  {
    if key in cache then Some(cache[key]) else None
  }

  function FlagView(s: FeatureFlags.State, t: Option<string>, f: string): (v: Sys<string>)
  {
    Sys(FeatureFlags.Text(FeatureFlags.Rule(s.flags, s.overrides, t, f)), FeatureFlags.CacheSeconds(s.flags, f),
      EntryOf(s.cache, FeatureFlags.CacheKey(t, f)), map[])
  }

  function DayView(s: SchoolCalendar.State, p: SchoolCalendar.Place): (v: Sys<SchoolCalendar.Verdict>)
  {
    Sys(SchoolCalendar.Rule(s.official, s.school, p), SchoolCalendar.CACHE_TTL_SECONDS, EntryOf(s.cache, p), map[])
  }

  lemma WholeAskIs<V>(s: Sys<V>, now: int)
    requires s.pending == map[]
    ensures WholeAsk(s, now) ==
      if LiveValue(s, now).Some? then s else s.(entry := Some(Entry(Doc(s.value), Expiry(s.ttl, now))))
  {
  }

  lemma WholeChangeIs<V>(s: Sys<V>, value: V, ttl: nat, drops: bool, now: int)
    requires s.pending == map[]
    ensures WholeChange(s, value, ttl, drops, now) == Sys(value, ttl, if drops then None else s.entry, map[])
  {
  }

  lemma FlagAskIsWhole(s: FeatureFlags.State, step: FeatureFlags.Step, t: Option<string>, f: string)
    requires step.event.IsEnabled? && FeatureFlags.Enabled(s, step.event) && FeatureFlags.Plain(t)
    ensures var before := FlagView(s, t, f);
      FlagView(FeatureFlags.Next(s, step).0, t, f) ==
        if step.event.flag == f && step.event.tenant == t then WholeAsk(before, step.now) else before
  {
    FeatureFlags.KeyInjective(t, f, step.event.tenant, step.event.flag);
    WholeAskIs(FlagView(s, t, f), step.now);
  }

  lemma FlagChangeIsWhole(s: FeatureFlags.State, step: FeatureFlags.Step, t: Option<string>, f: string)
    requires FeatureFlags.Inv(s) && FeatureFlags.Enabled(s, step.event) && FeatureFlags.Plain(t)
    requires step.event.SetTenantFlag?
    ensures var before, after := FlagView(s, t, f), FlagView(FeatureFlags.Next(s, step).0, t, f);
      after == if step.event.flag == f && Some(step.event.owner) == t && f in s.flags
        then WholeChange(before, FeatureFlags.Text(step.event.isEnabled), 600, true, step.now) else before
  {
    FeatureFlags.KeyInjective(t, f, Some(step.event.owner), step.event.flag);
    WholeChangeIs(FlagView(s, t, f), FeatureFlags.Text(step.event.isEnabled), 600, true, step.now);
  }

  /** What each whole request of the flags does to one question. */
  lemma FlagStepsAreWhole(s: FeatureFlags.State, step: FeatureFlags.Step, t: Option<string>, f: string)
    requires FeatureFlags.Inv(s) && FeatureFlags.Enabled(s, step.event) && FeatureFlags.Plain(t)
    ensures var before, after := FlagView(s, t, f), FlagView(FeatureFlags.Next(s, step).0, t, f);
      match step.event
      case IsEnabled(flag, tenant) => after == if flag == f && tenant == t then WholeAsk(before, step.now) else before
      case SetTenantFlag(owner, flag, isEnabled) =>
        after == if flag == f && Some(owner) == t && f in s.flags
          then WholeChange(before, FeatureFlags.Text(isEnabled), 600, true, step.now) else before
      case RegisterFlag(_, _, _) => after == WholeChange(before, after.value, after.ttl, false, step.now)
  {
    match step.event
    case IsEnabled(_, _) => FlagAskIsWhole(s, step, t, f);
    case SetTenantFlag(_, _, _) => FlagChangeIsWhole(s, step, t, f);
    case RegisterFlag(_, _, _) =>
      var after := FlagView(FeatureFlags.Next(s, step).0, t, f);
      WholeChangeIs(FlagView(s, t, f), after.value, after.ttl, false, step.now);
  }

  /** The step adds or removes the school holiday of this place. */
  predicate ChangesSchool(s: SchoolCalendar.State, e: SchoolCalendar.Event, p: SchoolCalendar.Place)
  {
    match e
    case AddSchool(tenant, date, _) =>
      SchoolCalendar.Normalize(date) == Some(p.day) && tenant == p.tenant && p !in s.school
    case RemoveSchool(tenant, _, foundOn) => foundOn == Some(p.day) && tenant == p.tenant
    case _ => false
  }

  lemma DayAskIsWhole(s: SchoolCalendar.State, step: SchoolCalendar.Step, p: SchoolCalendar.Place)
    requires step.event.Ask?
    ensures var before := DayView(s, p);
      DayView(SchoolCalendar.Next(s, step).0, p) ==
        if SchoolCalendar.Normalize(step.event.date) == Some(p.day) && step.event.tenant == p.tenant
        then WholeAsk(before, step.now) else before
  {
    WholeAskIs(DayView(s, p), step.now);
  }

  lemma SchoolChangeIsWhole(s: SchoolCalendar.State, step: SchoolCalendar.Step, p: SchoolCalendar.Place)
    requires SchoolCalendar.Enabled(s, step.event) && (step.event.AddSchool? || step.event.RemoveSchool?)
    ensures var before, after := DayView(s, p), DayView(SchoolCalendar.Next(s, step).0, p);
      after == if ChangesSchool(s, step.event, p)
        then WholeChange(before, after.value, after.ttl, true, step.now) else before
  {
    var after := DayView(SchoolCalendar.Next(s, step).0, p);
    WholeChangeIs(DayView(s, p), after.value, after.ttl, true, step.now);
    if step.event.AddSchool? {
      if SchoolCalendar.Normalize(step.event.date).Some? {
        SchoolCalendar.NormalizeIsStable(SchoolCalendar.Normalize(step.event.date).value, 0);
      }
    } else if step.event.foundOn.Some? {
      SchoolCalendar.NormalizeIsStable(step.event.foundOn.value, 0);
    }
  }

  /** What each whole request of the calendar does to one day of one school. */
  lemma DayStepsAreWhole(s: SchoolCalendar.State, step: SchoolCalendar.Step, p: SchoolCalendar.Place)
    requires SchoolCalendar.Enabled(s, step.event)
    ensures var before, after := DayView(s, p), DayView(SchoolCalendar.Next(s, step).0, p);
      match step.event
      case Ask(tenant, date) =>
        after == if SchoolCalendar.Normalize(date) == Some(p.day) && tenant == p.tenant
          then WholeAsk(before, step.now) else before
      case AddOfficial(_, _) => after == WholeChange(before, after.value, after.ttl, false, step.now)
      case RemoveOfficial(_, _) => after == WholeChange(before, after.value, after.ttl, false, step.now)
      case _ =>
        after == if ChangesSchool(s, step.event, p)
          then WholeChange(before, after.value, after.ttl, true, step.now) else before
  {
    if step.event.Ask? {
      DayAskIsWhole(s, step, p);
    } else if step.event.AddSchool? || step.event.RemoveSchool? {
      SchoolChangeIsWhole(s, step, p);
    } else {
      var after := DayView(SchoolCalendar.Next(s, step).0, p);
      WholeChangeIs(DayView(s, p), after.value, after.ttl, false, step.now);
    }
  }
}

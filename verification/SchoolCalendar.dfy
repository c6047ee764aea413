/**
  Whether a date is a working day for a school, answered from a cache of one day's
  lifetime in front of the tables of official and school holidays.
 */
module SchoolCalendar {
  import opened Optional
  import opened TimedStore

  type Id = string
  type Title = string

  /** Days since the first of January 1970, which was a Thursday. */
  type Day = int

  // ------------------------------------------------------------------ dates

  const MS_PER_DAY := 86400000
  const TEHRAN_OFFSET_MS := 12600000
  const NOON_IN_TEHRAN_MS := 30600000

  datatype DateInput = Moment(ms: int) | JalaliDay(day: Day) | Unreadable

  function MidnightUtc(day: Day): (ms: int)
  {
    day * MS_PER_DAY
  }

  /** The day it is in Tehran at a moment. */
  function TehranDay(ms: int): (day: Day)
  {
    (ms + TEHRAN_OFFSET_MS) / MS_PER_DAY
  }

  function Normalize(input: DateInput): (day: Option<Day>)
  {
    match input
    case Moment(ms) => Some(TehranDay(ms))
    case JalaliDay(day) => Some(TehranDay(MidnightUtc(day) + NOON_IN_TEHRAN_MS))
    case Unreadable => None
  }

  /**
    A day written down and read again, as its midnight or as a Jalali date, is the same
    day; so are all moments of a day in Tehran.
   */
  lemma NormalizeIsStable(day: Day, ms: int)
    ensures Normalize(Moment(MidnightUtc(day))) == Some(day) == Normalize(JalaliDay(day))
    ensures Normalize(Moment(ms)) == Some(day) <==>
      MidnightUtc(day) - TEHRAN_OFFSET_MS <= ms < MidnightUtc(day + 1) - TEHRAN_OFFSET_MS
    ensures Normalize(Moment(ms)) == Some(day) <==>
      day * 86400000 - 12600000 <= ms < day * 86400000 + 73800000
    ensures Normalize(Unreadable) == None
  {
  }

  /** Saturday is 0 and Friday is 6. */
  function TehranWeekday(ms: int): (index: int)
  {
    ((TehranDay(ms) + 4) % 7 + 1) % 7
  }

  predicate IsFriday(day: Day)
  {
    TehranWeekday(MidnightUtc(day)) == 6
  }

  /** Day 1, the second of January 1970, is a Friday, and so is every seventh day from there. */
  lemma FridaysAre(day: Day)
    ensures IsFriday(1)
    ensures IsFriday(day) <==> (day - 1) % 7 == 0
  {
  }

  // ------------------------------------------------------------------ state

  datatype Place = Place(tenant: Id, day: Day)

  datatype Holiday = Holiday(id: Id, title: Title)

  datatype Reason = Friday | Official(title: Title) | School(title: Title) | Working

  datatype Verdict = Verdict(isWorkingDay: bool, day: Day, reason: Reason)

  type OfficialTable = map<Day, Holiday>
  type SchoolTable = map<Place, Holiday>
  type Cache = Data<Place, Verdict>

  datatype State = Tables(official: OfficialTable, school: SchoolTable, cache: Cache)

  const CACHE_TTL_SECONDS := 86400

  /** The rule without a cache: Friday, then official, then the school's own holiday, then a working day. */
  function Rule(official: OfficialTable, school: SchoolTable, p: Place): (v: Verdict)
    ensures v.day == p.day
    ensures v.isWorkingDay <==> !IsFriday(p.day) && p.day !in official && p !in school
  {
    if IsFriday(p.day) then Verdict(false, p.day, Friday)
    else if p.day in official then Verdict(false, p.day, Official(official[p.day].title))
    else if p in school then Verdict(false, p.day, School(school[p].title))
    else Verdict(true, p.day, Working)
  }

  /** The verdict with its reason: Friday before an official holiday before one of the school. */
  lemma RuleIs(official: OfficialTable, school: SchoolTable, p: Place)
    ensures var v := Rule(official, school, p);
      && v.day == p.day && (v.isWorkingDay <==> v.reason == Working)
      && (v.reason == Friday <==> (p.day - 1) % 7 == 0)
      && (v.reason.Official? <==> (p.day - 1) % 7 != 0 && p.day in official)
      && (v.reason.School? <==> (p.day - 1) % 7 != 0 && p.day !in official && p in school)
      && (v.reason.Official? ==> v.reason.title == official[p.day].title)
      && (v.reason.School? ==> v.reason.title == school[p].title)
  {
  }

  datatype Event =
    | Ask(tenant: Id, date: DateInput)
    | AddSchool(tenant: Id, date: DateInput, holiday: Holiday)
    | RemoveSchool(tenant: Id, id: Id, foundOn: Option<Day>)
    | AddOfficial(date: DateInput, holiday: Holiday)
    | RemoveOfficial(id: Id, foundOn: Option<Day>)

  datatype Step = Step(now: int, event: Event)

  datatype Answer = BadDate | Conflict(title: Title) | NotFound | Saved | Says(verdict: Verdict)

  /** The lookup of a row by its id returns a day that has it, or nothing when no day has. */
  predicate Enabled(s: State, e: Event)
  {
    match e
    case RemoveSchool(tenant, id, foundOn) =>
      if foundOn.Some? then Place(tenant, foundOn.value) in s.school && s.school[Place(tenant, foundOn.value)].id == id
      else forall p :: p in s.school && p.tenant == tenant ==> s.school[p].id != id
    case RemoveOfficial(id, foundOn) =>
      if foundOn.Some? then foundOn.value in s.official && s.official[foundOn.value].id == id
      else forall d :: d in s.official ==> s.official[d].id != id
    case _ => true
  }

  /** The cached answer of a place is dropped; the place is worked out again from the midnight of its day. */
  function Invalidated(cache: Cache, tenant: Id, day: Day): (cache': Cache)
  {
    Del(cache, Place(tenant, TehranDay(MidnightUtc(day))))
  }

  function AskAt(s: State, p: Place, now: int): (r: (State, Answer))
  {
    var hit := Find(s.cache, p, now);
    if hit.Some? && hit.value.cell.Doc? then (s, Says(hit.value.cell.value))
    else
      var v := Rule(s.official, s.school, p);
      (s.(cache := Put(s.cache, p, v, CACHE_TTL_SECONDS, now)), Says(v))
  }

  function Next(s: State, step: Step): (r: (State, Answer))
  {
    match step.event
    case Ask(tenant, date) => (
      var day := Normalize(date);
      if day.None? then (s, BadDate) else AskAt(s, Place(tenant, day.value), step.now))
    case AddSchool(tenant, date, holiday) => (
      var day := Normalize(date);
      if day.None? then (s, BadDate)
      else
        var p := Place(tenant, day.value);
        if p in s.school then (s, Conflict(s.school[p].title))
        else (s.(school := s.school[p := holiday], cache := Invalidated(s.cache, tenant, day.value)), Saved))
    case RemoveSchool(tenant, id, foundOn) => (
      if foundOn.None? then (s, NotFound)
      else
        var school := s.school - {Place(tenant, foundOn.value)};
        (s.(school := school, cache := Invalidated(s.cache, tenant, foundOn.value)), Saved))
    case AddOfficial(date, holiday) => (
      var day := Normalize(date);
      if day.None? then (s, BadDate)
      else if day.value in s.official then (s, Conflict(s.official[day.value].title))
      else (s.(official := s.official[day.value := holiday]), Saved))
    case RemoveOfficial(id, foundOn) => (
      if foundOn.None? then (s, NotFound) else (s.(official := s.official - {foundOn.value}), Saved))
  }

  // ------------------------------------------------------------------ what the requests answer and write

  /** A question is answered from an entry that is alive, else by the rule, which is then kept for a day. */
  lemma AskDoes(s: State, now: int, tenant: Id, date: DateInput)
    ensures var (s', answer) := Next(s, Step(now, Ask(tenant, date)));
      && s'.official == s.official && s'.school == s.school
      && (Normalize(date).None? ==> s' == s && answer == BadDate)
      && (Normalize(date).Some? ==>
        var p := Place(tenant, Normalize(date).value);
        var alive := p in s.cache && s.cache[p].cell.Doc? &&
          (s.cache[p].expiresAt.Some? ==> now < s.cache[p].expiresAt.value);
        if alive then s' == s && answer == Says(s.cache[p].cell.value)
        else
          && answer == Says(Rule(s.official, s.school, p))
          && s'.cache == s.cache[p := Entry(Doc(Rule(s.official, s.school, p)), Some(now + 86400))])
  {
  }

  /** A school's holiday is added once a day, and the day's cached answer dropped; removing one drops it too. */
  lemma SchoolHolidayDoes(s: State, now: int, tenant: Id, date: DateInput, h: Holiday, id: Id, foundOn: Option<Day>)
    requires Enabled(s, RemoveSchool(tenant, id, foundOn))
    ensures var (s', answer) := Next(s, Step(now, AddSchool(tenant, date, h)));
      if Normalize(date).None? then s' == s && answer == BadDate
      else
        var p := Place(tenant, Normalize(date).value);
        if p in s.school then s' == s && answer == Conflict(s.school[p].title)
        else answer == Saved && s' == Tables(s.official, s.school[p := h], s.cache - {p})
    ensures var (s', answer) := Next(s, Step(now, RemoveSchool(tenant, id, foundOn)));
      if foundOn.None? then s' == s && answer == NotFound
      else
        var p := Place(tenant, foundOn.value);
        answer == Saved && s' == Tables(s.official, s.school - {p}, s.cache - {p})
  {
    if Normalize(date).Some? {
      NormalizeIsStable(Normalize(date).value, 0);
    }
    if foundOn.Some? {
      NormalizeIsStable(foundOn.value, 0);
    }
  }

  /** An official holiday is added once a day; neither adding nor removing one touches the cache. */
  lemma OfficialHolidayDoes(s: State, now: int, date: DateInput, h: Holiday, id: Id, foundOn: Option<Day>)
    requires Enabled(s, RemoveOfficial(id, foundOn))
    ensures var (s', answer) := Next(s, Step(now, AddOfficial(date, h)));
      if Normalize(date).None? then s' == s && answer == BadDate
      else if Normalize(date).value in s.official
      then s' == s && answer == Conflict(s.official[Normalize(date).value].title)
      else answer == Saved && s' == Tables(s.official[Normalize(date).value := h], s.school, s.cache)
    ensures var (s', answer) := Next(s, Step(now, RemoveOfficial(id, foundOn)));
      if foundOn.None? then s' == s && answer == NotFound
      else answer == Saved && s' == Tables(s.official - {foundOn.value}, s.school, s.cache)
  {
  }

  // ------------------------------------------------------------------ runs

  function Run(s: State, steps: seq<Step>): (s': State)
    decreases |steps|
  {
    if steps == [] then s else Next(Run(s, steps[..|steps| - 1]), steps[|steps| - 1]).0
  }

  /** The official table as it stood before the i-th step. */
  function OfficialBefore(s: State, steps: seq<Step>, i: nat): (t: OfficialTable)
    requires i <= |steps|
  {
    Run(s, steps[..i]).official
  }

  predicate Ordered(steps: seq<Step>)
  {
    forall i, j :: 0 <= i < j < |steps| ==> steps[i].now <= steps[j].now
  }

  /**
    The cached entry was worked out at the j-th step, whose official table it shows
    together with today's school table.
   */
  predicate CachedAt(s: State, steps: seq<Step>, school: SchoolTable, p: Place, e: Entry<Verdict>, j: int)
  {
    && 0 <= j < |steps|
    && e == Entry(Doc(Rule(OfficialBefore(s, steps, j), school, p)), Some(steps[j].now + CACHE_TTL_SECONDS))
  }

  ghost predicate Explained(s: State, steps: seq<Step>, school: SchoolTable, p: Place, e: Entry<Verdict>)
  {
    exists j :: CachedAt(s, steps, school, p, e, j)
  }

  ghost predicate AllExplained(s: State, steps: seq<Step>, school: SchoolTable, cache: Cache)
  {
    forall p :: p in cache ==> Explained(s, steps, school, p, cache[p])
  }

  predicate SameRow(a: SchoolTable, b: SchoolTable, p: Place)
  {
    (p in a <==> p in b) && (p in a ==> a[p] == b[p])
  }

  function Fresh(s: State, p: Place, now: int): (e: Entry<Verdict>)
  {
    Entry(Doc(Rule(s.official, s.school, p)), Some(now + CACHE_TTL_SECONDS))
  }

  /** An entry after a step is an old one whose school holiday is as it was, or one just worked out. */
  lemma EntryIsOldOrFresh(s: State, step: Step, p: Place)
    requires p in Next(s, step).0.cache
    ensures
      var s' := Next(s, step).0;
      || (p in s.cache && s'.cache[p] == s.cache[p] && SameRow(s.school, s'.school, p))
      || (s'.cache[p] == Fresh(s, p, step.now) && s'.school == s.school)
  {
    NormalizeIsStable(p.day, 0);
  }

  lemma StillCached(s: State, steps: seq<Step>, school: SchoolTable, school': SchoolTable, p: Place,
      e: Entry<Verdict>, more: Step)
    requires Explained(s, steps, school, p, e)
    requires SameRow(school, school', p)
    ensures Explained(s, steps + [more], school', p, e)
  {
    var j :| CachedAt(s, steps, school, p, e, j);
    assert (steps + [more])[..j] == steps[..j];
    assert CachedAt(s, steps + [more], school', p, e, j);
  }

  /** One step, given what the state before it looks like. */
  lemma StepKeepsExplained(s: State, steps: seq<Step>, more: Step)
    requires AllExplained(s, steps, Run(s, steps).school, Run(s, steps).cache)
    ensures AllExplained(s, steps + [more], Next(Run(s, steps), more).0.school, Next(Run(s, steps), more).0.cache)
  {
    var before := Run(s, steps);
    var after := Next(before, more).0;
    forall p | p in after.cache
      ensures Explained(s, steps + [more], after.school, p, after.cache[p])
    {
      EntryIsOldOrFresh(before, more, p);
      if p in before.cache && after.cache[p] == before.cache[p] && SameRow(before.school, after.school, p) {
        StillCached(s, steps, before.school, after.school, p, before.cache[p], more);
      } else {
        assert (steps + [more])[..|steps|] == steps;
        assert CachedAt(s, steps + [more], after.school, p, after.cache[p], |steps|);
      }
    }
  }

  lemma {:induction false} RunIsExplained(s: State, steps: seq<Step>)
    requires s.cache == map[]
    ensures AllExplained(s, steps, Run(s, steps).school, Run(s, steps).cache)
    decreases |steps|
  {
    if steps != [] {
      var n := |steps| - 1;
      RunIsExplained(s, steps[..n]);
      StepKeepsExplained(s, steps[..n], steps[n]);
      assert steps[..n] + [steps[n]] == steps;
    }
  }

  /**
    Cache refinement, for every run from an empty cache.  The answer to a question is
    the uncached rule with the school's own holidays as they are now and the official
    table of some step less than 24 hours before.
   */
  lemma AnswersFollowRule(s: State, steps: seq<Step>, now: int, tenant: Id, date: DateInput) returns (j: nat)
    requires s.cache == map[] && Ordered(steps + [Step(now, Ask(tenant, date))])
    requires Normalize(date).Some?
    ensures j <= |steps|
    ensures j < |steps| ==> now - CACHE_TTL_SECONDS < steps[j].now <= now
    ensures Next(Run(s, steps), Step(now, Ask(tenant, date))).1 ==
      Says(Rule(OfficialBefore(s, steps, j), Run(s, steps).school, Place(tenant, Normalize(date).value)))
  {
    var before := Run(s, steps);
    var p := Place(tenant, Normalize(date).value);
    RunIsExplained(s, steps);
    if Find(before.cache, p, now).Some? {
      assert Explained(s, steps, before.school, p, before.cache[p]);
      j :| CachedAt(s, steps, before.school, p, before.cache[p], j);
      var all := steps + [Step(now, Ask(tenant, date))];
      assert all[j] == steps[j] && all[|steps|].now == now;
    } else {
      j := |steps|;
      assert steps[..j] == steps;
    }
  }

  /**
    The official tables say the same of a day: always on a Friday, else when they list the
    same title or neither lists any.
   */
  predicate SameSaying(a: OfficialTable, b: OfficialTable, day: Day)
  {
    IsFriday(day) || ((day in a <==> day in b) && (day in a ==> a[day].title == b[day].title))
  }

  lemma SameVerdictIff(a: OfficialTable, b: OfficialTable, school: SchoolTable, p: Place)
    ensures Rule(a, school, p) == Rule(b, school, p) <==> SameSaying(a, b, p.day)
  {
  }

  /**
    When an answer is the uncached one: if and only if no live entry stands for the
    day, or the official table of the step that worked the entry out says the same of
    the day as today's, whatever schools have added and removed since.
   */
  lemma AnswerIsExactIff(s: State, steps: seq<Step>, now: int, tenant: Id, date: DateInput) returns (j: nat)
    requires s.cache == map[] && Ordered(steps + [Step(now, Ask(tenant, date))])
    requires Normalize(date).Some?
    ensures var before, p := Run(s, steps), Place(tenant, Normalize(date).value);
      var entry := Find(before.cache, p, now);
      && (entry.Some? ==> CachedAt(s, steps, before.school, p, entry.value, j))
      && j <= |steps|
      && (Next(before, Step(now, Ask(tenant, date))).1 == Says(Rule(before.official, before.school, p)) <==>
            entry.None? || SameSaying(OfficialBefore(s, steps, j), before.official, p.day))
  {
    var before, p := Run(s, steps), Place(tenant, Normalize(date).value);
    RunIsExplained(s, steps);
    j := 0;
    if Find(before.cache, p, now).Some? {
      assert Explained(s, steps, before.school, p, before.cache[p]);
      j :| CachedAt(s, steps, before.school, p, before.cache[p], j);
      SameVerdictIff(OfficialBefore(s, steps, j), before.official, before.school, p);
    }
  }

  /** Nothing official was announced, renamed or withdrawn for this day in the last 24 hours. */
  predicate OfficialSettled(s: State, steps: seq<Step>, now: int, day: Day)
  {
    forall j :: 0 <= j < |steps| && now - CACHE_TTL_SECONDS < steps[j].now ==>
      SameSaying(OfficialBefore(s, steps, j), Run(s, steps).official, day)
  }

  /** So with the official table settled the cache cannot be told from no cache. */
  lemma SettledAnswersAreExact(s: State, steps: seq<Step>, now: int, tenant: Id, date: DateInput)
    requires s.cache == map[] && Ordered(steps + [Step(now, Ask(tenant, date))])
    requires Normalize(date).Some? && OfficialSettled(s, steps, now, Normalize(date).value)
    ensures Next(Run(s, steps), Step(now, Ask(tenant, date))).1 ==
      Says(Rule(Run(s, steps).official, Run(s, steps).school, Place(tenant, Normalize(date).value)))
  {
    var j := AnswerIsExactIff(s, steps, now, tenant, date);
    if Find(Run(s, steps).cache, Place(tenant, Normalize(date).value), now).Some? {
      assert now < steps[j].now + CACHE_TTL_SECONDS;
    }
  }

  /**
    An official holiday announced after a question is not seen for a day: the cache is
    dropped only by school holidays.
   */
  lemma NewOfficialHolidayIsNotSeen(tenant: Id, day: Day, now: int, later: int, h: Holiday)
    requires !IsFriday(day) && now <= later
    ensures
      var ask := Ask(tenant, Moment(MidnightUtc(day)));
      var announce := AddOfficial(Moment(MidnightUtc(day)), h);
      var s := Run(Tables(map[], map[], map[]), [Step(now, ask), Step(now, announce)]);
      && day in s.official
      && (Next(s, Step(later, ask)).1 == Says(Verdict(true, day, Working)) <==> later < now + CACHE_TTL_SECONDS)
  {
    NormalizeIsStable(day, 0);
    var ask := Ask(tenant, Moment(MidnightUtc(day)));
    var announce := AddOfficial(Moment(MidnightUtc(day)), h);
    var steps := [Step(now, ask), Step(now, announce)];
    assert steps[..1] == [Step(now, ask)] && steps[..1][..0] == [];
    var s1 := Next(Tables(map[], map[], map[]), Step(now, ask)).0;
    assert Run(Tables(map[], map[], map[]), steps[..1]) == s1;
    assert Run(Tables(map[], map[], map[]), steps) == Next(s1, Step(now, announce)).0;
  }

  // ------------------------------------------------------------------ the service

  class SchoolCalendarService {
    var official: OfficialTable
    var school: SchoolTable
    const redis: RedisService<Place, Verdict>

    constructor (redis: RedisService<Place, Verdict>)
      ensures this.redis == redis && official == map[] && school == map[]
    {
      this.redis := redis;
      official := map[];
      school := map[];
    }

    ghost function Current(): (s: State)
      reads this, redis
    {
      Tables(official, school, redis.data)
    }

    method InvalidateWorkingDayCache(tenant: Id, date: DateInput)
      modifies redis`data
      ensures redis.data ==
        if Normalize(date).None? || !redis.ready then old(redis.data)
        else Del(old(redis.data), Place(tenant, Normalize(date).value))
    {
      var day := Normalize(date);
      if day.Some? {
        redis.Delete(Place(tenant, day.value));
      }
    }

    /** Without a connection every answer is the uncached rule. */
    method IsWorkingDay(tenant: Id, date: DateInput, now: int) returns (answer: Answer)
      modifies redis`data
      ensures redis.ready ==> (Current(), answer) == Next(old(Current()), Step(now, Ask(tenant, date)))
      ensures !redis.ready ==>
        && Current() == old(Current())
        && answer ==
          if Normalize(date).None? then BadDate
          else Says(Rule(official, school, Place(tenant, Normalize(date).value)))
    {
      var day := Normalize(date);
      if day.None? {
        return BadDate;
      }
      var p := Place(tenant, day.value);
      var cached := redis.Get(p, now);
      if cached.Some? && cached.value.Doc? {
        return Says(cached.value.value);
      }
      var result: Verdict;
      if IsFriday(day.value) {
        result := Verdict(false, day.value, Friday);
      } else if day.value in official {
        result := Verdict(false, day.value, Official(official[day.value].title));
      } else if p in school {
        result := Verdict(false, day.value, School(school[p].title));
      } else {
        result := Verdict(true, day.value, Working);
      }
      redis.Set(p, result, CACHE_TTL_SECONDS, now);
      answer := Says(result);
    }

    method AddTenantHoliday(tenant: Id, date: DateInput, holiday: Holiday, now: int) returns (answer: Answer)
      modifies this`school, redis`data
      ensures redis.ready ==> (Current(), answer) == Next(old(Current()), Step(now, AddSchool(tenant, date, holiday)))
      ensures !redis.ready ==>
        var (s', a) := Next(old(Current()), Step(now, AddSchool(tenant, date, holiday)));
        answer == a && Current() == s'.(cache := old(redis.data))
    {
      var day := Normalize(date);
      if day.None? {
        return BadDate;
      }
      var p := Place(tenant, day.value);
      if p in school {
        return Conflict(school[p].title);
      }
      school := school[p := holiday];
      InvalidateWorkingDayCache(tenant, Moment(MidnightUtc(day.value)));
      answer := Saved;
    }

    method RemoveTenantHoliday(tenant: Id, id: Id, foundOn: Option<Day>, now: int) returns (answer: Answer)
      requires Enabled(Current(), RemoveSchool(tenant, id, foundOn))
      modifies this`school, redis`data
      ensures redis.ready ==> (Current(), answer) == Next(old(Current()), Step(now, RemoveSchool(tenant, id, foundOn)))
      ensures !redis.ready ==>
        var (s', a) := Next(old(Current()), Step(now, RemoveSchool(tenant, id, foundOn)));
        answer == a && Current() == s'.(cache := old(redis.data))
    {
      if foundOn.None? {
        return NotFound;
      }
      school := school - {Place(tenant, foundOn.value)};
      InvalidateWorkingDayCache(tenant, Moment(MidnightUtc(foundOn.value)));
      answer := Saved;
    }

    method AddOfficialHoliday(date: DateInput, holiday: Holiday, now: int) returns (answer: Answer)
      modifies this`official
      ensures (Current(), answer) == Next(old(Current()), Step(now, AddOfficial(date, holiday)))
    {
      var day := Normalize(date);
      if day.None? {
        return BadDate;
      }
      if day.value in official {
        return Conflict(official[day.value].title);
      }
      official := official[day.value := holiday];
      answer := Saved;
    }

    method RemoveOfficialHoliday(id: Id, foundOn: Option<Day>, now: int) returns (answer: Answer)
      requires Enabled(Current(), RemoveOfficial(id, foundOn))
      modifies this`official
      ensures (Current(), answer) == Next(old(Current()), Step(now, RemoveOfficial(id, foundOn)))
    {
      if foundOn.None? {
        return NotFound;
      }
      official := official - {foundOn.value};
      answer := Saved;
    }
  }
}

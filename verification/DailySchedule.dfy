/**
  A teacher's schedule for one day: the slots of that weekday that name the
  teacher, without the alternating-week slots that belong to the other teacher
  this week.
 */
module DailySchedule {
  import opened Optional
  import opened Timetable
  import opened WeekParity

  datatype Entry = Entry(slotId: Id, classroomId: Id, lessonId: Id, teacherId: Id, period: int)

  /** The teacher a slot belongs to in a week; without a second teacher the first keeps it. */
  function ActiveTeacher(slot: Slot, week: Week): (t: Id)
  {
    if slot.isSplitPeriod && week == Even && slot.secondTeacherId.Some? then slot.secondTeacherId.value
    else slot.teacherId
  }

  function ActiveLesson(slot: Slot, week: Week): (l: Id)
  {
    if slot.isSplitPeriod && week == Even && slot.secondLessonId.Some? then slot.secondLessonId.value else slot.lessonId
  }

  function EntryOf(rows: Rows, id: Id, week: Week): (e: Entry)
    requires id in rows
  {
    Entry(id, rows[id].classroomId, ActiveLesson(rows[id], week), ActiveTeacher(rows[id], week), rows[id].period)
  }

  /** The database query: rows of the day with the teacher in either place. */
  predicate Selected(slot: Slot, teacher: Option<Id>, day: Day)
  {
    && slot.day == day
    && (teacher.Some? ==> slot.teacherId == teacher.value || slot.secondTeacherId == teacher)
  }

  /** The filter on alternating-week slots. */
  predicate Applicable(slot: Slot, teacher: Option<Id>, week: Week)
  {
    if !slot.isSplitPeriod then true
    else if teacher.Some? then
      if week == Odd then slot.teacherId == teacher.value
      else slot.secondTeacherId == teacher && slot.secondLessonId.Some?
    else if week == Even then slot.secondLessonId.Some?
    else true
  }

  predicate AllIn(rows: Rows, ids: seq<Id>)
  {
    forall i :: 0 <= i < |ids| ==> ids[i] in rows
  }

  predicate InOrder(rows: Rows, ids: seq<Id>)
    requires AllIn(rows, ids)
  {
    forall i, j :: 0 <= i < j < |ids| ==> ids[i] != ids[j] && rows[ids[i]].period <= rows[ids[j]].period
  }

  /** A result of the query: each selected row once, in order of period. */
  predicate IsQueryResult(rows: Rows, teacher: Option<Id>, day: Day, ids: seq<Id>)
  {
    && AllIn(rows, ids) && InOrder(rows, ids)
    && (forall i :: 0 <= i < |ids| ==> Selected(rows[ids[i]], teacher, day))
    && (forall id :: id in rows && Selected(rows[id], teacher, day) ==> id in ids)
  }

  predicate Listed(rows: Rows, teacher: Option<Id>, day: Day, week: Week, id: Id)
  {
    id in rows && Selected(rows[id], teacher, day) && Applicable(rows[id], teacher, week)
  }

  predicate IsEntry(rows: Rows, teacher: Option<Id>, day: Day, week: Week, e: Entry)
  {
    Listed(rows, teacher, day, week, e.slotId) && e == EntryOf(rows, e.slotId, week)
  }

  /** Entries for listed slots, each once, in order of period. */
  predicate Ordered(entries: seq<Entry>)
  {
    forall i, j :: 0 <= i < j < |entries| ==>
      entries[i].slotId != entries[j].slotId && entries[i].period <= entries[j].period
  }

  /** Exactly the entries of the listed slots, in order. */
  ghost predicate Answers(rows: Rows, teacher: Option<Id>, day: Day, week: Week, entries: seq<Entry>)
  {
    && (forall i :: 0 <= i < |entries| ==> IsEntry(rows, teacher, day, week, entries[i]))
    && (forall id :: Listed(rows, teacher, day, week, id) ==> EntryOf(rows, id, week) in entries)
    && Ordered(entries)
  }

  /** The entries of the rows that pass the filter, in the order of `ids`. */
  function Kept(rows: Rows, teacher: Option<Id>, week: Week, ids: seq<Id>): (entries: seq<Entry>)
    requires AllIn(rows, ids)
  {
    if ids == [] then []
    else
      var front := Kept(rows, teacher, week, ids[..|ids| - 1]);
      var id := ids[|ids| - 1];
      if Applicable(rows[id], teacher, week) then front + [EntryOf(rows, id, week)] else front
  }

  lemma {:induction false} KeptComesFrom(rows: Rows, teacher: Option<Id>, week: Week, ids: seq<Id>, e: Entry)
    requires AllIn(rows, ids) && e in Kept(rows, teacher, week, ids)
    ensures e.slotId in ids && Applicable(rows[e.slotId], teacher, week) && e == EntryOf(rows, e.slotId, week)
  {
    var last := |ids| - 1;
    if e in Kept(rows, teacher, week, ids[..last]) {
      KeptComesFrom(rows, teacher, week, ids[..last], e);
    }
  }

  lemma {:induction false} KeptKeeps(rows: Rows, teacher: Option<Id>, week: Week, ids: seq<Id>, id: Id)
    requires AllIn(rows, ids) && id in ids && Applicable(rows[id], teacher, week)
    ensures EntryOf(rows, id, week) in Kept(rows, teacher, week, ids)
  {
    var last := |ids| - 1;
    if id != ids[last] {
      KeptKeeps(rows, teacher, week, ids[..last], id);
    }
  }

  lemma {:induction false} KeptIsOrdered(rows: Rows, teacher: Option<Id>, week: Week, ids: seq<Id>)
    requires AllIn(rows, ids) && InOrder(rows, ids)
    ensures Ordered(Kept(rows, teacher, week, ids))
  {
    if ids != [] {
      var last := |ids| - 1;
      var front := Kept(rows, teacher, week, ids[..last]);
      KeptIsOrdered(rows, teacher, week, ids[..last]);
      forall i | 0 <= i < |front|
        ensures front[i].slotId != ids[last] && front[i].period <= rows[ids[last]].period
      {
        KeptComesFrom(rows, teacher, week, ids[..last], front[i]);
      }
    }
  }

  lemma KeptAnswersQuery(rows: Rows, teacher: Option<Id>, day: Day, week: Week, ids: seq<Id>)
    requires IsQueryResult(rows, teacher, day, ids)
    ensures Answers(rows, teacher, day, week, Kept(rows, teacher, week, ids))
  {
    var entries := Kept(rows, teacher, week, ids);
    forall i | 0 <= i < |entries|
      ensures IsEntry(rows, teacher, day, week, entries[i])
    {
      KeptComesFrom(rows, teacher, week, ids, entries[i]);
    }
    forall id | Listed(rows, teacher, day, week, id)
      ensures EntryOf(rows, id, week) in entries
    {
      KeptKeeps(rows, teacher, week, ids, id);
    }
    KeptIsOrdered(rows, teacher, week, ids);
  }

  method FilterSchedules(rows: Rows, teacher: Option<Id>, day: Day, week: Week, schedules: seq<Id>)
    returns (entries: seq<Entry>)
    requires IsQueryResult(rows, teacher, day, schedules)
    ensures Answers(rows, teacher, day, week, entries)
  {
    entries := [];
    for n := 0 to |schedules|
      invariant entries == Kept(rows, teacher, week, schedules[..n])
    {
      var slot := rows[schedules[n]];
      assert schedules[..n + 1][..n] == schedules[..n];
      if Applicable(slot, teacher, week) {
        entries := entries + [EntryOf(rows, schedules[n], week)];
      }
    }
    assert schedules[..|schedules|] == schedules;
    KeptAnswersQuery(rows, teacher, day, week, schedules);
  }

  /**
    Who asks: a user of the teacher role, with a teacher profile or without; or another
    user, who may name a teacher.
   */
  datatype Caller = TeacherUser(profile: Option<Id>) | OtherUser(query: Option<Id>)

  /** Whose slots are asked for; `None` when the role has no profile to show. */
  function AskedFor(caller: Caller): (teacher: Option<Option<Id>>)
  {
    match caller
    case TeacherUser(profile) => if profile.None? then None else Some(profile)
    case OtherUser(query) => Some(query)
  }

  method GetTeacherDailySchedule(rows: Rows, caller: Caller, day: Day, week: Week, schedules: seq<Id>)
    returns (entries: seq<Entry>)
    requires AskedFor(caller).Some? ==> IsQueryResult(rows, AskedFor(caller).value, day, schedules)
    ensures AskedFor(caller).None? ==> entries == []
    ensures AskedFor(caller).Some? ==> Answers(rows, AskedFor(caller).value, day, week, entries)
  {
    var teacher: Option<Id>;
    match caller {
      case TeacherUser(profile) =>
        if profile.None? {
          return [];
        }
        teacher := profile;
      case OtherUser(query) =>
        teacher := query;
    }
    entries := FilterSchedules(rows, teacher, day, week, schedules);
  }

  /**
    What an entry says: a plain slot has its one lesson and teacher; an alternating one the
    first of both in an odd week and in an even one the second, as far as there is one.
   */
  lemma EntryIs(rows: Rows, id: Id, week: Week)
    requires id in rows
    ensures var e, slot := EntryOf(rows, id, week), rows[id];
      && e.slotId == id && e.classroomId == slot.classroomId && e.period == slot.period
      && (!slot.isSplitPeriod || week == Odd ==> e.lessonId == slot.lessonId && e.teacherId == slot.teacherId)
      && (slot.isSplitPeriod && week == Even ==>
        && (slot.secondLessonId.Some? ==> Some(e.lessonId) == slot.secondLessonId)
        && (slot.secondTeacherId.Some? ==> Some(e.teacherId) == slot.secondTeacherId)
        && (slot.secondLessonId.None? ==> e.lessonId == slot.lessonId)
        && (slot.secondTeacherId.None? ==> e.teacherId == slot.teacherId))
  {
  }

  /**
    Which slots are listed, for a teacher and for all: the plain ones of the day, and of
    the alternating ones those whose turn it is and that have a lesson for it.
   */
  lemma ListedIff(rows: Rows, teacher: Id, day: Day, week: Week, id: Id)
    requires id in rows && (rows[id].isSplitPeriod || rows[id].secondTeacherId.None?)
    ensures var slot := rows[id];
      && (Listed(rows, Some(teacher), day, week, id) <==>
        slot.day == day && (
          if !slot.isSplitPeriod || week == Odd then slot.teacherId == teacher
          else slot.secondTeacherId == Some(teacher) && slot.secondLessonId.Some?))
      && (Listed(rows, None, day, week, id) <==>
        slot.day == day && (slot.isSplitPeriod && week == Even ==> slot.secondLessonId.Some?))
  {
  }

  /** A teacher is shown the own day, or nothing without a profile; anyone else whom they ask for, or all. */
  lemma AskedForIs(profile: Option<Id>, query: Option<Id>)
    ensures AskedFor(TeacherUser(profile)) == (if profile.None? then None else Some(profile))
    ensures AskedFor(OtherUser(query)) == Some(query)
  {
  }

  /**
    What the timetable invariant gives the view.  For every teacher and day the
    listed slots have different periods, each names the teacher as active, and a
    slot is listed exactly when it is that teacher's this week, but for the
    alternating slots that lack a second teacher or lesson.
   */
  lemma OneSlotPerPeriod(rows: Rows, teacher: Id, day: Day, week: Week, a: Id, b: Id)
    requires Inv(rows) && TeachersDisjoint(rows)
    requires Listed(rows, Some(teacher), day, week, a) && Listed(rows, Some(teacher), day, week, b)
    requires rows[a].period == rows[b].period
    ensures a == b
  {
  }

  predicate Unfilled(slot: Slot, week: Week)
  {
    slot.isSplitPeriod && week == Even && (slot.secondTeacherId.None? || slot.secondLessonId.None?)
  }

  lemma ListedIffActive(rows: Rows, teacher: Id, day: Day, week: Week, id: Id)
    requires Inv(rows) && id in rows && rows[id].day == day
    ensures Listed(rows, Some(teacher), day, week, id) <==>
      ActiveTeacher(rows[id], week) == teacher && !Unfilled(rows[id], week)
  {
  }

  /** An alternating slot is never shown to two teachers in one week. */
  lemma SplitSlotHasOneTeacher(rows: Rows, t: Id, u: Id, day: Day, week: Week, id: Id)
    requires Inv(rows)
    requires Listed(rows, Some(t), day, week, id) && Listed(rows, Some(u), day, week, id)
    ensures t == u && EntryOf(rows, id, week).teacherId == t
  {
  }

  /**
    The two teachers of a complete alternating slot take turns: seven days later in the
    same year the other one has it.
   */
  lemma SplitSlotAlternates(rows: Rows, cal: Calendar, a: Date, b: Date, t: Id, id: Id)
    requires Inv(rows) && id in rows && rows[id].isSplitPeriod
    requires rows[id].secondTeacherId.Some? && rows[id].secondLessonId.Some?
    requires rows[id].secondTeacherId != Some(rows[id].teacherId)
    requires a.year == b.year && DayNumber(cal, b) == DayNumber(cal, a) + 7
    requires t == rows[id].teacherId || Some(t) == rows[id].secondTeacherId
    ensures Listed(rows, Some(t), rows[id].day, ActiveWeek(cal, a), id) <==>
      !Listed(rows, Some(t), rows[id].day, ActiveWeek(cal, b), id)
  {
  }

  /**
    End to end: after any run of timetable operations without the override flag,
    the method's answer for a teacher has strictly increasing periods and names
    that teacher in every entry.
   */
  method ScheduleAfterRun(school: School, ghost ops: seq<Op>, rows: Rows, teacher: Id, day: Day, week: Week,
      schedules: seq<Id>)
    returns (entries: seq<Entry>)
    requires AllEnabled(school, map[], ops) && rows == Run(school, map[], ops)
    requires forall i :: 0 <= i < |ops| ==> !Overrides(ops[i])
    requires IsQueryResult(rows, Some(teacher), day, schedules)
    ensures forall i, j :: 0 <= i < j < |entries| ==> entries[i].period < entries[j].period
    ensures forall i :: 0 <= i < |entries| ==> entries[i].teacherId == teacher
  {
    RunKeepsTeachersDisjoint(school, map[], ops);
    entries := GetTeacherDailySchedule(rows, OtherUser(Some(teacher)), day, week, schedules);
    forall i, j | 0 <= i < j < |entries|
      ensures entries[i].period < entries[j].period
    {
      if entries[i].period == entries[j].period {
        OneSlotPerPeriod(rows, teacher, day, week, entries[i].slotId, entries[j].slotId);
      }
    }
    forall i | 0 <= i < |entries|
      ensures entries[i].teacherId == teacher
    {
      ListedIffActive(rows, teacher, day, week, entries[i].slotId);
    }
  }
}

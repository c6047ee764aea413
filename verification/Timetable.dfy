/**
  The weekly timetable of one tenant: slots are created, replaced, moved and
  deleted after look-ups for a taken slot and for a teacher who is busy in
  another classroom.
 */
module Timetable {
  import opened Optional

  type Id = string

  datatype Day = Saturday | Sunday | Monday | Tuesday | Wednesday | Thursday | Friday

  datatype Slot = Slot(
    classroomId: Id, lessonId: Id, teacherId: Id,
    isSplitPeriod: bool, secondLessonId: Option<Id>, secondTeacherId: Option<Id>,
    day: Day, period: int)

  type Rows = map<Id, Slot>

  /** The school's own classrooms, lessons and teachers. */
  datatype School = School(classrooms: set<Id>, lessons: set<Id>, teachers: set<Id>)

  datatype Refusal = BadPeriod | UnknownEntity | SlotTaken | TeacherBusy | NoSuchSchedule

  datatype Outcome = Refused(why: Refusal) | Saved(id: Id) | Deleted

  function Teachers(slot: Slot): (ts: set<Id>)
  {
    {slot.teacherId} + if slot.secondTeacherId.Some? then {slot.secondTeacherId.value} else {}
  }

  predicate SameTime(a: Slot, b: Slot)
  {
    a.day == b.day && a.period == b.period
  }

  predicate SamePlace(a: Slot, b: Slot)
  {
    a.classroomId == b.classroomId && SameTime(a, b)
  }

  predicate EntitiesExist(school: School, slot: Slot)
  {
    && slot.classroomId in school.classrooms && slot.lessonId in school.lessons && slot.teacherId in school.teachers
    && (slot.isSplitPeriod && slot.secondLessonId.Some? ==> slot.secondLessonId.value in school.lessons)
    && (slot.isSplitPeriod && slot.secondTeacherId.Some? ==> slot.secondTeacherId.value in school.teachers)
  }

  /** A row of this place other than `self`: the slot-conflict query. */
  predicate Occupies(rows: Rows, self: Option<Id>, slot: Slot, id: Id)
  {
    id in rows && Some(id) != self && SamePlace(rows[id], slot)
  }

  /** A row of another classroom at this time with this teacher: the teacher-conflict query. */
  predicate Busy(rows: Rows, self: Option<Id>, slot: Slot, teacher: Id, id: Id)
  {
    && id in rows && Some(id) != self
    && rows[id].classroomId != slot.classroomId && SameTime(rows[id], slot)
    && (rows[id].teacherId == teacher || rows[id].secondTeacherId == Some(teacher))
  }

  ghost predicate TeacherConflict(rows: Rows, self: Option<Id>, slot: Slot)
  {
    || (exists id :: Busy(rows, self, slot, slot.teacherId, id))
    || (slot.isSplitPeriod && slot.secondTeacherId.Some? &&
        exists id :: Busy(rows, self, slot, slot.secondTeacherId.value, id))
  }

  /** `findFirst` over the slot-conflict query. */
  ghost predicate IsFound(rows: Rows, self: Option<Id>, slot: Slot, found: Option<Id>)
  {
    match found
    case Some(id) => Occupies(rows, self, slot, id)
    case None => forall id :: id in rows ==> !Occupies(rows, self, slot, id)
  }

  /** A slot that is not split drops its second lesson and teacher. */
  function Normalised(slot: Slot): (s: Slot)
  {
    if slot.isSplitPeriod then slot else slot.(secondLessonId := None, secondTeacherId := None)
  }

  datatype Flags = Flags(replaceExisting: bool, allowTeacherConflict: bool)

  /** The tests both operations share, once the slot to be written is known. */
  ghost function Verdict(school: School, rows: Rows, self: Option<Id>, slot: Slot, flags: Flags,
      found: Option<Id>): (why: Option<Refusal>)
  {
    if slot.period < 1 || slot.period > 10 then Some(BadPeriod)
    else if !EntitiesExist(school, slot) then Some(UnknownEntity)
    else if found.Some? && !flags.replaceExisting then Some(SlotTaken)
    else if TeacherConflict(rows, self, slot) && !flags.allowTeacherConflict then Some(TeacherBusy)
    else None
  }

  ghost function Create(school: School, rows: Rows, slot: Slot, flags: Flags, found: Option<Id>,
      newId: Id): (r: (Rows, Outcome))
  {
    var why := Verdict(school, rows, None, slot, flags, found);
    if why.Some? then (rows, Refused(why.value))
    else
      var id := if found.Some? then found.value else newId;
      (rows[id := Normalised(slot)], Saved(id))
  }

  /** Absent fields keep the row's own value. */
  datatype Patch = Patch(
    classroomId: Option<Id>, lessonId: Option<Id>, teacherId: Option<Id>,
    isSplitPeriod: Option<bool>, secondLessonId: Option<Option<Id>>, secondTeacherId: Option<Option<Id>>,
    day: Option<Day>, period: Option<int>)

  function Or<T>(o: Option<T>, default: T): (t: T)
  {
    if o.Some? then o.value else default
  }

  function Patched(slot: Slot, p: Patch): (s: Slot)
  {
    Normalised(Slot(
      Or(p.classroomId, slot.classroomId), Or(p.lessonId, slot.lessonId), Or(p.teacherId, slot.teacherId),
      Or(p.isSplitPeriod, slot.isSplitPeriod),
      Or(p.secondLessonId, slot.secondLessonId), Or(p.secondTeacherId, slot.secondTeacherId),
      Or(p.day, slot.day), Or(p.period, slot.period)))
  }

  ghost function Update(school: School, rows: Rows, id: Id, p: Patch, flags: Flags,
      found: Option<Id>): (r: (Rows, Outcome))
  {
    if id !in rows then (rows, Refused(NoSuchSchedule))
    else
      var slot := Patched(rows[id], p);
      var why := Verdict(school, rows, Some(id), slot, flags, found);
      if why.Some? then (rows, Refused(why.value))
      else
        var kept := if found.Some? then rows - {found.value} else rows;
        (kept[id := slot], Saved(id))
  }

  function Delete(rows: Rows, id: Id): (r: (Rows, Outcome))
  {
    if id !in rows then (rows, Refused(NoSuchSchedule)) else (rows - {id}, Deleted)
  }

  /******* Invariants *******/

  /** One row for each classroom, day and period. */
  predicate OneRowPerPlace(rows: Rows)
  {
    forall a, b :: a in rows && b in rows && a != b ==> !SamePlace(rows[a], rows[b])
  }

  predicate NonSplitIsSingle(rows: Rows)
  {
    forall a :: a in rows && !rows[a].isSplitPeriod ==>
      rows[a].secondTeacherId == None && rows[a].secondLessonId == None
  }

  /** Nobody teaches in two classrooms at one time. */
  predicate TeachersDisjoint(rows: Rows)
  {
    forall a, b ::
      a in rows && b in rows && SameTime(rows[a], rows[b]) && rows[a].classroomId != rows[b].classroomId ==>
        Teachers(rows[a]) !! Teachers(rows[b])
  }

  predicate Inv(rows: Rows)
  {
    OneRowPerPlace(rows) && NonSplitIsSingle(rows)
  }

  /** Another row at this time, in another classroom, that shares a teacher with the slot. */
  predicate Clashes(rows: Rows, self: Option<Id>, slot: Slot, id: Id)
  {
    && id in rows && Some(id) != self && rows[id].classroomId != slot.classroomId && SameTime(rows[id], slot)
    && !(Teachers(rows[id]) !! Teachers(Normalised(slot)))
  }

  lemma BusyIsShared(rows: Rows, self: Option<Id>, slot: Slot, id: Id)
    requires id in rows && Some(id) != self && rows[id].classroomId != slot.classroomId && SameTime(rows[id], slot)
    ensures !(Teachers(rows[id]) !! Teachers(Normalised(slot))) ==> TeacherConflict(rows, self, slot)
  {
    if !(Teachers(rows[id]) !! Teachers(Normalised(slot))) {
      var t :| t in Teachers(rows[id]) && t in Teachers(Normalised(slot));
      assert Busy(rows, self, slot, t, id);
    }
  }

  lemma ConflictIsShared(rows: Rows, self: Option<Id>, slot: Slot)
    requires TeacherConflict(rows, self, slot)
    ensures exists id :: Clashes(rows, self, slot, id)
  {
    if exists id :: Busy(rows, self, slot, slot.teacherId, id) {
      var id :| Busy(rows, self, slot, slot.teacherId, id);
      assert slot.teacherId in Teachers(rows[id]) && slot.teacherId in Teachers(Normalised(slot));
      assert Clashes(rows, self, slot, id);
    } else {
      var t := slot.secondTeacherId.value;
      var id :| Busy(rows, self, slot, t, id);
      assert t in Teachers(rows[id]) && t in Teachers(Normalised(slot));
      assert Clashes(rows, self, slot, id);
    }
  }

  /** Writing `slot` under `id` after the row found in its place has gone. */
  function Written(rows: Rows, id: Id, slot: Slot, found: Option<Id>): (rows': Rows)
  {
    (if found.Some? && found.value != id then rows - {found.value} else rows)[id := Normalised(slot)]
  }

  /** The row that is rewritten: itself on an update, the one it replaces on a creation. */
  predicate Rewrites(rows: Rows, self: Option<Id>, id: Id, found: Option<Id>)
  {
    match self
    case Some(own) => id == own && own in rows
    case None => if found.Some? then id == found.value else id !in rows
  }

  lemma WriteKeepsInv(rows: Rows, self: Option<Id>, id: Id, slot: Slot, found: Option<Id>)
    requires Inv(rows) && IsFound(rows, self, slot, found) && Rewrites(rows, self, id, found)
    ensures Inv(Written(rows, id, slot, found))
  {
  }

  lemma WriteKeepsDisjoint(rows: Rows, self: Option<Id>, id: Id, slot: Slot, found: Option<Id>)
    requires Inv(rows) && TeachersDisjoint(rows) && IsFound(rows, self, slot, found) && Rewrites(rows, self, id, found)
    requires !TeacherConflict(rows, self, slot)
    ensures TeachersDisjoint(Written(rows, id, slot, found))
  {
    var rows' := Written(rows, id, slot, found);
    forall a | a in rows' && a != id && SameTime(rows'[a], slot) && rows'[a].classroomId != slot.classroomId
      ensures Teachers(rows'[a]) !! Teachers(Normalised(slot))
    {
      BusyIsShared(rows, self, slot, a);
    }
  }

  /** A conflict the query reports is one the timetable would have had. */
  lemma ConflictBreaksDisjoint(rows: Rows, self: Option<Id>, id: Id, slot: Slot, found: Option<Id>)
    requires Inv(rows) && IsFound(rows, self, slot, found) && Rewrites(rows, self, id, found)
    requires TeacherConflict(rows, self, slot)
    ensures !TeachersDisjoint(Written(rows, id, slot, found))
  {
    ConflictIsShared(rows, self, slot);
    var other :| Clashes(rows, self, slot, other);
    var rows' := Written(rows, id, slot, found);
    assert other != id && other in rows' && rows'[other] == rows[other] && id in rows';
  }

  /**
    The teacher look-up is exact: given a clash-free timetable, it reports a
    conflict if and only if writing the slot would put one teacher into two
    classrooms at one time.
   */
  lemma TeacherLookupIsExact(rows: Rows, self: Option<Id>, id: Id, slot: Slot, found: Option<Id>)
    requires Inv(rows) && TeachersDisjoint(rows) && IsFound(rows, self, slot, found) && Rewrites(rows, self, id, found)
    ensures TeacherConflict(rows, self, slot) <==> !TeachersDisjoint(Written(rows, id, slot, found))
  {
    if TeacherConflict(rows, self, slot) {
      ConflictBreaksDisjoint(rows, self, id, slot, found);
    } else {
      WriteKeepsDisjoint(rows, self, id, slot, found);
    }
  }

  lemma DeleteKeeps(rows: Rows, id: Id)
    requires Inv(rows)
    ensures Inv(Delete(rows, id).0) && (TeachersDisjoint(rows) ==> TeachersDisjoint(Delete(rows, id).0))
  {
  }

  // ------------------------------------------------------------------ what the operations answer and write

  /** Another row has this classroom at this day and period. */
  predicate HasPlace(rows: Rows, self: Option<Id>, slot: Slot)
  {
    exists id :: id in rows && Some(id) != self && rows[id].classroomId == slot.classroomId
      && rows[id].day == slot.day && rows[id].period == slot.period
  }

  predicate TeachesElsewhere(rows: Rows, self: Option<Id>, slot: Slot, id: Id, t: Id)
  {
    && id in rows && Some(id) != self && rows[id].classroomId != slot.classroomId
    && rows[id].day == slot.day && rows[id].period == slot.period
    && (t == rows[id].teacherId || Some(t) == rows[id].secondTeacherId)
    && (t == slot.teacherId || (slot.isSplitPeriod && Some(t) == slot.secondTeacherId))
  }

  /** Another classroom has, at this day and period, a teacher that the slot would have. */
  ghost predicate TeacherElsewhere(rows: Rows, self: Option<Id>, slot: Slot)
  {
    exists id, t :: TeachesElsewhere(rows, self, slot, id, t)
  }

  predicate Known(school: School, slot: Slot)
  {
    && slot.classroomId in school.classrooms && slot.lessonId in school.lessons && slot.teacherId in school.teachers
    && (!slot.isSplitPeriod || slot.secondLessonId.None? || slot.secondLessonId.value in school.lessons)
    && (!slot.isSplitPeriod || slot.secondTeacherId.None? || slot.secondTeacherId.value in school.teachers)
  }

  lemma ConflictIsElsewhere(rows: Rows, self: Option<Id>, slot: Slot)
    ensures TeacherConflict(rows, self, slot) <==> TeacherElsewhere(rows, self, slot)
  {
    if TeacherElsewhere(rows, self, slot) {
      var id, t :| TeachesElsewhere(rows, self, slot, id, t);
      assert Busy(rows, self, slot, t, id);
    }
    if TeacherConflict(rows, self, slot) {
      ConflictIsShared(rows, self, slot);
      var id :| Clashes(rows, self, slot, id);
      var t :| t in Teachers(rows[id]) && t in Teachers(Normalised(slot));
      assert TeachesElsewhere(rows, self, slot, id, t);
    }
  }

  /** The tests in their order: period, known names, taken place, busy teacher. */
  lemma VerdictIff(school: School, rows: Rows, self: Option<Id>, slot: Slot, flags: Flags, found: Option<Id>)
    requires IsFound(rows, self, slot, found)
    ensures var why := Verdict(school, rows, self, slot, flags, found);
      var proper := 1 <= slot.period <= 10;
      var taken := HasPlace(rows, self, slot) && !flags.replaceExisting;
      var busy := TeacherElsewhere(rows, self, slot) && !flags.allowTeacherConflict;
      && (why == Some(BadPeriod) <==> !proper)
      && (why == Some(UnknownEntity) <==> proper && !Known(school, slot))
      && (why == Some(SlotTaken) <==> proper && Known(school, slot) && taken)
      && (why == Some(TeacherBusy) <==> proper && Known(school, slot) && !taken && busy)
      && (why == None <==> proper && Known(school, slot) && !taken && !busy)
  {
    ConflictIsElsewhere(rows, self, slot);
    assert found.Some? <==> HasPlace(rows, self, slot);
  }

  ghost predicate SameButFor(before: Rows, after: Rows, ids: set<Id>)
  {
    forall id :: id !in ids ==> (id in after <==> id in before) && (id in before ==> after[id] == before[id])
  }

  /** A saved creation has the slot as given, a plain one without second lesson and teacher, and only that row. */
  lemma CreateDoes(school: School, rows: Rows, slot: Slot, flags: Flags, found: Option<Id>, newId: Id)
    requires IsFound(rows, None, slot, found)
    ensures var (rows', outcome) := Create(school, rows, slot, flags, found, newId);
      var why := Verdict(school, rows, None, slot, flags, found);
      if why.Some? then rows' == rows && outcome == Refused(why.value)
      else
        var id := if found.Some? then found.value else newId;
        && outcome == Saved(id) && id in rows' && SameButFor(rows, rows', {id})
        && rows'[id] == (if slot.isSplitPeriod then slot else slot.(secondLessonId := None, secondTeacherId := None))
  {
  }

  /** Each given field has its new value and each absent one the old; a plain slot has no second lesson and teacher. */
  predicate PatchedFrom(before: Slot, p: Patch, after: Slot)
  {
    && after.classroomId == (if p.classroomId.Some? then p.classroomId.value else before.classroomId)
    && after.lessonId == (if p.lessonId.Some? then p.lessonId.value else before.lessonId)
    && after.teacherId == (if p.teacherId.Some? then p.teacherId.value else before.teacherId)
    && after.isSplitPeriod == (if p.isSplitPeriod.Some? then p.isSplitPeriod.value else before.isSplitPeriod)
    && after.day == (if p.day.Some? then p.day.value else before.day)
    && after.period == (if p.period.Some? then p.period.value else before.period)
    && (after.isSplitPeriod ==>
      && after.secondLessonId == (if p.secondLessonId.Some? then p.secondLessonId.value else before.secondLessonId)
      && after.secondTeacherId == (if p.secondTeacherId.Some? then p.secondTeacherId.value else before.secondTeacherId))
    && (!after.isSplitPeriod ==> after.secondLessonId == None && after.secondTeacherId == None)
  }

  lemma PatchedIs(before: Slot, p: Patch, after: Slot)
    ensures PatchedFrom(before, p, after) <==> after == Patched(before, p)
  {
  }

  /** A saved update has the fields that were given, takes the replaced row out, and changes no other. */
  lemma UpdateDoes(school: School, rows: Rows, id: Id, p: Patch, flags: Flags, found: Option<Id>)
    requires id in rows ==> IsFound(rows, Some(id), Patched(rows[id], p), found)
    ensures var (rows', outcome) := Update(school, rows, id, p, flags, found);
      && (outcome == Refused(NoSuchSchedule) <==> id !in rows)
      && (outcome.Refused? ==> rows' == rows)
      && (outcome.Saved? ==>
        && id in rows' && PatchedFrom(rows[id], p, rows'[id])
        && (found.None? ==> SameButFor(rows, rows', {id}))
        && (found.Some? ==> found.value !in rows' && SameButFor(rows, rows', {id, found.value})))
  {
  }

  /** And why it is refused is decided by the slot with those fields. */
  lemma UpdateRefusedIff(school: School, rows: Rows, id: Id, p: Patch, flags: Flags, found: Option<Id>, want: Slot)
    requires id in rows && PatchedFrom(rows[id], p, want) && IsFound(rows, Some(id), want, found)
    ensures var outcome := Update(school, rows, id, p, flags, found).1;
      var why := Verdict(school, rows, Some(id), want, flags, found);
      outcome == if why.Some? then Refused(why.value) else Saved(id)
  {
    PatchedIs(rows[id], p, want);
  }

  lemma DeleteDoes(rows: Rows, id: Id)
    ensures var (rows', outcome) := Delete(rows, id);
      && outcome == (if id in rows then Deleted else Refused(NoSuchSchedule))
      && id !in rows' && SameButFor(rows, rows', {id})
  {
  }

  /******* Runs *******/

  datatype Op =
    | CreateOp(slot: Slot, flags: Flags, found: Option<Id>, newId: Id)
    | UpdateOp(id: Id, patch: Patch, flags: Flags, found: Option<Id>)
    | DeleteOp(id: Id)

  /** New ids are new, and the found row is one the query may return. */
  ghost predicate Enabled(rows: Rows, op: Op)
  {
    match op
    case CreateOp(slot, flags, found, newId) => newId !in rows && IsFound(rows, None, slot, found)
    case UpdateOp(id, patch, flags, found) => id in rows ==> IsFound(rows, Some(id), Patched(rows[id], patch), found)
    case DeleteOp(_) => true
  }

  ghost function Next(school: School, rows: Rows, op: Op): (r: (Rows, Outcome))
  {
    match op
    case CreateOp(slot, flags, found, newId) => Create(school, rows, slot, flags, found, newId)
    case UpdateOp(id, patch, flags, found) => Update(school, rows, id, patch, flags, found)
    case DeleteOp(id) => Delete(rows, id)
  }

  predicate Overrides(op: Op)
  {
    !op.DeleteOp? && op.flags.allowTeacherConflict
  }

  lemma StepKeepsInv(school: School, rows: Rows, op: Op)
    requires Inv(rows) && Enabled(rows, op)
    ensures Inv(Next(school, rows, op).0)
    ensures TeachersDisjoint(rows) && !Overrides(op) ==> TeachersDisjoint(Next(school, rows, op).0)
  {
    match op
    case CreateOp(slot, flags, found, newId) =>
      var id := if found.Some? then found.value else newId;
      WriteKeepsInv(rows, None, id, slot, found);
      assert Next(school, rows, op).1.Saved? ==> Next(school, rows, op).0 == Written(rows, id, slot, found);
      if TeachersDisjoint(rows) && !TeacherConflict(rows, None, slot) {
        WriteKeepsDisjoint(rows, None, id, slot, found);
      }
    case UpdateOp(id, patch, flags, found) =>
      if id in rows {
        var slot := Patched(rows[id], patch);
        WriteKeepsInv(rows, Some(id), id, slot, found);
        assert Next(school, rows, op).1.Saved? ==> Next(school, rows, op).0 == Written(rows, id, slot, found);
        if TeachersDisjoint(rows) && !TeacherConflict(rows, Some(id), slot) {
          WriteKeepsDisjoint(rows, Some(id), id, slot, found);
        }
      }
    case DeleteOp(id) => DeleteKeeps(rows, id);
  }

  ghost predicate AllEnabled(school: School, rows: Rows, ops: seq<Op>)
    decreases |ops|
  {
    ops == [] || (Enabled(rows, ops[0]) && AllEnabled(school, Next(school, rows, ops[0]).0, ops[1..]))
  }

  ghost function Run(school: School, rows: Rows, ops: seq<Op>): (rows': Rows)
    decreases |ops|
  {
    if ops == [] then rows else Run(school, Next(school, rows, ops[0]).0, ops[1..])
  }

  /** Every run keeps one row for each place and no second teacher on a plain slot. */
  lemma {:induction false} RunKeepsInv(school: School, rows: Rows, ops: seq<Op>)
    requires Inv(rows) && AllEnabled(school, rows, ops)
    ensures Inv(Run(school, rows, ops))
    decreases |ops|
  {
    if ops != [] {
      StepKeepsInv(school, rows, ops[0]);
      RunKeepsInv(school, Next(school, rows, ops[0]).0, ops[1..]);
    }
  }

  /** Without the override flag no run ever gives a teacher two classrooms at one time. */
  lemma {:induction false} RunKeepsTeachersDisjoint(school: School, rows: Rows, ops: seq<Op>)
    requires Inv(rows) && TeachersDisjoint(rows) && AllEnabled(school, rows, ops)
    requires forall i :: 0 <= i < |ops| ==> !Overrides(ops[i])
    ensures Inv(Run(school, rows, ops)) && TeachersDisjoint(Run(school, rows, ops))
    decreases |ops|
  {
    if ops != [] {
      StepKeepsInv(school, rows, ops[0]);
      RunKeepsTeachersDisjoint(school, Next(school, rows, ops[0]).0, ops[1..]);
    }
  }

  /******* The service *******/

  class ClassesService {
    const school: School
    var rows: Rows

    constructor (school: School)
      ensures rows == map[] && this.school == school
    {
      this.school := school;
      rows := map[];
    }

    method FindSlot(self: Option<Id>, slot: Slot) returns (found: Option<Id>)
      ensures IsFound(rows, self, slot, found)
    {
      found := None;
      var left := rows.Keys;
      while left != {}
        invariant left <= rows.Keys
        invariant forall id :: id in rows.Keys - left ==> !Occupies(rows, self, slot, id)
        decreases left
      {
        var id :| id in left;
        if Occupies(rows, self, slot, id) {
          return Some(id);
        }
        left := left - {id};
      }
    }

    method IsBusy(self: Option<Id>, slot: Slot, teacher: Id) returns (busy: bool)
      ensures busy <==> exists id :: Busy(rows, self, slot, teacher, id)
    {
      var left := rows.Keys;
      while left != {}
        invariant left <= rows.Keys
        invariant forall id :: id in rows.Keys - left ==> !Busy(rows, self, slot, teacher, id)
        decreases left
      {
        var id :| id in left;
        if Busy(rows, self, slot, teacher, id) {
          return true;
        }
        left := left - {id};
      }
      busy := false;
    }

    method HasTeacherConflict(self: Option<Id>, slot: Slot) returns (conflict: bool)
      ensures conflict <==> TeacherConflict(rows, self, slot)
    {
      conflict := IsBusy(self, slot, slot.teacherId);
      if !conflict && slot.isSplitPeriod && slot.secondTeacherId.Some? {
        conflict := IsBusy(self, slot, slot.secondTeacherId.value);
      }
    }

    method CreateSchedule(slot: Slot, flags: Flags, newId: Id) returns (outcome: Outcome, ghost found: Option<Id>)
      requires newId !in rows
      modifies this
      ensures IsFound(old(rows), None, slot, found)
      ensures (rows, outcome) == Create(school, old(rows), slot, flags, found, newId)
    {
      var existingSlot := FindSlot(None, slot);
      found := existingSlot;
      var teacherConflict := HasTeacherConflict(None, slot);
      if slot.period < 1 || slot.period > 10 {
        return Refused(BadPeriod), found;
      }
      if !EntitiesExist(school, slot) {
        return Refused(UnknownEntity), found;
      }
      if existingSlot.Some? && !flags.replaceExisting {
        return Refused(SlotTaken), found;
      }
      if teacherConflict && !flags.allowTeacherConflict {
        return Refused(TeacherBusy), found;
      }
      var id := if existingSlot.Some? then existingSlot.value else newId;
      rows := rows[id := Normalised(slot)];
      outcome := Saved(id);
    }

    method UpdateSchedule(id: Id, patch: Patch, flags: Flags) returns (outcome: Outcome, ghost found: Option<Id>)
      modifies this
      ensures id in old(rows) ==> IsFound(old(rows), Some(id), Patched(old(rows)[id], patch), found)
      ensures (rows, outcome) == Update(school, old(rows), id, patch, flags, found)
    {
      found := None;
      if id !in rows {
        return Refused(NoSuchSchedule), found;
      }
      var slot := Patched(rows[id], patch);
      var slotConflict := FindSlot(Some(id), slot);
      found := slotConflict;
      var teacherConflict := HasTeacherConflict(Some(id), slot);
      if slot.period < 1 || slot.period > 10 {
        return Refused(BadPeriod), found;
      }
      if !EntitiesExist(school, slot) {
        return Refused(UnknownEntity), found;
      }
      if slotConflict.Some? && !flags.replaceExisting {
        return Refused(SlotTaken), found;
      }
      if teacherConflict && !flags.allowTeacherConflict {
        return Refused(TeacherBusy), found;
      }
      if slotConflict.Some? {
        rows := rows - {slotConflict.value};
      }
      rows := rows[id := slot];
      outcome := Saved(id);
    }

    method DeleteSchedule(id: Id) returns (outcome: Outcome)
      modifies this
      ensures (rows, outcome) == Delete(old(rows), id)
    {
      if id !in rows {
        return Refused(NoSuchSchedule);
      }
      rows := rows - {id};
      outcome := Deleted;
    }
  }
}

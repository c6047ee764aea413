/**
  Creations of schedule rows that overlap: the look-ups for a taken slot and for a
  busy teacher come first, the write later, and only the database's unique key on
  classroom, day and period is tested again.
 */
module TimetableOverlap {
  import opened Optional
  import opened Timetable

  /** A creation that passed its look-ups. */
  datatype Pending = Pending(slot: Slot, found: Option<Id>)

  datatype Sys = Sys(rows: Rows, pending: map<int, Pending>)

  datatype Step =
    | Look(r: int, slot: Slot, flags: Flags, found: Option<Id>)
    | Write(r: int, newId: Id)
    | Whole(op: Op)

  /** Changes and deletions are whole, and changes do not use the override flag. */
  ghost predicate StepEnabled(s: Sys, step: Step)
  {
    match step
    case Look(r, slot, _, found) => r !in s.pending && IsFound(s.rows, None, slot, found)
    case Write(r, newId) => r in s.pending && newId !in s.rows
    case Whole(op) => !op.CreateOp? && !Overrides(op) && Enabled(s.rows, op)
  }

  /** A replacement writes lessons and teachers into the row found, wherever that is by now. */
  function Replaced(row: Slot, slot: Slot): (row': Slot)
  {
    var s := Normalised(slot);
    row.(lessonId := s.lessonId, teacherId := s.teacherId, isSplitPeriod := s.isSplitPeriod,
      secondLessonId := s.secondLessonId, secondTeacherId := s.secondTeacherId)
  }

  ghost predicate PlaceTaken(rows: Rows, slot: Slot)
  {
    exists id :: id in rows && SamePlace(rows[id], slot)
  }

  /** The row that is written and its id; none when the row found is gone or the place is taken. */
  ghost function Target(rows: Rows, p: Pending, newId: Id): (t: Option<(Id, Slot)>)
  {
    match p.found
    case Some(id) => if id in rows then Some((id, Replaced(rows[id], p.slot))) else None
    case None => if PlaceTaken(rows, p.slot) then None else Some((newId, Normalised(p.slot)))
  }

  ghost function StepRows(school: School, s: Sys, step: Step): (s': Sys)
    requires StepEnabled(s, step)
  {
    match step
    case Look(r, slot, flags, found) =>
      if Verdict(school, s.rows, None, slot, flags, found).Some? then s
      else s.(pending := s.pending[r := Pending(slot, found)])
    case Write(r, newId) => (
      var target := Target(s.rows, s.pending[r], newId);
      Sys(if target.Some? then s.rows[target.value.0 := target.value.1] else s.rows, s.pending - {r}))
    case Whole(op) => s.(rows := Next(school, s.rows, op).0)
  }

  ghost predicate Runnable(school: School, s: Sys, steps: seq<Step>)
    decreases |steps|
  {
    steps == [] || (StepEnabled(s, steps[0]) && Runnable(school, StepRows(school, s, steps[0]), steps[1..]))
  }

  ghost function Exec(school: School, s: Sys, steps: seq<Step>): (s': Sys)
    requires Runnable(school, s, steps)
    decreases |steps|
  {
    if steps == [] then s else Exec(school, StepRows(school, s, steps[0]), steps[1..])
  }

  /** Undisturbed, look-ups and write are the creation. */
  lemma StepsAreCreate(school: School, s: Sys, r: int, slot: Slot, flags: Flags, found: Option<Id>, newId: Id)
    requires StepEnabled(s, Look(r, slot, flags, found)) && newId !in s.rows
    ensures var s1 := StepRows(school, s, Look(r, slot, flags, found));
      var created := Create(school, s.rows, slot, flags, found, newId);
      && (created.1.Refused? <==> r !in s1.pending)
      && (r !in s1.pending ==> s1.rows == created.0)
      && (r in s1.pending ==> StepRows(school, s1, Write(r, newId)).rows == created.0)
  {
    if found.Some? {
      assert Replaced(s.rows[found.value], slot) == Normalised(slot);
    } else {
      assert !PlaceTaken(s.rows, slot);
    }
  }

  // ------------------------------------------------------------------ what the unique key keeps

  lemma WriteIsRewrite(rows: Rows, p: Pending, newId: Id)
    requires Inv(rows) && newId !in rows && Target(rows, p, newId).Some?
    ensures var (id, slot) := Target(rows, p, newId).value;
      var self := if id in rows then Some(id) else None;
      && rows[id := slot] == Written(rows, id, slot, None)
      && IsFound(rows, self, slot, None) && Rewrites(rows, self, id, None)
  {
    var (id, slot) := Target(rows, p, newId).value;
    assert Normalised(slot) == slot;
    if p.found.Some? {
      assert SamePlace(rows[id], slot);
    } else {
      forall other | other in rows
        ensures !SamePlace(rows[other], slot)
      {
        assert !SamePlace(rows[other], p.slot);
      }
    }
  }

  lemma StepKeepsPlaces(school: School, s: Sys, step: Step)
    requires Inv(s.rows) && StepEnabled(s, step)
    ensures Inv(StepRows(school, s, step).rows)
  {
    match step
    case Look(_, _, _, _) =>
    case Write(r, newId) =>
      var target := Target(s.rows, s.pending[r], newId);
      if target.Some? {
        var (id, slot) := target.value;
        WriteIsRewrite(s.rows, s.pending[r], newId);
        WriteKeepsInv(s.rows, if id in s.rows then Some(id) else None, id, slot, None);
      }
    case Whole(op) => StepKeepsInv(school, s.rows, op);
  }

  // ------------------------------------------------------------------ when a teacher gets two classrooms

  /** The step writes a slot one of whose teachers is by now busy in another classroom. */
  ghost predicate WritesClash(s: Sys, step: Step)
    requires StepEnabled(s, step)
  {
    step.Write? &&
    var target := Target(s.rows, s.pending[step.r], step.newId);
    target.Some? && TeacherConflict(s.rows, Some(target.value.0), target.value.1)
  }

  lemma AbsentSelf(rows: Rows, id: Id, slot: Slot)
    requires id !in rows
    ensures TeacherConflict(rows, Some(id), slot) <==> TeacherConflict(rows, None, slot)
  {
    forall t: Id, other: Id
      ensures Busy(rows, Some(id), slot, t, other) <==> Busy(rows, None, slot, t, other)
    {
    }
  }

  lemma StepKeepsDisjointIff(school: School, s: Sys, step: Step)
    requires Inv(s.rows) && TeachersDisjoint(s.rows) && StepEnabled(s, step)
    ensures TeachersDisjoint(StepRows(school, s, step).rows) <==> !WritesClash(s, step)
  {
    match step
    case Look(_, _, _, _) =>
    case Write(r, newId) =>
      var target := Target(s.rows, s.pending[r], newId);
      if target.Some? {
        var (id, slot) := target.value;
        WriteIsRewrite(s.rows, s.pending[r], newId);
        TeacherLookupIsExact(s.rows, if id in s.rows then Some(id) else None, id, slot, None);
        if id !in s.rows {
          AbsentSelf(s.rows, id, slot);
        }
      }
    case Whole(op) => StepKeepsInv(school, s.rows, op);
  }

  ghost predicate NeverClashes(school: School, s: Sys, steps: seq<Step>)
    requires Runnable(school, s, steps)
    decreases |steps|
  {
    steps == [] ||
    (!WritesClash(s, steps[0]) && NeverClashes(school, StepRows(school, s, steps[0]), steps[1..]))
  }

  ghost predicate DisjointThroughout(school: School, s: Sys, steps: seq<Step>)
    requires Runnable(school, s, steps)
    decreases |steps|
  {
    && TeachersDisjoint(s.rows)
    && (steps != [] ==> DisjointThroughout(school, StepRows(school, s, steps[0]), steps[1..]))
  }

  lemma {:induction false} PlacesOverRun(school: School, s: Sys, steps: seq<Step>)
    requires Inv(s.rows) && Runnable(school, s, steps)
    ensures Inv(Exec(school, s, steps).rows)
    decreases |steps|
  {
    if steps != [] {
      StepKeepsPlaces(school, s, steps[0]);
      PlacesOverRun(school, StepRows(school, s, steps[0]), steps[1..]);
    }
  }

  /**
    Over every interleaving each place keeps one row; and nobody ever teaches in two
    classrooms at one time if and only if no creation finds, when it writes, that a
    teacher of it has become busy elsewhere.
   */
  lemma {:induction false} RunKeepsDisjointIff(school: School, s: Sys, steps: seq<Step>)
    requires Inv(s.rows) && TeachersDisjoint(s.rows) && Runnable(school, s, steps)
    ensures Inv(Exec(school, s, steps).rows)
    ensures DisjointThroughout(school, s, steps) <==> NeverClashes(school, s, steps)
    decreases |steps|
  {
    if steps != [] {
      var s' := StepRows(school, s, steps[0]);
      StepKeepsPlaces(school, s, steps[0]);
      StepKeepsDisjointIff(school, s, steps[0]);
      if TeachersDisjoint(s'.rows) {
        RunKeepsDisjointIff(school, s', steps[1..]);
      } else {
        PlacesOverRun(school, s', steps[1..]);
      }
    }
  }

  /**
    Two creations for free places, at one time, in two classrooms, by one teacher: if
    both look before either writes, both are written and the teacher has two classrooms.
   */
  lemma OverlapGivesTwoClassrooms(school: School, s: Sys, a: Slot, b: Slot, x: Id, y: Id)
    requires s.pending == map[1 := Pending(a, None), 2 := Pending(b, None)]
    requires !PlaceTaken(s.rows, a) && !PlaceTaken(s.rows, b) && x !in s.rows && y !in s.rows && x != y
    requires SameTime(a, b) && a.classroomId != b.classroomId && a.teacherId == b.teacherId
    ensures StepEnabled(s, Write(1, x)) && StepEnabled(StepRows(school, s, Write(1, x)), Write(2, y))
    ensures !TeachersDisjoint(StepRows(school, StepRows(school, s, Write(1, x)), Write(2, y)).rows)
  {
    var s1 := StepRows(school, s, Write(1, x));
    assert s1.rows == s.rows[x := Normalised(a)];
    assert !PlaceTaken(s1.rows, b);
    var s2 := StepRows(school, s1, Write(2, y));
    assert s2.rows == s1.rows[y := Normalised(b)];
    assert a.teacherId in Teachers(s2.rows[x]) && a.teacherId in Teachers(s2.rows[y]);
  }
}

/**
  Submissions of one sheet that overlap: the status and the deadline are tested when
  the sheet is read, and the marked answers are written later, whatever has been
  written in between.
 */
module ExamOverlap {
  import opened Optional
  import opened ExamPaper
  import opened ExamGrading
  import opened ExamService

  /** What a request will write. */
  datatype Pending = Marked(records: seq<Answer>, now: int, tabSwitchCount: nat) | Late(now: int)

  /** `last` is history: the records of the submission written last. */
  datatype Sys = Sys(sheet: Sheet, pending: map<int, Pending>, last: seq<Answer>)

  datatype Step = Read(r: int, dto: Submission, now: int) | Write(r: int)

  /** Each submission names a question at most once. */
  predicate Enabled(s: Sys, step: Step)
  {
    match step
    case Read(r, dto, _) => r !in s.pending && DistinctAnswers(dto.answers)
    case Write(r) => r in s.pending
  }

  function Written(sheet: Sheet, p: Pending): (sheet': Sheet)
  {
    match p
    case Late(now) => sheet.(status := TimedOut, submittedAt := Some(now))
    case Marked(records, now, tabSwitchCount) =>
      var total := if AllObjective(records) then Some(Sum(records)) else None;
      sheet.(
        status := Submitted, submittedAt := Some(now),
        answers := UpsertAll(sheet.answers, records),
        tabSwitchCount := tabSwitchCount, flaggedForReview := tabSwitchCount >= 3,
        totalScore := total, isGraded := total.Some?,
        scoredBy := if total.Some? then Marker else Nobody, lost := [])
  }

  function Next(exam: Exam, s: Sys, step: Step): (s': Sys)
    requires Enabled(s, step)
  {
    match step
    case Read(r, dto, now) =>
      if s.sheet.status == Submitted then s
      else if now > s.sheet.serverDeadline then s.(pending := s.pending[r := Late(now)])
      else
        s.(pending := s.pending[r := Marked(Records(exam.questions, dto.answers), now, dto.tabSwitchCount)])
    case Write(r) =>
      Sys(Written(s.sheet, s.pending[r]), s.pending - {r},
          if s.pending[r].Marked? then s.pending[r].records else s.last)
  }

  predicate Runnable(exam: Exam, s: Sys, steps: seq<Step>)
    decreases |steps|
  {
    steps == [] || (Enabled(s, steps[0]) && Runnable(exam, Next(exam, s, steps[0]), steps[1..]))
  }

  function Exec(exam: Exam, s: Sys, steps: seq<Step>): (s': Sys)
    requires Runnable(exam, s, steps)
    decreases |steps|
  {
    if steps == [] then s else Exec(exam, Next(exam, s, steps[0]), steps[1..])
  }

  /** Undisturbed, the two steps are the submission. */
  lemma StepsAreSubmit(exam: Exam, s: Sys, r: int, dto: Submission, now: int)
    requires Enabled(s, Read(r, dto, now))
    ensures var s1 := Next(exam, s, Read(r, dto, now));
      var after := Submit(exam, Some(s.sheet), now, dto);
      && (after.1 == AlreadySubmitted <==> r !in s1.pending)
      && (r !in s1.pending ==> after.0 == Some(s1.sheet))
      && (r in s1.pending ==> after.0 == Some(Next(exam, s1, Write(r)).sheet))
  {
  }

  // ------------------------------------------------------------------ rows of other submissions

  /** The rows of questions that the records do not answer. */
  function LeftOver(rows: seq<Answer>, records: seq<Answer>): (left: seq<Answer>)
  {
    if rows == [] then []
    else
      var front := LeftOver(rows[..|rows| - 1], records);
      if IndexOf(records, rows[|rows| - 1].questionId).Some? then front else front + [rows[|rows| - 1]]
  }

  lemma LeftOverSnoc(rows: seq<Answer>, row: Answer, records: seq<Answer>)
    ensures LeftOver(rows + [row], records) ==
      if IndexOf(records, row.questionId).Some? then LeftOver(rows, records) else LeftOver(rows, records) + [row]
  {
    assert (rows + [row])[..|rows|] == rows;
  }

  lemma {:induction false} LeftOverUpdate(rows: seq<Answer>, i: nat, row: Answer, records: seq<Answer>)
    requires i < |rows| && rows[i].questionId == row.questionId && IndexOf(records, row.questionId).Some?
    ensures LeftOver(rows[i := row], records) == LeftOver(rows, records)
    decreases |rows|
  {
    var n := |rows| - 1;
    if i < n {
      assert rows[i := row][..n] == rows[..n][i := row];
      LeftOverUpdate(rows[..n], i, row, records);
    } else {
      assert rows[i := row][..n] == rows[..n];
    }
  }

  lemma UpsertKeepsLeftOver(rows: seq<Answer>, r: Answer, records: seq<Answer>)
    requires IndexOf(records, r.questionId).Some?
    ensures LeftOver(Upsert(rows, r), records) == LeftOver(rows, records)
  {
    match IndexOf(rows, r.questionId)
    case None => LeftOverSnoc(rows, r, records);
    case Some(i) => LeftOverUpdate(rows, i, r.(teacherComment := rows[i].teacherComment), records);
  }

  predicate AllAnswered(some: seq<Answer>, records: seq<Answer>)
  {
    forall i :: 0 <= i < |some| ==> IndexOf(records, some[i].questionId).Some?
  }

  lemma {:induction false} UpsertAllKeepsLeftOver(rows: seq<Answer>, some: seq<Answer>, records: seq<Answer>)
    requires AllAnswered(some, records)
    ensures LeftOver(UpsertAll(rows, some), records) == LeftOver(rows, records)
  {
    if some != [] {
      var front := some[..|some| - 1];
      assert AllAnswered(front, records);
      UpsertAllKeepsLeftOver(rows, front, records);
      UpsertKeepsLeftOver(UpsertAll(rows, front), some[|some| - 1], records);
    }
  }

  lemma {:induction false} AnswersItself(records: seq<Answer>)
    ensures AllAnswered(records, records)
  {
    forall i | 0 <= i < |records|
      ensures IndexOf(records, records[i].questionId).Some?
    {
    }
  }

  lemma IndexOfSnoc(records: seq<Answer>, r: Answer, id: Id)
    ensures IndexOf(records + [r], id).Some? <==> IndexOf(records, id).Some? || r.questionId == id
  {
    assert (records + [r])[..|records|] == records;
  }

  /** One more record takes its row out of those left over. */
  lemma {:induction false} LeftOverShrinks(rows: seq<Answer>, records: seq<Answer>, r: Answer)
    ensures LeftOver(rows, records + [r]) == Without(LeftOver(rows, records), r.questionId)
  {
    if rows != [] {
      var front, last := rows[..|rows| - 1], rows[|rows| - 1];
      LeftOverShrinks(front, records, r);
      IndexOfSnoc(records, r, last.questionId);
      if IndexOf(records, last.questionId).None? {
        var left := LeftOver(front, records);
        assert (left + [last])[..|left|] == left;
      }
    }
  }

  lemma {:induction false} WithoutSum(rows: seq<Answer>, r: Answer)
    requires OneRowEach(rows)
    ensures Sum(rows) == Sum(Without(rows, r.questionId)) + Displaced(rows, r)
  {
    if rows != [] {
      var front, last := rows[..|rows| - 1], rows[|rows| - 1];
      if last.questionId == r.questionId {
        WithoutKeeps(front, r.questionId);
      } else {
        WithoutSum(front, r);
        SumSnoc(Without(front, r.questionId), last);
      }
    }
  }

  lemma {:induction false} LeftOverMembers(rows: seq<Answer>, records: seq<Answer>)
    ensures forall r :: r in LeftOver(rows, records) <==> r in rows && IndexOf(records, r.questionId).None?
    ensures OneRowEach(rows) ==> OneRowEach(LeftOver(rows, records))
  {
    if rows != [] {
      LeftOverMembers(rows[..|rows| - 1], records);
    }
  }

  lemma {:induction false} LeftOverDisplaces(rows: seq<Answer>, records: seq<Answer>, r: Answer)
    requires OneRowEach(rows) && IndexOf(records, r.questionId).None?
    ensures Displaced(LeftOver(rows, records), r) == Displaced(rows, r)
  {
    if rows != [] {
      var front, last := rows[..|rows| - 1], rows[|rows| - 1];
      LeftOverDisplaces(front, records, r);
      var left := LeftOver(front, records);
      assert (left + [last])[..|left|] == left;
    }
  }

  lemma {:induction false} OtherUpsertsDisplaceNothing(rows: seq<Answer>, records: seq<Answer>, r: Answer)
    requires IndexOf(records, r.questionId).None?
    ensures Displaced(UpsertAll(rows, records), r) == Displaced(rows, r)
  {
    if records != [] {
      var front, last := records[..|records| - 1], records[|records| - 1];
      OtherUpsertsDisplaceNothing(rows, front, r);
      UpsertFinds(UpsertAll(rows, front), last, r);
    }
  }

  lemma UpsertSum(rows: seq<Answer>, r: Answer)
    ensures Sum(Upsert(rows, r)) == Sum(rows) + Points(r.scoreAwarded) - Displaced(rows, r)
  {
    match IndexOf(rows, r.questionId)
    case None => SumSnoc(rows, r);
    case Some(i) => SumUpdate(rows, i, r.(teacherComment := rows[i].teacherComment));
  }

  lemma {:induction false} NothingAnswered(rows: seq<Answer>)
    ensures LeftOver(rows, []) == rows
  {
    if rows != [] {
      NothingAnswered(rows[..|rows| - 1]);
      assert rows == rows[..|rows| - 1] + [rows[|rows| - 1]];
    }
  }

  /** The stored answers come to the records and what other submissions left over. */
  lemma {:induction false} StoredIsRecordsAndLeftOver(rows: seq<Answer>, records: seq<Answer>)
    requires OneRowEach(rows) && OneRowEach(records)
    ensures Sum(UpsertAll(rows, records)) == Sum(records) + Sum(LeftOver(rows, records))
  {
    if records == [] {
      NothingAnswered(rows);
    } else {
      var front, r := records[..|records| - 1], records[|records| - 1];
      assert records == front + [r];
      StoredIsRecordsAndLeftOver(rows, front);
      assert IndexOf(front, r.questionId).None?;
      UpsertSum(UpsertAll(rows, front), r);
      OtherUpsertsDisplaceNothing(rows, front, r);
      LeftOverMembers(rows, front);
      LeftOverShrinks(rows, front, r);
      WithoutSum(LeftOver(rows, front), r);
      LeftOverDisplaces(rows, front, r);
    }
  }

  // ------------------------------------------------------------------ runs

  predicate RecordsOk(records: seq<Answer>)
  {
    OneRowEach(records) && PointsNonNegative(records)
  }

  predicate Inv(s: Sys)
  {
    && RecordsOk(s.sheet.answers)
    && (forall r :: r in s.pending && s.pending[r].Marked? ==> RecordsOk(s.pending[r].records))
    && Sum(s.sheet.answers) == Sum(s.last) + Sum(LeftOver(s.sheet.answers, s.last))
    && (s.sheet.totalScore.Some? ==> s.sheet.totalScore == Some(Sum(s.last)))
  }

  lemma UpsertKeepsNonNegative(rows: seq<Answer>, r: Answer)
    requires PointsNonNegative(rows) && Points(r.scoreAwarded) >= 0.0
    ensures PointsNonNegative(Upsert(rows, r))
  {
  }

  lemma {:induction false} UpsertAllKeepsNonNegative(rows: seq<Answer>, records: seq<Answer>)
    requires PointsNonNegative(rows) && PointsNonNegative(records)
    ensures PointsNonNegative(UpsertAll(rows, records))
  {
    if records != [] {
      var front := records[..|records| - 1];
      assert PointsNonNegative(front);
      UpsertAllKeepsNonNegative(rows, front);
      UpsertKeepsNonNegative(UpsertAll(rows, front), records[|records| - 1]);
    }
  }

  lemma StepKeepsInv(exam: Exam, s: Sys, step: Step)
    requires ScoresNonNegative(exam.questions) && Inv(s) && Enabled(s, step)
    ensures Inv(Next(exam, s, step))
  {
    match step
    case Read(_, dto, _) =>
      RecordsAreOfAnswers(exam.questions, dto.answers);
      RecordsNonNegative(exam.questions, dto.answers);
    case Write(r) =>
      if s.pending[r].Marked? {
        var rows, records := s.sheet.answers, s.pending[r].records;
        StoredIsRecordsAndLeftOver(rows, records);
        AnswersItself(records);
        UpsertAllKeepsLeftOver(rows, records, records);
        UpsertAllKeepsNonNegative(rows, records);
      }
  }

  lemma {:induction false} RunKeepsInv(exam: Exam, s: Sys, steps: seq<Step>)
    requires ScoresNonNegative(exam.questions) && Inv(s) && Runnable(exam, s, steps)
    ensures Inv(Exec(exam, s, steps))
    decreases |steps|
  {
    if steps != [] {
      StepKeepsInv(exam, s, steps[0]);
      RunKeepsInv(exam, Next(exam, s, steps[0]), steps[1..]);
    }
  }

  /** A sheet as the first entry leaves it. */
  predicate Fresh(sheet: Sheet)
  {
    sheet.answers == [] && sheet.totalScore == None
  }

  /**
    Over every interleaving of submissions: a total that was written is the sum of the
    stored answers if and only if every stored answer to a question that the submission
    written last leaves out is worth nothing.
   */
  lemma TotalAgreesIff(exam: Exam, sheet: Sheet, steps: seq<Step>)
    requires ScoresNonNegative(exam.questions) && Fresh(sheet) && Runnable(exam, Sys(sheet, map[], []), steps)
    ensures var s := Exec(exam, Sys(sheet, map[], []), steps);
      s.sheet.totalScore.Some? ==>
        (s.sheet.totalScore == Some(Sum(s.sheet.answers)) <==> AllWorthless(LeftOver(s.sheet.answers, s.last)))
  {
    RunKeepsInv(exam, Sys(sheet, map[], []), steps);
    var s := Exec(exam, Sys(sheet, map[], []), steps);
    var left := LeftOver(s.sheet.answers, s.last);
    LeftOverMembers(s.sheet.answers, s.last);
    forall i | 0 <= i < |left|
      ensures Points(left[i].scoreAwarded) >= 0.0
    {
      assert left[i] in left;
    }
    SumIsZeroIff(left);
  }
}

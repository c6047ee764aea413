/**
  One exam and the participations in it: entry, submission under the server
  deadline, grading, and questions that come and go, in any order, under a clock
  that never goes back.
 */
module ExamService {
  import opened Optional
  import opened Sequences
  import opened Shuffle
  import opened ExamPaper
  import opened ExamGrading

  type StudentId = string

  datatype Status = InProgress | Submitted | TimedOut

  datatype Scorer = Nobody | Marker | Teacher

  /**
    The last two are history, read by no step: who last wrote the total, and the rows
    deleted with their questions since then.
   */
  datatype Sheet = Sheet(
    startedAt: int, serverDeadline: int, status: Status, submittedAt: Option<int>,
    paper: Paper, answers: seq<Answer>,
    totalScore: Option<real>, isGraded: bool, graceScore: real,
    tabSwitchCount: nat, flaggedForReview: bool,
    scoredBy: Scorer, lost: seq<Answer>)

  datatype StartAnswer = NoAccess | NotOpenYet | AlreadyOver | AlreadyTaken | Shown(questions: seq<ShownQuestion>)
  datatype SubmitAnswer = NoSheet | AlreadySubmitted | TooLate | Accepted(totalScore: Option<real>)
  datatype GradeAnswer = SheetMissing | AnswerMissing | GradesSaved

  function Min(a: int, b: int): int
  {
    if a <= b then a else b
  }

  function Deadline(exam: Exam, startedAt: int): (ms: int)
    ensures ms <= exam.endTime && ms <= startedAt + (exam.durationMinutes + 1) * 60 * 1000
  {
    Min(exam.endTime, startedAt + (exam.durationMinutes + 1) * 60 * 1000)
  }

  function NewSheet(exam: Exam, now: int, d: Draws): (sheet: Sheet)
    requires DrawsFit(exam, d)
  {
    Sheet(
      now, Deadline(exam, now), InProgress, None, AssemblePaper(exam, d), [], None, false, 0.0, 0, false, Nobody, [])
  }

  function Start(exam: Exam, sheet: Option<Sheet>, now: int, hasAccess: bool,
      d: Draws): (r: (Option<Sheet>, StartAnswer))
    requires DrawsFit(exam, d)
  {
    if !hasAccess then (sheet, NoAccess)
    else if now < exam.startTime then (sheet, NotOpenYet)
    else if now > exam.endTime then (sheet, AlreadyOver)
    else if sheet.Some? && sheet.value.status != InProgress then (sheet, AlreadyTaken)
    else
      var entered := if sheet.Some? then sheet.value else NewSheet(exam, now, d);
      (Some(entered), Shown(Render(exam.questions, entered.paper.questionOrder, entered.paper.optionOrders)))
  }

  datatype Submission = Submission(answers: seq<GivenAnswer>, tabSwitchCount: nat)

  /** The sheet with the marked answers stored; a descriptive one leaves the total open. */
  function HandedIn(exam: Exam, sheet: Sheet, now: int, dto: Submission): (sheet': Sheet)
  {
    var records := Records(exam.questions, dto.answers);
    var total := if AllObjective(records) then Some(Sum(records)) else None;
    sheet.(
      status := Submitted, submittedAt := Some(now),
      answers := UpsertAll(sheet.answers, records),
      tabSwitchCount := dto.tabSwitchCount, flaggedForReview := dto.tabSwitchCount >= 3,
      totalScore := total, isGraded := total.Some?,
      scoredBy := if total.Some? then Marker else Nobody, lost := [])
  }

  function Submit(exam: Exam, sheet: Option<Sheet>, now: int, dto: Submission): (r: (Option<Sheet>, SubmitAnswer))
  {
    if sheet.None? then (sheet, NoSheet)
    else if sheet.value.status == Submitted then (sheet, AlreadySubmitted)
    else if now > sheet.value.serverDeadline then
      (Some(sheet.value.(status := TimedOut, submittedAt := Some(now))), TooLate)
    else (Some(HandedIn(exam, sheet.value, now, dto)), Accepted(HandedIn(exam, sheet.value, now, dto).totalScore))
  }

  datatype Grading = Grading(grades: seq<Grade>, graceScore: real)

  function GradeSheet(exam: Exam, sheet: Option<Sheet>, dto: Grading): (r: (Option<Sheet>, GradeAnswer))
  {
    if sheet.None? then (sheet, SheetMissing)
    else
      match ApplyGrades(sheet.value.answers, dto.grades)
      case None => (sheet, AnswerMissing)
      case Some(answers) =>
        (Some(sheet.value.(
           answers := answers, graceScore := dto.graceScore,
           totalScore := Some(GradedTotal(exam.totalScore, answers, dto.graceScore)),
           isGraded := true, scoredBy := Teacher, lost := [])),
         GradesSaved)
  }

  // ------------------------------------------------------------------ what the operations answer and write

  /** The deadline is the end of the exam, or the duration and one minute after the start, whichever is first. */
  lemma DeadlineIs(exam: Exam, startedAt: int, now: int)
    ensures now <= Deadline(exam, startedAt) <==>
      now <= exam.endTime && now <= startedAt + exam.durationMinutes * 60000 + 60000
  {
  }

  /** What an entry is answered, and the sheet it leaves: a new one, the one that was there, or none. */
  lemma StartDoes(exam: Exam, sheet: Option<Sheet>, now: int, hasAccess: bool, d: Draws)
    requires DrawsFit(exam, d)
    ensures var (after, answer) := Start(exam, sheet, now, hasAccess, d);
      var open := hasAccess && exam.startTime <= now <= exam.endTime;
      && (answer == NoAccess <==> !hasAccess)
      && (answer == NotOpenYet <==> hasAccess && now < exam.startTime)
      && (answer == AlreadyOver <==> hasAccess && exam.startTime <= now && exam.endTime < now)
      && (answer == AlreadyTaken <==> open && sheet.Some? && sheet.value.status != InProgress)
      && (answer.Shown? <==> open && (sheet.None? || sheet.value.status == InProgress))
      && (sheet.Some? || !answer.Shown? ==> after == sheet)
      && (sheet.None? && answer.Shown? ==>
        && after.Some? && after.value.startedAt == now && after.value.status == InProgress
        && after.value.serverDeadline == Deadline(exam, now) && after.value.submittedAt == None
        && after.value.answers == [] && after.value.totalScore == None && !after.value.isGraded
        && after.value.graceScore == 0.0 && after.value.tabSwitchCount == 0 && !after.value.flaggedForReview
        && after.value.paper == AssemblePaper(exam, d))
      && (answer.Shown? ==>
        var paper := after.value.paper;
        answer.questions == Render(exam.questions, paper.questionOrder, paper.optionOrders))
  {
  }

  predicate AnswersDescriptive(qs: seq<ExamQuestion>, answers: seq<GivenAnswer>)
  {
    exists i :: 0 <= i < |answers| && FindQuestion(qs, answers[i].questionId).Some?
      && FindQuestion(qs, answers[i].questionId).value.kind == Descriptive
  }

  lemma {:induction false} ObjectiveIffNoneDescriptive(qs: seq<ExamQuestion>, answers: seq<GivenAnswer>)
    ensures AllObjective(Records(qs, answers)) <==> !AnswersDescriptive(qs, answers)
  {
    if answers != [] {
      var n := |answers| - 1;
      ObjectiveIffNoneDescriptive(qs, answers[..n]);
      assert forall i :: 0 <= i < n ==> answers[..n][i] == answers[i];
      var q := FindQuestion(qs, answers[n].questionId);
      if q.Some? {
        MarkedIs(q.value, answers[n]);
        SumSnoc(Records(qs, answers[..n]), Marked(q.value, answers[n]));
      }
    }
  }

  /**
    What a submission is answered, and the sheet it leaves: in time it is marked, with a
    total if no descriptive question was answered, and flagged from three switches on;
    late it only times the sheet out.
   */
  lemma SubmitDoes(exam: Exam, sheet: Option<Sheet>, now: int, dto: Submission)
    ensures var (after, answer) := Submit(exam, sheet, now, dto);
      && (answer == NoSheet <==> sheet.None?)
      && (answer == AlreadySubmitted <==> sheet.Some? && sheet.value.status == Submitted)
      && (answer == TooLate <==>
        sheet.Some? && sheet.value.status != Submitted && sheet.value.serverDeadline < now)
      && (answer == TooLate ==> after == Some(sheet.value.(status := TimedOut, submittedAt := Some(now))))
      && (answer == NoSheet || answer == AlreadySubmitted ==> after == sheet)
      && (answer.Accepted? ==>
        && after.Some? && after.value.status == Submitted && after.value.submittedAt == Some(now)
        && after.value.answers == UpsertAll(sheet.value.answers, Records(exam.questions, dto.answers))
        && after.value.tabSwitchCount == dto.tabSwitchCount
        && (after.value.flaggedForReview <==> 3 <= dto.tabSwitchCount)
        && after.value.totalScore == answer.totalScore && (after.value.isGraded <==> answer.totalScore.Some?)
        && answer.totalScore == (if AnswersDescriptive(exam.questions, dto.answers) then None
            else Some(Sum(Records(exam.questions, dto.answers))))
        && after.value.startedAt == sheet.value.startedAt && after.value.paper == sheet.value.paper
        && after.value.serverDeadline == sheet.value.serverDeadline && after.value.graceScore == sheet.value.graceScore
        && after.value.scoredBy == (if answer.totalScore.Some? then Marker else Nobody) && after.value.lost == [])
  {
    ObjectiveIffNoneDescriptive(exam.questions, dto.answers);
  }

  /** A first submission is accepted at every moment up to the end of the exam and the minute of grace. */
  lemma FirstHandInIsAccepted(exam: Exam, now: int, d: Draws, later: int, dto: Submission)
    requires DrawsFit(exam, d) && Start(exam, None, now, true, d).1.Shown?
    ensures Submit(exam, Start(exam, None, now, true, d).0, later, dto).1.Accepted? <==>
      later <= exam.endTime && later <= now + exam.durationMinutes * 60000 + 60000
  {
  }

  /**
    What a grading is answered, and the sheet it leaves: every graded question must have
    a row, each row takes its last grade, and the total is that of the rows and the grace.
   */
  lemma GradeDoes(exam: Exam, sheet: Option<Sheet>, dto: Grading)
    requires sheet.Some? ==> OneRowEach(sheet.value.answers)
    ensures var (after, answer) := GradeSheet(exam, sheet, dto);
      && (answer == SheetMissing <==> sheet.None?)
      && (answer == GradesSaved <==> sheet.Some? && AllHaveRows(sheet.value.answers, dto.grades))
      && (answer != GradesSaved ==> after == sheet)
      && (answer == GradesSaved ==>
        && after.Some? && RegradedBy(sheet.value.answers, after.value.answers, dto.grades)
        && after.value == sheet.value.(
          answers := after.value.answers, graceScore := dto.graceScore, isGraded := true,
          totalScore := Some(GradedTotal(exam.totalScore, after.value.answers, dto.graceScore)),
          scoredBy := Teacher, lost := []))
  {
    if sheet.Some? {
      GradesByRow(sheet.value.answers, dto.grades);
    }
  }

  /** What the database does to a sheet when a question is deleted. */
  function DropAnswers(sheet: Sheet, id: Id): (sheet': Sheet)
  {
    sheet.(answers := Without(sheet.answers, id), lost := sheet.lost + Picked(sheet.answers, id))
  }

  /******* Runs *******/

  /** `deleted` is history: the questions of the exam that were deleted. */
  datatype State = State(exam: Exam, sheets: map<StudentId, Sheet>, now: int, deleted: set<Id>)

  datatype Op =
    | Enter(student: StudentId, hasAccess: bool, draws: Draws)
    | HandIn(student: StudentId, dto: Submission)
    | Regrade(student: StudentId, grading: Grading)
    | AddQuestions(more: seq<ExamQuestion>)
    | DeleteQuestion(id: Id)
    | Wait(ms: nat)

  function SheetOf(s: State, student: StudentId): (sheet: Option<Sheet>)
  {
    if student in s.sheets then Some(s.sheets[student]) else None
  }

  function WithSheet(s: State, student: StudentId, sheet: Option<Sheet>): (s': State)
  {
    if sheet.Some? then s.(sheets := s.sheets[student := sheet.value]) else s
  }

  predicate ValidExam(exam: Exam)
  {
    WellKeyed(exam.questions) && ScoresNonNegative(exam.questions)
  }

  /** Submissions name each question at most once; added questions are new to the exam and were never deleted. */
  predicate Allowed(s: State, op: Op)
  {
    match op
    case Enter(_, _, draws) => DrawsFit(s.exam, draws)
    case HandIn(_, dto) => DistinctAnswers(dto.answers)
    case AddQuestions(more) =>
      && ValidExam(s.exam.(questions := s.exam.questions + more))
      && forall i :: 0 <= i < |more| ==> more[i].questionId !in s.deleted
    case _ => true
  }

  /** Deleting a question takes its place in the exam and every answer to it with it. */
  function Deletion(s: State, id: Id): (s': State)
  {
    if FindQuestion(s.exam.questions, id).None? then s
    else
      State(
        s.exam.(questions := Removed(s.exam.questions, id)),
        map st | st in s.sheets :: DropAnswers(s.sheets[st], id),
        s.now, s.deleted + {id})
  }

  /** A question that is there goes, with its answers on every sheet; every other question and answer stays. */
  lemma DeletionDoes(s: State, id: Id)
    ensures FindQuestion(s.exam.questions, id).None? ==> Deletion(s, id) == s
    ensures FindQuestion(s.exam.questions, id).Some? ==>
      var s' := Deletion(s, id);
      && (forall q :: q in s'.exam.questions <==> q in s.exam.questions && q.questionId != id)
      && s'.exam == s.exam.(questions := s'.exam.questions) && s'.sheets.Keys == s.sheets.Keys
      && forall st :: st in s.sheets ==>
        && s'.sheets[st] == s.sheets[st].(answers := s'.sheets[st].answers, lost := s'.sheets[st].lost)
        && forall r :: r in s'.sheets[st].answers ==> r in s.sheets[st].answers && r.questionId != id
  {
    RemovedMembers(s.exam.questions, id);
    forall st | st in s.sheets
      ensures forall r :: r in Without(s.sheets[st].answers, id) ==> r in s.sheets[st].answers && r.questionId != id
    {
      WithoutMembers(s.sheets[st].answers, id);
    }
  }

  function Next(s: State, op: Op): (s': State)
    requires Allowed(s, op)
  {
    match op
    case Enter(student, hasAccess, draws) =>
      WithSheet(s, student, Start(s.exam, SheetOf(s, student), s.now, hasAccess, draws).0)
    case HandIn(student, dto) => WithSheet(s, student, Submit(s.exam, SheetOf(s, student), s.now, dto).0)
    case Regrade(student, grading) => WithSheet(s, student, GradeSheet(s.exam, SheetOf(s, student), grading).0)
    case AddQuestions(more) => s.(exam := s.exam.(questions := s.exam.questions + more))
    case DeleteQuestion(id) => Deletion(s, id)
    case Wait(ms) => s.(now := s.now + ms)
  }

  predicate AllAllowed(s: State, ops: seq<Op>)
    decreases |ops|
  {
    ops == [] || (Allowed(s, ops[0]) && AllAllowed(Next(s, ops[0]), ops[1..]))
  }

  function Run(s: State, ops: seq<Op>): (s': State)
    requires AllAllowed(s, ops)
    decreases |ops|
  {
    if ops == [] then s else Run(Next(s, ops[0]), ops[1..])
  }

  /******* Deadlines and status *******/

  predicate TimesOk(exam: Exam, now: int, sheet: Sheet)
  {
    && sheet.startedAt <= now
    && sheet.serverDeadline == Deadline(exam, sheet.startedAt)
    && (sheet.status == InProgress ==> sheet.submittedAt == None)
    && (sheet.status == TimedOut ==> now > sheet.serverDeadline)
    && (sheet.status == Submitted ==>
          sheet.submittedAt.Some? && sheet.startedAt <= sheet.submittedAt.value <= sheet.serverDeadline)
  }

  predicate MarkedOk(qs: seq<ExamQuestion>, sheet: Sheet)
  {
    && sheet.totalScore == Some(Sum(sheet.answers) + Sum(sheet.lost))
    && WithinScores(qs, sheet.answers) && PointsNonNegative(sheet.answers) && PointsNonNegative(sheet.lost)
  }

  predicate GradedOk(examTotal: real, sheet: Sheet)
  {
    sheet.totalScore == Some(GradedTotal(examTotal, sheet.answers + sheet.lost, sheet.graceScore))
  }

  /** The stored total agrees with the stored answers and those lost since, by whoever wrote it last. */
  predicate ScoresOk(exam: Exam, sheet: Sheet)
  {
    && OneRowEach(sheet.answers)
    && (sheet.status != Submitted ==> sheet.answers == [])
    && (sheet.isGraded <==> sheet.totalScore.Some?)
    && match sheet.scoredBy
       case Nobody => sheet.totalScore == None
       case Marker => MarkedOk(exam.questions, sheet)
       case Teacher => GradedOk(exam.totalScore, sheet)
  }

  predicate SheetOk(exam: Exam, now: int, sheet: Sheet)
  {
    TimesOk(exam, now, sheet) && ScoresOk(exam, sheet)
  }

  predicate Inv(s: State)
  {
    && ValidExam(s.exam) && (forall st :: st in s.sheets ==> SheetOk(s.exam, s.now, s.sheets[st]))
    && forall id :: id in s.deleted ==> FindQuestion(s.exam.questions, id).None?
  }

  lemma StartKeepsSheet(exam: Exam, sheet: Option<Sheet>, now: int, hasAccess: bool, d: Draws)
    requires DrawsFit(exam, d) && (sheet.Some? ==> SheetOk(exam, now, sheet.value))
    ensures var after := Start(exam, sheet, now, hasAccess, d).0; after.Some? ==> SheetOk(exam, now, after.value)
  {
  }

  /** What the marker stores, in a sheet without answers. */
  lemma MarkedAnswersOk(qs: seq<ExamQuestion>, answers: seq<GivenAnswer>)
    requires ScoresNonNegative(qs) && DistinctAnswers(answers)
    ensures var stored := UpsertAll([], Records(qs, answers));
      && OneRowEach(stored) && WithinScores(qs, stored) && PointsNonNegative(stored)
      && Sum(stored) == Sum(Records(qs, answers))
  {
    DistinctAnswersAreStored(qs, answers);
    RecordsWithinScores(qs, answers);
    RecordsNonNegative(qs, answers);
    RecordsAreOfAnswers(qs, answers);
  }

  lemma HandedInScores(exam: Exam, sheet: Sheet, now: int, dto: Submission)
    requires ValidExam(exam) && DistinctAnswers(dto.answers) && sheet.answers == []
    ensures ScoresOk(exam, HandedIn(exam, sheet, now, dto))
  {
    MarkedAnswersOk(exam.questions, dto.answers);
  }

  lemma SubmitKeepsSheet(exam: Exam, sheet: Option<Sheet>, now: int, dto: Submission)
    requires ValidExam(exam) && DistinctAnswers(dto.answers) && (sheet.Some? ==> SheetOk(exam, now, sheet.value))
    ensures var after := Submit(exam, sheet, now, dto).0; after.Some? ==> SheetOk(exam, now, after.value)
  {
    if Submit(exam, sheet, now, dto).1.Accepted? {
      HandedInScores(exam, sheet.value, now, dto);
    }
  }

  lemma GradeKeepsSheet(exam: Exam, sheet: Option<Sheet>, now: int, dto: Grading)
    requires sheet.Some? ==> SheetOk(exam, now, sheet.value)
    ensures var after := GradeSheet(exam, sheet, dto).0; after.Some? ==> SheetOk(exam, now, after.value)
  {
    if sheet.Some? && ApplyGrades(sheet.value.answers, dto.grades).Some? {
      var answers := ApplyGrades(sheet.value.answers, dto.grades).value;
      assert answers + [] == answers;
    }
  }

  lemma DropKeepsGraded(examTotal: real, sheet: Sheet, id: Id)
    requires GradedOk(examTotal, sheet)
    ensures GradedOk(examTotal, DropAnswers(sheet, id))
  {
    DroppedSum(sheet.answers, sheet.lost, id);
  }

  lemma DropKeepsMarked(qs: seq<ExamQuestion>, sheet: Sheet, id: Id)
    requires MarkedOk(qs, sheet)
    ensures MarkedOk(Removed(qs, id), DropAnswers(sheet, id))
  {
    DroppedSum(sheet.answers, sheet.lost, id);
    DroppedWithinScores(qs, sheet.answers, id);
    DroppedNonNegative(sheet.answers, sheet.lost, id);
  }

  lemma DropKeepsScores(exam: Exam, sheet: Sheet, id: Id)
    requires ScoresOk(exam, sheet)
    ensures ScoresOk(exam.(questions := Removed(exam.questions, id)), DropAnswers(sheet, id))
  {
    WithoutMembers(sheet.answers, id);
    match sheet.scoredBy
    case Nobody =>
    case Marker => DropKeepsMarked(exam.questions, sheet, id);
    case Teacher => DropKeepsGraded(exam.totalScore, sheet, id);
  }

  lemma DropKeepsSheet(exam: Exam, sheet: Sheet, now: int, id: Id)
    requires SheetOk(exam, now, sheet)
    ensures SheetOk(exam.(questions := Removed(exam.questions, id)), now, DropAnswers(sheet, id))
  {
    DropKeepsScores(exam, sheet, id);
  }

  lemma RemovalKeepsExam(exam: Exam, id: Id)
    requires ValidExam(exam)
    ensures ValidExam(exam.(questions := Removed(exam.questions, id)))
  {
    var qs, rest := exam.questions, Removed(exam.questions, id);
    RemovedDistinct(qs, id);
    RemovedMembers(qs, id);
    forall i | 0 <= i < |rest|
      ensures Distinct(ChoiceIds(rest[i].options)) && rest[i].score >= 0.0
    {
      assert rest[i] in rest;
      var k :| 0 <= k < |qs| && qs[k] == rest[i];
    }
  }

  lemma DeletionKeepsInv(s: State, id: Id)
    requires Inv(s)
    ensures Inv(Deletion(s, id))
  {
    RemovalKeepsExam(s.exam, id);
    forall x
      ensures FindQuestion(Removed(s.exam.questions, id), x) ==
        if x == id then None else FindQuestion(s.exam.questions, x)
    {
      FindInRemoved(s.exam.questions, id, x);
    }
    forall st | st in s.sheets
      ensures SheetOk(s.exam.(questions := Removed(s.exam.questions, id)), s.now, DropAnswers(s.sheets[st], id))
    {
      DropKeepsSheet(s.exam, s.sheets[st], s.now, id);
    }
  }

  lemma AddingKeepsSheet(exam: Exam, sheet: Sheet, now: int, more: seq<ExamQuestion>)
    requires SheetOk(exam, now, sheet)
    ensures SheetOk(exam.(questions := exam.questions + more), now, sheet)
  {
    if sheet.scoredBy == Marker {
      forall i | 0 <= i < |sheet.answers|
        ensures var id := sheet.answers[i].questionId;
          FindQuestion(exam.questions + more, id) == FindQuestion(exam.questions, id)
      {
        FindInLonger(exam.questions, more, sheet.answers[i].questionId);
      }
    }
  }

  lemma AddingKeepsInv(s: State, more: seq<ExamQuestion>)
    requires Inv(s) && Allowed(s, AddQuestions(more))
    ensures Inv(Next(s, AddQuestions(more)))
  {
    forall st | st in s.sheets
      ensures SheetOk(s.exam.(questions := s.exam.questions + more), s.now, s.sheets[st])
    {
      AddingKeepsSheet(s.exam, s.sheets[st], s.now, more);
    }
    forall id | id in s.deleted
      ensures FindQuestion(s.exam.questions + more, id).None?
    {
      FindInLonger(s.exam.questions, more, id);
    }
  }

  lemma StepKeepsInv(s: State, op: Op)
    requires Inv(s) && Allowed(s, op)
    ensures Inv(Next(s, op))
  {
    match op
    case Enter(student, hasAccess, draws) => StartKeepsSheet(s.exam, SheetOf(s, student), s.now, hasAccess, draws);
    case HandIn(student, dto) => SubmitKeepsSheet(s.exam, SheetOf(s, student), s.now, dto);
    case Regrade(student, grading) => GradeKeepsSheet(s.exam, SheetOf(s, student), s.now, grading);
    case AddQuestions(more) => AddingKeepsInv(s, more);
    case DeleteQuestion(id) => DeletionKeepsInv(s, id);
    case Wait(_) =>
  }

  /** Every run keeps the deadline order of each sheet and its total equal to its answers. */
  lemma {:induction false} RunKeepsInv(s: State, ops: seq<Op>)
    requires Inv(s) && AllAllowed(s, ops)
    ensures Inv(Run(s, ops))
    decreases |ops|
  {
    if ops != [] {
      StepKeepsInv(s, ops[0]);
      RunKeepsInv(Next(s, ops[0]), ops[1..]);
    }
  }

  /**
    What a reader of a submitted sheet may rely on, in every reachable state: the
    times are in order and within the deadline, the stored answers to questions of the
    exam come to at most their scores, and a total written by the marker is their sum
    if and only if every answer deleted with its question since then was worth nothing.
   */
  lemma SubmittedSheetInOrder(exam: Exam, now: int, ops: seq<Op>, student: StudentId)
    requires ValidExam(exam) && AllAllowed(State(exam, map[], now, {}), ops)
    requires student in Run(State(exam, map[], now, {}), ops).sheets
    ensures var s := Run(State(exam, map[], now, {}), ops); var sheet := s.sheets[student];
      && (sheet.status == Submitted ==>
            && sheet.submittedAt.Some?
            && sheet.startedAt <= sheet.submittedAt.value <= sheet.serverDeadline
            && sheet.serverDeadline <= s.exam.endTime
            && sheet.serverDeadline <= sheet.startedAt + (s.exam.durationMinutes + 1) * 60 * 1000)
      && ScoresOk(s.exam, sheet)
      && (sheet.scoredBy == Marker ==>
            && Sum(sheet.answers) <= QuestionTotal(s.exam.questions)
            && (sheet.totalScore == Some(Sum(sheet.answers)) <==> AllWorthless(sheet.lost)))
  {
    RunKeepsInv(State(exam, map[], now, {}), ops);
    var s := Run(State(exam, map[], now, {}), ops);
    var sheet := s.sheets[student];
    if sheet.scoredBy == Marker {
      SumWithinQuestions(s.exam.questions, sheet.answers);
      SumIsZeroIff(sheet.lost);
    }
  }

  predicate SheetSettled(before: Sheet, after: Sheet)
  {
    && after.paper == before.paper && after.startedAt == before.startedAt
    && (before.status != InProgress ==> after.status == before.status)
    && (before.status == Submitted ==> after.submittedAt == before.submittedAt)
  }

  predicate SheetsSettled(before: map<StudentId, Sheet>, after: map<StudentId, Sheet>)
  {
    forall st :: st in before ==> st in after && SheetSettled(before[st], after[st])
  }

  /** Questions stay as they are until they are deleted, and then stay away. */
  ghost predicate QuestionsSettled(s: State, s': State)
  {
    && s.deleted <= s'.deleted
    && forall id :: FindQuestion(s.exam.questions, id).Some? ==>
      FindQuestion(s'.exam.questions, id) ==
        if id in s'.deleted then None else FindQuestion(s.exam.questions, id)
  }

  /** Submitted and timed-out are absorbing, and the stored paper never changes. */
  ghost predicate Settled(s: State, s': State)
  {
    s.now <= s'.now && QuestionsSettled(s, s') && SheetsSettled(s.sheets, s'.sheets)
  }

  lemma StartSettles(exam: Exam, sheet: Sheet, now: int, hasAccess: bool, d: Draws)
    requires DrawsFit(exam, d)
    ensures Start(exam, Some(sheet), now, hasAccess, d).0 == Some(sheet)
  {
  }

  lemma SubmitSettles(exam: Exam, sheet: Sheet, now: int, dto: Submission)
    requires TimesOk(exam, now, sheet)
    ensures var after := Submit(exam, Some(sheet), now, dto).0; after.Some? && SheetSettled(sheet, after.value)
  {
  }

  lemma GradeSettles(exam: Exam, sheet: Sheet, dto: Grading)
    ensures var after := GradeSheet(exam, Some(sheet), dto).0; after.Some? && SheetSettled(sheet, after.value)
  {
  }

  lemma QuestionsStepSettles(s: State, op: Op)
    requires Inv(s) && Allowed(s, op)
    ensures QuestionsSettled(s, Next(s, op))
  {
    forall id | FindQuestion(s.exam.questions, id).Some?
      ensures FindQuestion(Next(s, op).exam.questions, id) ==
        if id in Next(s, op).deleted then None else FindQuestion(s.exam.questions, id)
    {
      match op
      case AddQuestions(more) => FindInLonger(s.exam.questions, more, id);
      case DeleteQuestion(gone) => FindInRemoved(s.exam.questions, gone, id);
      case _ =>
    }
  }

  lemma StepSettles(s: State, op: Op)
    requires Inv(s) && Allowed(s, op)
    ensures Settled(s, Next(s, op))
  {
    QuestionsStepSettles(s, op);
    if op.Enter? && op.student in s.sheets {
      StartSettles(s.exam, s.sheets[op.student], s.now, op.hasAccess, op.draws);
    } else if op.HandIn? && op.student in s.sheets {
      SubmitSettles(s.exam, s.sheets[op.student], s.now, op.dto);
    } else if op.Regrade? && op.student in s.sheets {
      GradeSettles(s.exam, s.sheets[op.student], op.grading);
    }
  }

  lemma SettlesOn(s: State, s': State, s'': State)
    requires Settled(s, s') && Settled(s', s'') && Inv(s'')
    ensures Settled(s, s'')
  {
  }

  lemma NothingSettles(s: State)
    requires Inv(s)
    ensures Settled(s, s)
  {
  }

  lemma {:induction false} RunSettles(s: State, ops: seq<Op>)
    requires Inv(s) && AllAllowed(s, ops)
    ensures Settled(s, Run(s, ops))
    decreases |ops|
  {
    if ops != [] {
      StepKeepsInv(s, ops[0]);
      StepSettles(s, ops[0]);
      RunSettles(Next(s, ops[0]), ops[1..]);
      RunKeepsInv(Next(s, ops[0]), ops[1..]);
      SettlesOn(s, Next(s, ops[0]), Run(s, ops));
    } else {
      NothingSettles(s);
    }
  }

  /** The paper a student was given, over the questions of that moment. */
  predicate PaperOver(qs: seq<ExamQuestion>, paper: Paper)
  {
    forall i :: 0 <= i < |paper.questionOrder| ==> paper.questionOrder[i] in Ids(qs)
  }

  /** A stored paper reads as before if and only if none of its questions was deleted. */
  lemma RenderSettlesIff(s: State, s': State, paper: Paper)
    requires QuestionsSettled(s, s') && PaperOver(s.exam.questions, paper)
    ensures var before := Render(s.exam.questions, paper.questionOrder, paper.optionOrders);
      var after := Render(s'.exam.questions, paper.questionOrder, paper.optionOrders);
      after == before <==> forall id :: id in paper.questionOrder ==> id !in s'.deleted
  {
    forall id | id in paper.questionOrder
      ensures FindQuestion(s.exam.questions, id).Some?
    {
    }
    RenderSameIff(s.exam.questions, s'.exam.questions, paper.questionOrder, paper.optionOrders);
  }

  lemma FirstEntryPaper(exam: Exam, d: Draws)
    requires DrawsFit(exam, d) && WellKeyed(exam.questions)
    ensures PaperOver(exam.questions, AssemblePaper(exam, d))
  {
    PaperIsPermutation(exam, d);
    var order := AssemblePaper(exam, d).questionOrder;
    forall i | 0 <= i < |order|
      ensures order[i] in Ids(exam.questions)
    {
      SameElements(Ids(exam.questions), order, order[i]);
    }
  }

  /**
    Re-entry: whatever happens between a student's first entry and a later one,
    questions added included, the student is shown the identical paper if and only if
    no question on it was deleted.
   */
  lemma ReentryShowsSamePaper(s: State, student: StudentId, d1: Draws, ops: seq<Op>, d2: Draws)
    requires Inv(s) && student !in s.sheets && Allowed(s, Enter(student, true, d1))
    requires Start(s.exam, None, s.now, true, d1).1.Shown?
    requires AllAllowed(Next(s, Enter(student, true, d1)), ops)
    requires var s2 := Run(Next(s, Enter(student, true, d1)), ops);
      && Allowed(s2, Enter(student, true, d2)) && Start(s2.exam, SheetOf(s2, student), s2.now, true, d2).1.Shown?
    ensures var s2 := Run(Next(s, Enter(student, true, d1)), ops);
      Start(s2.exam, SheetOf(s2, student), s2.now, true, d2).1 == Start(s.exam, None, s.now, true, d1).1 <==>
        forall id :: id in AssemblePaper(s.exam, d1).questionOrder ==> id !in s2.deleted
  {
    var s1 := Next(s, Enter(student, true, d1));
    StepKeepsInv(s, Enter(student, true, d1));
    RunSettles(s1, ops);
    FirstEntryPaper(s.exam, d1);
    var s2 := Run(s1, ops);
    assert s1.sheets[student].paper == AssemblePaper(s.exam, d1);
    RenderSettlesIff(s1, s2, s1.sheets[student].paper);
  }

  /** Repeating a grading changes nothing. */
  lemma GradingIsIdempotent(exam: Exam, now: int, sheet: Sheet, dto: Grading)
    requires SheetOk(exam, now, sheet)
    ensures GradeSheet(exam, GradeSheet(exam, Some(sheet), dto).0, dto).0 == GradeSheet(exam, Some(sheet), dto).0
  {
    if ApplyGrades(sheet.answers, dto.grades).Some? {
      RegradingIsIdempotent(sheet.answers, dto.grades);
    }
  }

  /******* The service *******/

  class ExamsService {
    const exam: Exam
    var questions: seq<ExamQuestion>
    var sheets: map<StudentId, Sheet>
    ghost var deleted: set<Id>

    ghost function Current(now: int): State
      reads this
    {
      State(exam.(questions := questions), sheets, now, deleted)
    }

    constructor (exam: Exam)
      ensures sheets == map[] && this.exam == exam && questions == exam.questions && deleted == {}
    {
      this.exam := exam;
      questions, sheets, deleted := exam.questions, map[], {};
    }

    method StartExam(student: StudentId, now: int, hasAccess: bool, draws: Draws) returns (answer: StartAnswer)
      requires DrawsFit(exam.(questions := questions), draws)
      modifies this
      ensures Current(now) == Next(old(Current(now)), Enter(student, hasAccess, draws))
      ensures answer == Start(old(Current(now)).exam, SheetOf(old(Current(now)), student), now, hasAccess, draws).1
    {
      if !hasAccess {
        return NoAccess;
      }
      if now < exam.startTime {
        return NotOpenYet;
      }
      if now > exam.endTime {
        return AlreadyOver;
      }
      if student in sheets {
        if sheets[student].status != InProgress {
          return AlreadyTaken;
        }
      } else {
        var paper := BuildPaper(exam.(questions := questions), draws);
        var serverDeadline := Min(exam.endTime, now + (exam.durationMinutes + 1) * 60 * 1000);
        sheets := sheets[student :=
          Sheet(now, serverDeadline, InProgress, None, paper, [], None, false, 0.0, 0, false, Nobody, [])];
      }
      var shown := RenderPaper(questions, sheets[student].paper);
      answer := Shown(shown);
    }

    method SubmitExamAnswers(student: StudentId, now: int, dto: Submission) returns (answer: SubmitAnswer)
      modifies this
      ensures questions == old(questions) && deleted == old(deleted)
      ensures sheets ==
        WithSheet(old(Current(now)), student,
            Submit(old(Current(now)).exam, SheetOf(old(Current(now)), student), now, dto).0).sheets
      ensures answer == Submit(old(Current(now)).exam, SheetOf(old(Current(now)), student), now, dto).1
    {
      if student !in sheets {
        return NoSheet;
      }
      var sheet := sheets[student];
      if sheet.status == Submitted {
        return AlreadySubmitted;
      }
      if now > sheet.serverDeadline {
        sheets := sheets[student := sheet.(status := TimedOut, submittedAt := Some(now))];
        return TooLate;
      }
      var records, autoGradedTotalScore, hasDescriptiveQuestions := AutoGrade(questions, dto.answers);
      var totalScore := if hasDescriptiveQuestions then None else Some(autoGradedTotalScore);
      sheets := sheets[student := sheet.(
        status := Submitted, submittedAt := Some(now),
        answers := UpsertAll(sheet.answers, records),
        tabSwitchCount := dto.tabSwitchCount, flaggedForReview := dto.tabSwitchCount >= 3,
        totalScore := totalScore, isGraded := !hasDescriptiveQuestions,
        scoredBy := if hasDescriptiveQuestions then Nobody else Marker, lost := [])];
      answer := Accepted(totalScore);
    }

    method GradeDescriptiveAnswers(student: StudentId, ghost now: int, dto: Grading) returns (answer: GradeAnswer)
      modifies this
      ensures Current(now) == Next(old(Current(now)), Regrade(student, dto))
      ensures answer == GradeSheet(old(Current(now)).exam, SheetOf(old(Current(now)), student), dto).1
    {
      if student !in sheets {
        return SheetMissing;
      }
      var sheet := sheets[student];
      var answers := UpdateAnswers(sheet.answers, dto.grades);
      if answers.None? {
        return AnswerMissing;
      }
      sheets := sheets[student := sheet.(
        answers := answers.value, graceScore := dto.graceScore,
        totalScore := Some(GradedTotal(exam.totalScore, answers.value, dto.graceScore)),
        isGraded := true, scoredBy := Teacher, lost := [])];
      answer := GradesSaved;
    }

    /** The question bank's deletion, with what the database deletes along. */
    method DeleteQuestion(id: Id, ghost now: int) returns (found: bool)
      modifies this
      ensures Current(now) == Next(old(Current(now)), Op.DeleteQuestion(id))
      ensures found <==> FindQuestion(old(questions), id).Some?
    {
      found := FindQuestion(questions, id).Some?;
      if found {
        questions := Removed(questions, id);
        sheets := map st | st in sheets :: DropAnswers(sheets[st], id);
        deleted := deleted + {id};
      }
    }
  }
}

/**
  Automatic grading of a submission and regrading by the teacher, over the answer
  rows of one participation.  Scores are reals.
 */
module ExamGrading {
  import opened Optional
  import opened ExamPaper

  datatype GivenAnswer = GivenAnswer(questionId: Id, selectedOptionId: Option<Id>, text: Option<string>)

  datatype Answer = Answer(
    questionId: Id, selectedOptionId: Option<Id>, text: Option<string>,
    scoreAwarded: Option<real>, isAutoGraded: bool, teacherComment: Option<string>)

  function Points(score: Option<real>): (p: real)
  {
    if score.Some? then score.value else 0.0
  }

  function Sum(rows: seq<Answer>): (total: real)
  {
    if rows == [] then 0.0 else Sum(rows[..|rows| - 1]) + Points(rows[|rows| - 1].scoreAwarded)
  }

  function CorrectChoice(cs: seq<Choice>): (c: Option<Choice>)
  {
    if cs == [] then None else if cs[0].isCorrect then Some(cs[0]) else CorrectChoice(cs[1..])
  }

  predicate IsObjective(q: ExamQuestion)
  {
    q.kind.MultipleChoice? || q.kind.TrueFalse?
  }

  function AutoScore(q: ExamQuestion, ans: GivenAnswer): (score: Option<real>)
  {
    if !IsObjective(q) then None
    else
      var correct := CorrectChoice(q.options);
      if correct.Some? && ans.selectedOptionId == Some(correct.value.id) then Some(q.score) else Some(0.0)
  }

  function Marked(q: ExamQuestion, ans: GivenAnswer): (row: Answer)
  {
    Answer(ans.questionId, ans.selectedOptionId, ans.text, AutoScore(q, ans), IsObjective(q), None)
  }

  /** The answers to questions of this exam, marked; other answers are skipped. */
  function Records(qs: seq<ExamQuestion>, answers: seq<GivenAnswer>): (records: seq<Answer>)
  {
    if answers == [] then []
    else
      var rest := Records(qs, answers[..|answers| - 1]);
      match FindQuestion(qs, answers[|answers| - 1].questionId)
      case Some(q) => rest + [Marked(q, answers[|answers| - 1])]
      case None => rest
  }

  /** The first option marked correct is the one selected. */
  predicate ChoseCorrect(q: ExamQuestion, ans: GivenAnswer)
  {
    exists i :: 0 <= i < |q.options| && q.options[i].isCorrect && ans.selectedOptionId == Some(q.options[i].id)
      && forall k :: 0 <= k < i ==> !q.options[k].isCorrect
  }

  lemma {:induction false} CorrectChoiceIsFirst(cs: seq<Choice>, i: nat)
    requires i < |cs| && cs[i].isCorrect && forall k :: 0 <= k < i ==> !cs[k].isCorrect
    ensures CorrectChoice(cs) == Some(cs[i])
  {
    if i > 0 {
      CorrectChoiceIsFirst(cs[1..], i - 1);
    }
  }

  lemma {:induction false} CorrectChoiceIsSome(cs: seq<Choice>) returns (i: nat)
    requires CorrectChoice(cs).Some?
    ensures i < |cs| && cs[i].isCorrect && forall k :: 0 <= k < i ==> !cs[k].isCorrect
  {
    if cs[0].isCorrect {
      i := 0;
    } else {
      var n := CorrectChoiceIsSome(cs[1..]);
      i := n + 1;
    }
  }

  /**
    How an answer is marked: a multiple-choice or true/false question earns its score
    exactly when the option selected is the first correct one, and nothing otherwise; a
    descriptive one is left to the teacher.
   */
  lemma MarkedIs(q: ExamQuestion, ans: GivenAnswer)
    ensures var row := Marked(q, ans);
      && row.questionId == ans.questionId && row.selectedOptionId == ans.selectedOptionId && row.text == ans.text
      && row.teacherComment == None
      && (row.isAutoGraded <==> q.kind == MultipleChoice || q.kind == TrueFalse)
      && row.scoreAwarded ==
        if q.kind == Descriptive then None else if ChoseCorrect(q, ans) then Some(q.score) else Some(0.0)
  {
    if ChoseCorrect(q, ans) {
      var i :| 0 <= i < |q.options| && q.options[i].isCorrect && ans.selectedOptionId == Some(q.options[i].id)
        && forall k :: 0 <= k < i ==> !q.options[k].isCorrect;
      CorrectChoiceIsFirst(q.options, i);
    } else if CorrectChoice(q.options).Some? {
      var i := CorrectChoiceIsSome(q.options);
      CorrectChoiceIsFirst(q.options, i);
    }
  }

  /** The records are the marked answers to questions of the exam, and each such answer has its record. */
  lemma {:induction false} RecordsAre(qs: seq<ExamQuestion>, answers: seq<GivenAnswer>, row: Answer)
    ensures row in Records(qs, answers) <==>
      exists i :: 0 <= i < |answers| && FindQuestion(qs, answers[i].questionId).Some? &&
        row == Marked(FindQuestion(qs, answers[i].questionId).value, answers[i])
  {
    if answers != [] {
      var n := |answers| - 1;
      RecordsAre(qs, answers[..n], row);
      assert forall i :: 0 <= i < n ==> answers[..n][i] == answers[i];
    }
  }

  predicate AllObjective(records: seq<Answer>)
  {
    forall i :: 0 <= i < |records| ==> records[i].isAutoGraded
  }

  lemma SumSnoc(rows: seq<Answer>, row: Answer)
    ensures Sum(rows + [row]) == Sum(rows) + Points(row.scoreAwarded)
    ensures AllObjective(rows + [row]) <==> AllObjective(rows) && row.isAutoGraded
  {
    assert (rows + [row])[..|rows|] == rows;
    assert forall i :: 0 <= i < |rows| ==> (rows + [row])[i] == rows[i];
    assert (rows + [row])[|rows|] == row;
  }

  /** An ungraded row counts nothing, a graded one its score. */
  lemma OneMoreRowCounts(rows: seq<Answer>, row: Answer, score: real)
    ensures Sum([]) == 0.0
    ensures Sum(rows + [row.(scoreAwarded := None)]) == Sum(rows)
    ensures Sum(rows + [row.(scoreAwarded := Some(score))]) == Sum(rows) + score
  {
    SumSnoc(rows, row.(scoreAwarded := None));
    SumSnoc(rows, row.(scoreAwarded := Some(score)));
  }

  lemma NextRecord(qs: seq<ExamQuestion>, answers: seq<GivenAnswer>, i: nat)
    requires i < |answers|
    ensures var q := FindQuestion(qs, answers[i].questionId);
      Records(qs, answers[..i + 1]) ==
        if q.None? then Records(qs, answers[..i]) else Records(qs, answers[..i]) + [Marked(q.value, answers[i])]
  {
    assert answers[..i + 1][..i] == answers[..i];
  }

  /** The marking loop: the running total is the sum of the awarded scores. */
  method AutoGrade(qs: seq<ExamQuestion>, answers: seq<GivenAnswer>)
    returns (records: seq<Answer>, autoGradedTotalScore: real, hasDescriptiveQuestions: bool)
    ensures records == Records(qs, answers)
    ensures autoGradedTotalScore == Sum(records)
    ensures hasDescriptiveQuestions <==> !AllObjective(records)
  {
    records, autoGradedTotalScore, hasDescriptiveQuestions := [], 0.0, false;
    for i := 0 to |answers|
      invariant records == Records(qs, answers[..i])
      invariant autoGradedTotalScore == Sum(records)
      invariant hasDescriptiveQuestions <==> !AllObjective(records)
    {
      NextRecord(qs, answers, i);
      var examQuestion := FindQuestion(qs, answers[i].questionId);
      if examQuestion.None? {
        continue;
      }
      var row := Marked(examQuestion.value, answers[i]);
      SumSnoc(records, row);
      if IsObjective(examQuestion.value) {
        autoGradedTotalScore := autoGradedTotalScore + row.scoreAwarded.value;
      } else {
        hasDescriptiveQuestions := true;
      }
      records := records + [row];
    }
    assert answers[..|answers|] == answers;
  }

  predicate ScoresNonNegative(qs: seq<ExamQuestion>)
  {
    forall i :: 0 <= i < |qs| ==> qs[i].score >= 0.0
  }

  /******* Answer rows, one for each question *******/

  function IndexOf(rows: seq<Answer>, id: Id): (i: Option<nat>)
    ensures i.Some? ==> i.value < |rows| && rows[i.value].questionId == id
    ensures i.None? ==> forall k :: 0 <= k < |rows| ==> rows[k].questionId != id
  {
    if rows == [] then None
    else if rows[|rows| - 1].questionId == id then Some(|rows| - 1)
    else IndexOf(rows[..|rows| - 1], id)
  }

  predicate OneRowEach(rows: seq<Answer>)
  {
    forall i, j :: 0 <= i < j < |rows| ==> rows[i].questionId != rows[j].questionId
  }

  /** An upsert keeps the teacher's comment of the row it replaces. */
  function Upsert(rows: seq<Answer>, r: Answer): (rows': seq<Answer>)
    ensures OneRowEach(rows) ==> OneRowEach(rows')
  {
    match IndexOf(rows, r.questionId)
    case None => rows + [r]
    case Some(i) => rows[i := r.(teacherComment := rows[i].teacherComment)]
  }

  /** An upsert writes the record to the row of its question, or a new one, and touches no other. */
  lemma UpsertDoes(rows: seq<Answer>, r: Answer)
    requires OneRowEach(rows)
    ensures var rows' := Upsert(rows, r);
      && (forall row :: row in rows' && row.questionId != r.questionId ==> row in rows)
      && (forall row :: row in rows && row.questionId != r.questionId ==> row in rows')
      && (forall row :: row in rows' && row.questionId == r.questionId ==>
        row.(teacherComment := None) == r.(teacherComment := None))
      && exists row :: row in rows' && row.questionId == r.questionId
  {
    match IndexOf(rows, r.questionId)
    case None => assert (rows + [r])[|rows|] == r;
    case Some(i) =>
      var r' := r.(teacherComment := rows[i].teacherComment);
      assert rows[i := r'][i] == r';
      forall row | row in rows && row.questionId != r.questionId
        ensures row in rows[i := r']
      {
        var k :| 0 <= k < |rows| && rows[k] == row;
        assert rows[i := r'][k] == row;
      }
  }

  function UpsertAll(rows: seq<Answer>, records: seq<Answer>): (rows': seq<Answer>)
    ensures OneRowEach(rows) ==> OneRowEach(rows')
  {
    if records == [] then rows
    else Upsert(UpsertAll(rows, records[..|records| - 1]), records[|records| - 1])
  }

  lemma {:induction false} SumUpdate(rows: seq<Answer>, i: nat, r: Answer)
    requires i < |rows|
    ensures Sum(rows[i := r]) == Sum(rows) - Points(rows[i].scoreAwarded) + Points(r.scoreAwarded)
    decreases |rows|
  {
    var n := |rows| - 1;
    if i < n {
      assert rows[i := r][..n] == rows[..n][i := r];
      SumUpdate(rows[..n], i, r);
    } else {
      assert rows[i := r][..n] == rows[..n];
    }
  }

  /** The score an upsert overwrites. */
  function Displaced(rows: seq<Answer>, r: Answer): (p: real)
  {
    match IndexOf(rows, r.questionId)
    case None => 0.0
    case Some(i) => Points(rows[i].scoreAwarded)
  }

  function DisplacedTotal(rows: seq<Answer>, records: seq<Answer>): (p: real)
  {
    if records == [] then 0.0
    else
      var front := records[..|records| - 1];
      DisplacedTotal(rows, front) + Displaced(UpsertAll(rows, front), records[|records| - 1])
  }

  /** What the marking loop counted is what was stored plus what was overwritten. */
  lemma {:induction false} StoredSum(rows: seq<Answer>, records: seq<Answer>)
    ensures Sum(UpsertAll(rows, records)) == Sum(rows) + Sum(records) - DisplacedTotal(rows, records)
  {
    if records != [] {
      var front, r := records[..|records| - 1], records[|records| - 1];
      StoredSum(rows, front);
      var stored := UpsertAll(rows, front);
      match IndexOf(stored, r.questionId)
      case None => assert (stored + [r])[..|stored|] == stored;
      case Some(i) => SumUpdate(stored, i, r.(teacherComment := stored[i].teacherComment));
    }
  }

  predicate DistinctAnswers(answers: seq<GivenAnswer>)
  {
    forall i, j :: 0 <= i < j < |answers| ==> answers[i].questionId != answers[j].questionId
  }

  lemma {:induction false} RecordsAreOfAnswers(qs: seq<ExamQuestion>, answers: seq<GivenAnswer>)
    ensures forall r :: r in Records(qs, answers) ==>
      && (exists i :: 0 <= i < |answers| && answers[i].questionId == r.questionId)
      && FindQuestion(qs, r.questionId).Some?
      && r.isAutoGraded == IsObjective(FindQuestion(qs, r.questionId).value)
      && (r.scoreAwarded == None || r.scoreAwarded == Some(0.0) ||
        r.scoreAwarded == Some(FindQuestion(qs, r.questionId).value.score))
    ensures DistinctAnswers(answers) ==> OneRowEach(Records(qs, answers))
  {
    if answers != [] {
      var front, last := answers[..|answers| - 1], answers[|answers| - 1];
      RecordsAreOfAnswers(qs, front);
      forall r | r in Records(qs, answers)
        ensures exists i :: 0 <= i < |answers| && answers[i].questionId == r.questionId
      {
        if r in Records(qs, front) {
          var i :| 0 <= i < |front| && front[i].questionId == r.questionId;
          assert answers[i].questionId == r.questionId;
        } else {
          assert answers[|answers| - 1].questionId == r.questionId;
        }
      }
      if DistinctAnswers(answers) {
        assert DistinctAnswers(front);
        assert forall r :: r in Records(qs, front) ==> r.questionId != last.questionId;
      }
    }
  }

  lemma {:induction false} UpsertDistinct(records: seq<Answer>)
    requires OneRowEach(records)
    ensures UpsertAll([], records) == records && DisplacedTotal([], records) == 0.0
  {
    if records != [] {
      var front, r := records[..|records| - 1], records[|records| - 1];
      UpsertDistinct(front);
      assert forall k :: 0 <= k < |front| ==> front[k].questionId != r.questionId;
    }
  }

  // ------------------------------------------------------------------ when the total is the stored sum

  predicate NoPointsFor(records: seq<Answer>, id: Id)
  {
    forall i :: 0 <= i < |records| && records[i].questionId == id ==> Points(records[i].scoreAwarded) == 0.0
  }

  /** No record with points is followed by another for the same question. */
  predicate NothingOverwritten(records: seq<Answer>)
  {
    forall i, j :: 0 <= i < j < |records| && records[i].questionId == records[j].questionId ==>
      Points(records[i].scoreAwarded) == 0.0
  }

  predicate PointsNonNegative(records: seq<Answer>)
  {
    forall i :: 0 <= i < |records| ==> Points(records[i].scoreAwarded) >= 0.0
  }

  lemma {:induction false} ReplacedFinds(rows: seq<Answer>, i: nat, row: Answer, id: Id)
    requires i < |rows| && rows[i].questionId == row.questionId && IndexOf(rows, row.questionId) == Some(i)
    ensures IndexOf(rows[i := row], id) == IndexOf(rows, id)
    decreases |rows|
  {
    var n := |rows| - 1;
    if i < n {
      assert rows[i := row][..n] == rows[..n][i := row];
      ReplacedFinds(rows[..n], i, row, id);
    } else {
      assert rows[i := row][..n] == rows[..n];
    }
  }

  lemma UpsertFinds(rows: seq<Answer>, last: Answer, r: Answer)
    ensures IndexOf(Upsert(rows, last), r.questionId).Some? <==>
      last.questionId == r.questionId || IndexOf(rows, r.questionId).Some?
    ensures Displaced(Upsert(rows, last), r) ==
      if last.questionId == r.questionId then Points(last.scoreAwarded) else Displaced(rows, r)
  {
    match IndexOf(rows, last.questionId)
    case None => assert (rows + [last])[..|rows|] == rows;
    case Some(i) => ReplacedFinds(rows, i, last.(teacherComment := rows[i].teacherComment), r.questionId);
  }

  /** A stored row holds the score of the last record for its question. */
  lemma {:induction false} LastRecordIsStored(records: seq<Answer>, r: Answer)
    ensures Displaced(UpsertAll([], records), r) == Displaced(records, r)
    ensures IndexOf(UpsertAll([], records), r.questionId).Some? <==> IndexOf(records, r.questionId).Some?
  {
    if records != [] {
      var front, last := records[..|records| - 1], records[|records| - 1];
      LastRecordIsStored(front, r);
      UpsertFinds(UpsertAll([], front), last, r);
    }
  }

  lemma {:induction false} LastIndexIsLast(rows: seq<Answer>, id: Id)
    requires IndexOf(rows, id).Some?
    ensures forall i :: IndexOf(rows, id).value < i < |rows| ==> rows[i].questionId != id
  {
    var n := |rows| - 1;
    if rows[n].questionId != id {
      LastIndexIsLast(rows[..n], id);
    }
  }

  lemma {:induction false} DisplacedIsZeroIff(records: seq<Answer>, r: Answer)
    requires NothingOverwritten(records)
    ensures Displaced(records, r) == 0.0 <==> NoPointsFor(records, r.questionId)
  {
    var k := IndexOf(records, r.questionId);
    if k.Some? {
      LastIndexIsLast(records, r.questionId);
      assert forall i :: 0 <= i < |records| && records[i].questionId == r.questionId && i != k.value ==>
          i < k.value && Points(records[i].scoreAwarded) == 0.0;
    }
  }

  lemma OverwrittenByLast(records: seq<Answer>)
    requires records != []
    ensures var front, last := records[..|records| - 1], records[|records| - 1];
      NothingOverwritten(records) <==>
        NothingOverwritten(front) && NoPointsFor(front, last.questionId)
  {
    var n := |records| - 1;
    assert forall i :: 0 <= i < n ==> records[..n][i] == records[i];
  }

  /** For scores that are not negative: nothing is displaced exactly when nothing with points is overwritten. */
  lemma {:induction false} NothingDisplacedIff(records: seq<Answer>)
    requires PointsNonNegative(records)
    ensures DisplacedTotal([], records) >= 0.0
    ensures DisplacedTotal([], records) == 0.0 <==> NothingOverwritten(records)
  {
    if records != [] {
      var front, last := records[..|records| - 1], records[|records| - 1];
      assert PointsNonNegative(front);
      NothingDisplacedIff(front);
      LastRecordIsStored(front, last);
      OverwrittenByLast(records);
      if NothingOverwritten(front) {
        DisplacedIsZeroIff(front, last);
      }
    }
  }

  /** The answer selects the correct option of a question of the exam that is worth something. */
  predicate Earns(qs: seq<ExamQuestion>, ans: GivenAnswer)
  {
    var q := FindQuestion(qs, ans.questionId);
    q.Some? && q.value.kind != Descriptive && ChoseCorrect(q.value, ans) && q.value.score != 0.0
  }

  /** No answer that earns points is followed by another answer to the same question. */
  predicate NoEarnerRepeated(qs: seq<ExamQuestion>, answers: seq<GivenAnswer>)
  {
    forall i, j :: 0 <= i < j < |answers| && answers[i].questionId == answers[j].questionId ==> !Earns(qs, answers[i])
  }

  predicate NoneEarns(qs: seq<ExamQuestion>, answers: seq<GivenAnswer>, id: Id)
  {
    forall i :: 0 <= i < |answers| && answers[i].questionId == id ==> !Earns(qs, answers[i])
  }

  lemma NoneEarnsByLast(qs: seq<ExamQuestion>, answers: seq<GivenAnswer>, id: Id)
    requires answers != []
    ensures var front, last := answers[..|answers| - 1], answers[|answers| - 1];
      NoneEarns(qs, answers, id) <==> NoneEarns(qs, front, id) && (last.questionId == id ==> !Earns(qs, last))
  {
    var n := |answers| - 1;
    assert forall i :: 0 <= i < n ==> answers[..n][i] == answers[i];
  }

  lemma NoPointsByLast(front: seq<Answer>, last: Answer, id: Id)
    ensures NoPointsFor(front + [last], id) <==>
      NoPointsFor(front, id) && (last.questionId == id ==> Points(last.scoreAwarded) == 0.0)
  {
    var all := front + [last];
    assert forall i :: 0 <= i < |front| ==> all[i] == front[i];
    assert all[|front|] == last;
  }

  lemma {:induction false} EarnersAreRecords(qs: seq<ExamQuestion>, answers: seq<GivenAnswer>, id: Id)
    requires FindQuestion(qs, id).Some?
    ensures NoneEarns(qs, answers, id) <==> NoPointsFor(Records(qs, answers), id)
  {
    if answers != [] {
      var front, last := answers[..|answers| - 1], answers[|answers| - 1];
      EarnersAreRecords(qs, front, id);
      NoneEarnsByLast(qs, answers, id);
      var q := FindQuestion(qs, last.questionId);
      if q.Some? {
        MarkedIs(q.value, last);
        NoPointsByLast(Records(qs, front), Marked(q.value, last), id);
      }
    }
  }

  lemma RepeatedByLast(qs: seq<ExamQuestion>, answers: seq<GivenAnswer>)
    requires answers != []
    ensures var front, last := answers[..|answers| - 1], answers[|answers| - 1];
      NoEarnerRepeated(qs, answers) <==>
        NoEarnerRepeated(qs, front) && NoneEarns(qs, front, last.questionId)
  {
    var n := |answers| - 1;
    assert forall i :: 0 <= i < n ==> answers[..n][i] == answers[i];
  }

  lemma UnknownEarnsNothing(qs: seq<ExamQuestion>, answers: seq<GivenAnswer>, id: Id)
    requires FindQuestion(qs, id).None?
    ensures NoneEarns(qs, answers, id)
  {
  }

  lemma {:induction false} RecordsOverwrittenIff(qs: seq<ExamQuestion>, answers: seq<GivenAnswer>)
    ensures NothingOverwritten(Records(qs, answers)) <==> NoEarnerRepeated(qs, answers)
  {
    if answers != [] {
      var front, last := answers[..|answers| - 1], answers[|answers| - 1];
      RecordsOverwrittenIff(qs, front);
      RepeatedByLast(qs, answers);
      if FindQuestion(qs, last.questionId).None? {
        UnknownEarnsNothing(qs, front, last.questionId);
      } else {
        var records := Records(qs, answers);
        assert records[..|records| - 1] == Records(qs, front);
        OverwrittenByLast(records);
        EarnersAreRecords(qs, front, last.questionId);
      }
    }
  }

  lemma RecordsNonNegative(qs: seq<ExamQuestion>, answers: seq<GivenAnswer>)
    requires ScoresNonNegative(qs)
    ensures PointsNonNegative(Records(qs, answers))
  {
    RecordsAreOfAnswers(qs, answers);
    var records := Records(qs, answers);
    forall i | 0 <= i < |records|
      ensures Points(records[i].scoreAwarded) >= 0.0
    {
      assert records[i] in records;
      var q := FindQuestion(qs, records[i].questionId).value;
      var k :| 0 <= k < |qs| && qs[k] == q;
    }
  }

  /**
    The total written at submission is the sum of the stored answers if and only if
    no answer that earns points is followed by another answer to the same question.
   */
  lemma SubmittedTotalIsStoredSum(qs: seq<ExamQuestion>, answers: seq<GivenAnswer>)
    requires ScoresNonNegative(qs)
    ensures Sum(Records(qs, answers)) == Sum(UpsertAll([], Records(qs, answers))) <==> NoEarnerRepeated(qs, answers)
  {
    StoredSum([], Records(qs, answers));
    RecordsNonNegative(qs, answers);
    NothingDisplacedIff(Records(qs, answers));
    RecordsOverwrittenIff(qs, answers);
  }

  /** With an answer for each question at most once the records are the stored rows. */
  lemma DistinctAnswersAreStored(qs: seq<ExamQuestion>, answers: seq<GivenAnswer>)
    requires DistinctAnswers(answers)
    ensures UpsertAll([], Records(qs, answers)) == Records(qs, answers) && NoEarnerRepeated(qs, answers)
  {
    RecordsAreOfAnswers(qs, answers);
    UpsertDistinct(Records(qs, answers));
  }

  lemma RecordsOfOne(q: ExamQuestion, ans: GivenAnswer)
    requires ans.questionId == q.questionId
    ensures Records([q], [ans]) == [Marked(q, ans)]
  {
    assert FindQuestion([q], ans.questionId) == Some(q);
    assert [ans][..0] == [];
  }

  lemma RecordsOfTwo(q: ExamQuestion, ans: GivenAnswer)
    requires ans.questionId == q.questionId
    ensures Records([q], [ans, ans]) == [Marked(q, ans), Marked(q, ans)]
  {
    RecordsOfOne(q, ans);
    assert FindQuestion([q], ans.questionId) == Some(q);
    assert [ans, ans][..1] == [ans];
  }

  lemma SumOfTwo(a: Answer, b: Answer)
    ensures Sum([a]) == Points(a.scoreAwarded) && Sum([a, b]) == Points(a.scoreAwarded) + Points(b.scoreAwarded)
  {
    assert [a, b][..1] == [a] && [a][..0] == [];
  }

  lemma UpsertTwice(row: Answer)
    requires row.teacherComment == None
    ensures UpsertAll([], [row, row]) == [row]
  {
    assert [row, row][..1] == [row] && [row][..0] == [];
    assert UpsertAll([], [row]) == Upsert([], row) == [row];
    assert UpsertAll([], [row, row]) == Upsert([row], row);
  }

  /** Answering one question twice, right both times, counts it twice in the total. */
  lemma RepeatedAnswerCountsTwice(q: ExamQuestion, ans: GivenAnswer)
    requires q.kind != Descriptive && ChoseCorrect(q, ans) && ans.questionId == q.questionId
    ensures Sum(Records([q], [ans, ans])) == q.score + q.score
    ensures Sum(UpsertAll([], Records([q], [ans, ans]))) == q.score
  {
    var row := Marked(q, ans);
    MarkedIs(q, ans);
    RecordsOfTwo(q, ans);
    SumOfTwo(row, row);
    UpsertTwice(row);
  }

  /******* The total never exceeds the exam *******/

  function QuestionTotal(qs: seq<ExamQuestion>): (total: real)
  {
    if qs == [] then 0.0 else QuestionTotal(qs[1..]) + qs[0].score
  }

  function Without(rows: seq<Answer>, id: Id): (rest: seq<Answer>)
  {
    if rows == [] then []
    else
      var rest := Without(rows[..|rows| - 1], id);
      if rows[|rows| - 1].questionId == id then rest else rest + [rows[|rows| - 1]]
  }

  lemma {:induction false} WithoutMembers(rows: seq<Answer>, id: Id)
    ensures forall r :: r in Without(rows, id) ==> r in rows && r.questionId != id
    ensures OneRowEach(rows) ==> OneRowEach(Without(rows, id))
  {
    if rows != [] {
      WithoutMembers(rows[..|rows| - 1], id);
    }
  }

  lemma {:induction false} WithoutKeeps(rows: seq<Answer>, id: Id)
    requires forall i :: 0 <= i < |rows| ==> rows[i].questionId != id
    ensures Without(rows, id) == rows
  {
    if rows != [] {
      WithoutKeeps(rows[..|rows| - 1], id);
      assert rows == rows[..|rows| - 1] + [rows[|rows| - 1]];
    }
  }

  lemma {:induction false} SumWithout(rows: seq<Answer>, id: Id, bound: real)
    requires OneRowEach(rows) && bound >= 0.0
    requires forall r :: r in rows && r.questionId == id ==> Points(r.scoreAwarded) <= bound
    ensures Sum(rows) <= Sum(Without(rows, id)) + bound
  {
    if rows != [] {
      var front, last := rows[..|rows| - 1], rows[|rows| - 1];
      if last.questionId == id {
        WithoutKeeps(front, id);
        assert last in rows;
      } else {
        SumWithout(front, id, bound);
        assert (Without(front, id) + [last])[..|Without(front, id)|] == Without(front, id);
      }
    }
  }

  /** The rows that go with a deleted question. */
  function Picked(rows: seq<Answer>, id: Id): (picked: seq<Answer>)
  {
    if rows == [] then []
    else
      var rest := Picked(rows[..|rows| - 1], id);
      if rows[|rows| - 1].questionId == id then rest + [rows[|rows| - 1]] else rest
  }

  lemma {:induction false} SumAppend(a: seq<Answer>, b: seq<Answer>)
    ensures Sum(a + b) == Sum(a) + Sum(b)
  {
    if b == [] {
      assert a + b == a;
    } else {
      var front, last := b[..|b| - 1], b[|b| - 1];
      var all := a + front;
      SumAppend(a, front);
      SumSnoc(all, last);
      SumSnoc(front, last);
      assert a + b == all + [last] && b == front + [last];
    }
  }

  lemma {:induction false} SumSplits(rows: seq<Answer>, id: Id)
    ensures Sum(rows) == Sum(Without(rows, id)) + Sum(Picked(rows, id))
  {
    if rows != [] {
      var front, last := rows[..|rows| - 1], rows[|rows| - 1];
      SumSplits(front, id);
      SumSnoc(Without(front, id), last);
      SumSnoc(Picked(front, id), last);
    }
  }

  lemma {:induction false} PickedMembers(rows: seq<Answer>, id: Id)
    ensures forall r :: r in Picked(rows, id) <==> r in rows && r.questionId == id
  {
    if rows != [] {
      PickedMembers(rows[..|rows| - 1], id);
    }
  }

  predicate WithinScores(qs: seq<ExamQuestion>, rows: seq<Answer>)
  {
    forall i :: 0 <= i < |rows| ==>
      && FindQuestion(qs, rows[i].questionId).Some?
      && Points(rows[i].scoreAwarded) <= FindQuestion(qs, rows[i].questionId).value.score
  }

  lemma DropQuestion(qs: seq<ExamQuestion>, rows: seq<Answer>)
    requires qs != [] && WithinScores(qs, rows) && OneRowEach(rows)
    ensures WithinScores(qs[1..], Without(rows, qs[0].questionId)) && OneRowEach(Without(rows, qs[0].questionId))
    ensures forall r :: r in rows && r.questionId == qs[0].questionId ==> Points(r.scoreAwarded) <= qs[0].score
  {
    var rest := Without(rows, qs[0].questionId);
    WithoutMembers(rows, qs[0].questionId);
    forall i | 0 <= i < |rest|
      ensures FindQuestion(qs[1..], rest[i].questionId).Some?
      ensures Points(rest[i].scoreAwarded) <= FindQuestion(qs[1..], rest[i].questionId).value.score
    {
      assert rest[i] in rest;
      var k :| 0 <= k < |rows| && rows[k] == rest[i];
    }
  }

  /** Rows for distinct questions of the exam sum to at most the question scores. */
  lemma {:induction false} SumWithinQuestions(qs: seq<ExamQuestion>, rows: seq<Answer>)
    requires ScoresNonNegative(qs) && OneRowEach(rows) && WithinScores(qs, rows)
    ensures Sum(rows) <= QuestionTotal(qs)
  {
    if qs != [] {
      DropQuestion(qs, rows);
      SumWithout(rows, qs[0].questionId, qs[0].score);
      SumWithinQuestions(qs[1..], Without(rows, qs[0].questionId));
    }
  }

  lemma RecordsWithinScores(qs: seq<ExamQuestion>, answers: seq<GivenAnswer>)
    requires ScoresNonNegative(qs)
    ensures WithinScores(qs, Records(qs, answers))
  {
    RecordsAreOfAnswers(qs, answers);
    var records := Records(qs, answers);
    forall i | 0 <= i < |records|
      ensures FindQuestion(qs, records[i].questionId).Some?
      ensures Points(records[i].scoreAwarded) <= FindQuestion(qs, records[i].questionId).value.score
    {
      assert records[i] in records;
      var q := FindQuestion(qs, records[i].questionId).value;
      var k :| 0 <= k < |qs| && qs[k] == q;
    }
  }

  lemma SubmittedTotalWithinExam(qs: seq<ExamQuestion>, answers: seq<GivenAnswer>)
    requires ScoresNonNegative(qs) && DistinctAnswers(answers)
    ensures Sum(Records(qs, answers)) <= QuestionTotal(qs)
  {
    RecordsAreOfAnswers(qs, answers);
    RecordsWithinScores(qs, answers);
    SumWithinQuestions(qs, Records(qs, answers));
  }

  // ------------------------------------------------------------------ rows of deleted questions

  lemma DroppedWithinScores(qs: seq<ExamQuestion>, rows: seq<Answer>, id: Id)
    requires WithinScores(qs, rows)
    ensures WithinScores(Removed(qs, id), Without(rows, id))
  {
    var rest := Without(rows, id);
    WithoutMembers(rows, id);
    forall i | 0 <= i < |rest|
      ensures FindQuestion(Removed(qs, id), rest[i].questionId).Some?
      ensures Points(rest[i].scoreAwarded) <= FindQuestion(Removed(qs, id), rest[i].questionId).value.score
    {
      assert rest[i] in rest;
      FindInRemoved(qs, id, rest[i].questionId);
      var k :| 0 <= k < |rows| && rows[k] == rest[i];
    }
  }

  lemma DroppedNonNegative(rows: seq<Answer>, lost: seq<Answer>, id: Id)
    requires PointsNonNegative(rows) && PointsNonNegative(lost)
    ensures PointsNonNegative(Without(rows, id)) && PointsNonNegative(lost + Picked(rows, id))
  {
    var rest, picked := Without(rows, id), Picked(rows, id);
    WithoutMembers(rows, id);
    PickedMembers(rows, id);
    forall i | 0 <= i < |rest|
      ensures Points(rest[i].scoreAwarded) >= 0.0
    {
      assert rest[i] in rest;
    }
    forall i | 0 <= i < |picked|
      ensures Points(picked[i].scoreAwarded) >= 0.0
    {
      assert picked[i] in picked;
    }
  }

  lemma DroppedSum(rows: seq<Answer>, lost: seq<Answer>, id: Id)
    ensures Sum(Without(rows, id)) + Sum(lost + Picked(rows, id)) == Sum(rows) + Sum(lost)
    ensures Sum(Without(rows, id) + (lost + Picked(rows, id))) == Sum(rows + lost)
  {
    SumAppend(lost, Picked(rows, id));
    SumSplits(rows, id);
    SumAppend(rows, lost);
    SumAppend(Without(rows, id), lost + Picked(rows, id));
  }

  predicate AllWorthless(rows: seq<Answer>)
  {
    forall i :: 0 <= i < |rows| ==> Points(rows[i].scoreAwarded) == 0.0
  }

  /** Rows whose points are not negative come to nothing exactly when each is worth nothing. */
  lemma {:induction false} SumIsZeroIff(rows: seq<Answer>)
    requires PointsNonNegative(rows)
    ensures Sum(rows) >= 0.0
    ensures Sum(rows) == 0.0 <==> AllWorthless(rows)
  {
    if rows != [] {
      var front := rows[..|rows| - 1];
      assert PointsNonNegative(front);
      SumIsZeroIff(front);
      assert AllWorthless(rows) <==> AllWorthless(front) && Points(rows[|rows| - 1].scoreAwarded) == 0.0 by {
        assert forall i :: 0 <= i < |front| ==> front[i] == rows[i];
      }
    }
  }

  /******* Regrading *******/

  datatype Grade = Grade(questionId: Id, scoreAwarded: real, teacherComment: Option<string>)

  /** One update; the update of a missing row throws. */
  function ApplyGrade(rows: seq<Answer>, g: Grade): (rows': Option<seq<Answer>>)
    ensures rows'.Some? ==> |rows'.value| == |rows|
    ensures rows'.Some? ==> forall k :: 0 <= k < |rows| ==> rows'.value[k].questionId == rows[k].questionId
  {
    match IndexOf(rows, g.questionId)
    case None => None
    case Some(i) => Some(rows[i := rows[i].(scoreAwarded := Some(g.scoreAwarded), teacherComment := g.teacherComment)])
  }

  /** All updates in one transaction: a throw rolls every one back. */
  function ApplyGrades(rows: seq<Answer>, grades: seq<Grade>): (rows': Option<seq<Answer>>)
    ensures rows'.Some? ==> |rows'.value| == |rows|
    ensures rows'.Some? ==> forall k :: 0 <= k < |rows| ==> rows'.value[k].questionId == rows[k].questionId
  {
    if grades == [] then Some(rows)
    else
      match ApplyGrades(rows, grades[..|grades| - 1])
      case None => None
      case Some(done) => ApplyGrade(done, grades[|grades| - 1])
  }

  lemma {:induction false} FailurePersists(rows: seq<Answer>, grades: seq<Grade>, k: nat)
    requires k <= |grades| && ApplyGrades(rows, grades[..k]).None?
    ensures ApplyGrades(rows, grades).None?
    decreases |grades| - k
  {
    if k == |grades| {
      assert grades[..k] == grades;
    } else {
      assert grades[..k + 1][..k] == grades[..k];
      FailurePersists(rows, grades, k + 1);
    }
  }

  method UpdateAnswers(rows: seq<Answer>, grades: seq<Grade>) returns (rows': Option<seq<Answer>>)
    ensures rows' == ApplyGrades(rows, grades)
  {
    rows' := Some(rows);
    for k := 0 to |grades|
      invariant rows'.Some? && ApplyGrades(rows, grades[..k]) == rows'
    {
      assert grades[..k + 1][..k] == grades[..k];
      rows' := ApplyGrade(rows'.value, grades[k]);
      if rows'.None? {
        FailurePersists(rows, grades, k + 1);
        return None;
      }
    }
    assert grades[..|grades|] == grades;
  }

  /** The last grade given to a question. */
  function LastGrade(grades: seq<Grade>, id: Id): (g: Option<Grade>)
  {
    if grades == [] then None
    else if grades[|grades| - 1].questionId == id then Some(grades[|grades| - 1])
    else LastGrade(grades[..|grades| - 1], id)
  }

  predicate IsLastGrade(grades: seq<Grade>, id: Id, i: nat)
  {
    && i < |grades| && grades[i].questionId == id
    && forall k :: i < k < |grades| ==> grades[k].questionId != id
  }

  lemma {:induction false} LastGradeIs(grades: seq<Grade>, id: Id, i: nat)
    ensures IsLastGrade(grades, id, i) ==> LastGrade(grades, id) == Some(grades[i])
    ensures LastGrade(grades, id) == None <==> forall k :: 0 <= k < |grades| ==> grades[k].questionId != id
  {
    if grades != [] {
      LastGradeIs(grades[..|grades| - 1], id, i);
    }
  }

  function Regraded(row: Answer, grades: seq<Grade>): (row': Answer)
  {
    match LastGrade(grades, row.questionId)
    case None => row
    case Some(g) => row.(scoreAwarded := Some(g.scoreAwarded), teacherComment := g.teacherComment)
  }

  predicate HasRow(rows: seq<Answer>, id: Id)
  {
    exists k :: 0 <= k < |rows| && rows[k].questionId == id
  }

  predicate AllHaveRows(rows: seq<Answer>, grades: seq<Grade>)
  {
    forall j :: 0 <= j < |grades| ==> HasRow(rows, grades[j].questionId)
  }

  lemma AppliesIffRow(rows: seq<Answer>, done: seq<Answer>, g: Grade)
    requires |done| == |rows| && forall k :: 0 <= k < |rows| ==> done[k].questionId == rows[k].questionId
    ensures ApplyGrade(done, g).Some? <==> HasRow(rows, g.questionId)
  {
    if HasRow(rows, g.questionId) {
      var k :| 0 <= k < |rows| && rows[k].questionId == g.questionId;
      assert done[k].questionId == g.questionId;
    }
  }

  lemma {:induction false} GradesApplyIff(rows: seq<Answer>, grades: seq<Grade>)
    ensures ApplyGrades(rows, grades).Some? <==> AllHaveRows(rows, grades)
  {
    if grades != [] {
      var front, g := grades[..|grades| - 1], grades[|grades| - 1];
      GradesApplyIff(rows, front);
      assert AllHaveRows(rows, grades) <==> AllHaveRows(rows, front) && HasRow(rows, g.questionId);
      if ApplyGrades(rows, front).Some? {
        AppliesIffRow(rows, ApplyGrades(rows, front).value, g);
      }
    }
  }

  predicate RegradedBy(rows: seq<Answer>, done: seq<Answer>, grades: seq<Grade>)
  {
    |done| == |rows| && forall k :: 0 <= k < |rows| ==> done[k] == Regraded(rows[k], grades)
  }

  lemma OneMoreGrade(rows: seq<Answer>, done: seq<Answer>, front: seq<Grade>, g: Grade)
    requires OneRowEach(rows) && RegradedBy(rows, done, front) && ApplyGrade(done, g).Some?
    ensures RegradedBy(rows, ApplyGrade(done, g).value, front + [g])
  {
    var i := IndexOf(done, g.questionId).value;
    assert (front + [g])[..|front|] == front;
    assert done[i].questionId == rows[i].questionId;
  }

  lemma {:induction false} GradesRows(rows: seq<Answer>, grades: seq<Grade>)
    requires OneRowEach(rows) && ApplyGrades(rows, grades).Some?
    ensures RegradedBy(rows, ApplyGrades(rows, grades).value, grades)
  {
    if grades != [] {
      var front, g := grades[..|grades| - 1], grades[|grades| - 1];
      GradesRows(rows, front);
      OneMoreGrade(rows, ApplyGrades(rows, front).value, front, g);
      assert front + [g] == grades;
    }
  }

  /** Grading succeeds exactly when every graded question was answered; each row takes its last grade. */
  lemma GradesByRow(rows: seq<Answer>, grades: seq<Grade>)
    requires OneRowEach(rows)
    ensures ApplyGrades(rows, grades).Some? <==> AllHaveRows(rows, grades)
    ensures ApplyGrades(rows, grades).Some? ==> RegradedBy(rows, ApplyGrades(rows, grades).value, grades)
  {
    GradesApplyIff(rows, grades);
    if ApplyGrades(rows, grades).Some? {
      GradesRows(rows, grades);
    }
  }

  /** Repeating a grading changes nothing. */
  lemma RegradingIsIdempotent(rows: seq<Answer>, grades: seq<Grade>)
    requires OneRowEach(rows) && ApplyGrades(rows, grades).Some?
    ensures ApplyGrades(ApplyGrades(rows, grades).value, grades) == ApplyGrades(rows, grades)
  {
    var once := ApplyGrades(rows, grades).value;
    GradesByRow(rows, grades);
    GradesByRow(once, grades);
    forall j | 0 <= j < |grades|
      ensures HasRow(once, grades[j].questionId)
    {
      var k :| 0 <= k < |rows| && rows[k].questionId == grades[j].questionId;
      assert once[k].questionId == grades[j].questionId;
    }
    assert ApplyGrades(once, grades).value == once;
  }

  /** `Math.round(x * 100) / 100`. */
  function RoundHundredths(x: real): (r: real)
    ensures x - 0.005 < r <= x + 0.005
  {
    (x * 100.0 + 0.5).Floor as real / 100.0
  }

  function GradedTotal(examTotal: real, rows: seq<Answer>, graceScore: real): (total: real)
  {
    var rounded := RoundHundredths(Sum(rows) + graceScore);
    if examTotal <= rounded then examTotal else rounded
  }

  /** The total is the sum with the grace rounded to the nearest hundredth, halves up, and capped. */
  lemma GradedTotalIs(examTotal: real, rows: seq<Answer>, graceScore: real) returns (n: int)
    ensures var x := (Sum(rows) + graceScore) * 100.0;
      n as real - 0.5 <= x < n as real + 0.5
    ensures GradedTotal(examTotal, rows, graceScore) ==
      if examTotal <= n as real / 100.0 then examTotal else n as real / 100.0
  {
    n := ((Sum(rows) + graceScore) * 100.0 + 0.5).Floor;
  }
}

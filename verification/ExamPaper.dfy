/**
  The exam paper: assembled once, when a student first enters, and rendered from
  its stored order at every later entry.  Times are milliseconds.
 */
module ExamPaper {
  import opened Optional
  import opened Sequences
  import opened Shuffle

  type Id = string

  datatype Kind = MultipleChoice | TrueFalse | Descriptive
  datatype Choice = Choice(id: Id, text: string, isCorrect: bool)
  datatype ExamQuestion = ExamQuestion(questionId: Id, score: real, kind: Kind, text: string, options: seq<Choice>)

  datatype Exam = Exam(
    startTime: int, endTime: int, durationMinutes: int, totalScore: real,
    shuffleQuestions: bool, shuffleOptions: bool, questions: seq<ExamQuestion>)

  /** What a student sees: no `isCorrect`. */
  datatype ShownChoice = ShownChoice(id: Id, text: string)
  datatype ShownQuestion = ShownQuestion(questionId: Id, score: real, kind: Kind, text: string,
      options: seq<ShownChoice>)

  datatype Paper = Paper(questionOrder: seq<Id>, optionOrders: map<Id, seq<Id>>)

  function Ids(qs: seq<ExamQuestion>): (ids: seq<Id>)
    ensures |ids| == |qs| && forall i :: 0 <= i < |qs| ==> ids[i] == qs[i].questionId
  {
    seq(|qs|, i requires 0 <= i < |qs| => qs[i].questionId)
  }

  function ChoiceIds(cs: seq<Choice>): (ids: seq<Id>)
    ensures |ids| == |cs| && forall i :: 0 <= i < |cs| ==> ids[i] == cs[i].id
  {
    seq(|cs|, i requires 0 <= i < |cs| => cs[i].id)
  }

  /** The unique constraints on exam questions and on the options of a question. */
  predicate WellKeyed(qs: seq<ExamQuestion>)
  {
    Distinct(Ids(qs)) && forall i :: 0 <= i < |qs| ==> Distinct(ChoiceIds(qs[i].options))
  }

  /** The random draws a first entry consumes; unused when nothing is shuffled. */
  datatype Draws = Draws(questions: seq<nat>, options: seq<seq<nat>>)

  predicate OptionDrawsFit(qs: seq<ExamQuestion>, draws: seq<seq<nat>>)
  {
    |draws| == |qs| && forall i :: 0 <= i < |qs| ==> ValidDraws(|qs[i].options|, draws[i])
  }

  predicate DrawsFit(exam: Exam, d: Draws)
  {
    ValidDraws(|exam.questions|, d.questions) && OptionDrawsFit(exam.questions, d.options)
  }

  function OptionOrder(shuffle: bool, q: ExamQuestion, draws: seq<nat>): (order: seq<Id>)
    requires ValidDraws(|q.options|, draws)
  {
    ChoiceIds(if shuffle then Shuffled(q.options, draws) else q.options)
  }

  /** Questions without options get no entry. */
  function AddOrder(orders: map<Id, seq<Id>>, q: ExamQuestion, order: seq<Id>): (orders': map<Id, seq<Id>>)
  {
    if q.options == [] then orders else orders[q.questionId := order]
  }

  function OptionOrders(shuffle: bool, qs: seq<ExamQuestion>, draws: seq<seq<nat>>): (orders: map<Id, seq<Id>>)
    requires OptionDrawsFit(qs, draws)
  {
    if qs == [] then map[]
    else
      var n := |qs| - 1;
      AddOrder(OptionOrders(shuffle, qs[..n], draws[..n]), qs[n], OptionOrder(shuffle, qs[n], draws[n]))
  }

  function AssemblePaper(exam: Exam, d: Draws): (paper: Paper)
    requires DrawsFit(exam, d)
  {
    Paper(Ids(if exam.shuffleQuestions then Shuffled(exam.questions, d.questions) else exam.questions),
          OptionOrders(exam.shuffleOptions, exam.questions, d.options))
  }

  /** The assembling loops. */
  lemma NextOptionOrders(shuffle: bool, qs: seq<ExamQuestion>, draws: seq<seq<nat>>, i: nat)
    requires OptionDrawsFit(qs, draws) && i < |qs|
    ensures OptionOrders(shuffle, qs[..i + 1], draws[..i + 1]) ==
      AddOrder(OptionOrders(shuffle, qs[..i], draws[..i]), qs[i], OptionOrder(shuffle, qs[i], draws[i]))
  {
    assert qs[..i + 1][..i] == qs[..i] && draws[..i + 1][..i] == draws[..i];
  }

  /** The order of one question's options. */
  method OrderOptions(shuffle: bool, q: ExamQuestion, draws: seq<nat>) returns (order: seq<Id>)
    requires ValidDraws(|q.options|, draws)
    ensures order == OptionOrder(shuffle, q, draws)
  {
    var opts := q.options;
    if shuffle {
      var shuffled := ShuffleArray(opts, draws);
      opts := shuffled[..];
    }
    order := ChoiceIds(opts);
  }

  method BuildPaper(exam: Exam, d: Draws) returns (paper: Paper)
    requires DrawsFit(exam, d)
    ensures paper == AssemblePaper(exam, d)
  {
    var questionList := exam.questions;
    if exam.shuffleQuestions {
      var shuffled := ShuffleArray(questionList, d.questions);
      questionList := shuffled[..];
    }
    var optionOrders: map<Id, seq<Id>> := map[];
    for i := 0 to |exam.questions|
      invariant optionOrders == OptionOrders(exam.shuffleOptions, exam.questions[..i], d.options[..i])
    {
      var eq := exam.questions[i];
      NextOptionOrders(exam.shuffleOptions, exam.questions, d.options, i);
      if |eq.options| > 0 {
        var order := OrderOptions(exam.shuffleOptions, eq, d.options[i]);
        optionOrders := optionOrders[eq.questionId := order];
      }
    }
    assert exam.questions[..|exam.questions|] == exam.questions && d.options[..|exam.questions|] == d.options;
    paper := Paper(Ids(questionList), optionOrders);
  }

  /******* The stored paper is a permutation *******/

  lemma {:induction false} IdsOfShuffle(qs: seq<ExamQuestion>, draws: seq<nat>)
    requires ValidDraws(|qs|, draws)
    ensures Ids(Shuffled(qs, draws)) == Shuffled(Ids(qs), draws)
    decreases |qs|
  {
    if |qs| > 1 {
      var n := |qs| - 1;
      var b := Swap(qs, n, draws[0]);
      assert Ids(b) == Swap(Ids(qs), n, draws[0]);
      assert Ids(b)[..n] == Ids(b[..n]);
      IdsOfShuffle(b[..n], draws[1..]);
      assert Ids(Shuffled(qs, draws)) == Ids(Shuffled(b[..n], draws[1..])) + [b[n].questionId];
    } else {
      assert Ids(Shuffled(qs, draws)) == Ids(qs);
    }
  }

  lemma {:induction false} ChoiceIdsOfShuffle(cs: seq<Choice>, draws: seq<nat>)
    requires ValidDraws(|cs|, draws)
    ensures ChoiceIds(Shuffled(cs, draws)) == Shuffled(ChoiceIds(cs), draws)
    decreases |cs|
  {
    if |cs| > 1 {
      var n := |cs| - 1;
      var b := Swap(cs, n, draws[0]);
      assert ChoiceIds(b) == Swap(ChoiceIds(cs), n, draws[0]);
      assert ChoiceIds(b)[..n] == ChoiceIds(b[..n]);
      ChoiceIdsOfShuffle(b[..n], draws[1..]);
      assert ChoiceIds(Shuffled(cs, draws)) == ChoiceIds(Shuffled(b[..n], draws[1..])) + [b[n].id];
    } else {
      assert ChoiceIds(Shuffled(cs, draws)) == ChoiceIds(cs);
    }
  }

  lemma OptionOrderPermutes(shuffle: bool, q: ExamQuestion, draws: seq<nat>)
    requires ValidDraws(|q.options|, draws)
    ensures multiset(OptionOrder(shuffle, q, draws)) == multiset(ChoiceIds(q.options))
  {
    ChoiceIdsOfShuffle(q.options, draws);
    ShufflePermutes(ChoiceIds(q.options), draws);
  }

  predicate OrderedAs(orders: map<Id, seq<Id>>, q: ExamQuestion)
  {
    if q.options == [] then q.questionId !in orders
    else q.questionId in orders && multiset(orders[q.questionId]) == multiset(ChoiceIds(q.options))
  }

  predicate AllOrderedAs(orders: map<Id, seq<Id>>, qs: seq<ExamQuestion>)
  {
    && (forall i :: 0 <= i < |qs| ==> OrderedAs(orders, qs[i]))
    && (forall id :: id in orders ==> id in Ids(qs))
  }

  lemma AddOptionOrder(orders: map<Id, seq<Id>>, qs: seq<ExamQuestion>, q: ExamQuestion, order: seq<Id>)
    requires AllOrderedAs(orders, qs) && Distinct(Ids(qs + [q]))
    requires multiset(order) == multiset(ChoiceIds(q.options))
    ensures AllOrderedAs(AddOrder(orders, q, order), qs + [q])
  {
    var all, orders' := qs + [q], AddOrder(orders, q, order);
    assert Ids(all) == Ids(qs) + [q.questionId];
    forall i | 0 <= i < |qs|
      ensures Ids(qs)[i] != q.questionId
    {
      assert Ids(all)[i] != Ids(all)[|qs|];
    }
    forall i | 0 <= i < |all|
      ensures OrderedAs(orders', all[i])
    {
      if i < |qs| {
        assert OrderedAs(orders, qs[i]) && Ids(all)[i] != Ids(all)[|qs|];
      }
    }
  }

  lemma {:induction false} OptionOrdersPermute(shuffle: bool, qs: seq<ExamQuestion>, draws: seq<seq<nat>>)
    requires OptionDrawsFit(qs, draws) && Distinct(Ids(qs))
    ensures AllOrderedAs(OptionOrders(shuffle, qs, draws), qs)
  {
    if qs != [] {
      var n := |qs| - 1;
      var front := qs[..n];
      assert Ids(front) == Ids(qs)[..n];
      assert qs == front + [qs[n]];
      OptionOrdersPermute(shuffle, front, draws[..n]);
      OptionOrderPermutes(shuffle, qs[n], draws[n]);
      AddOptionOrder(OptionOrders(shuffle, front, draws[..n]), front, qs[n], OptionOrder(shuffle, qs[n], draws[n]));
    }
  }

  /** The stored paper holds every question once, and every option of it once. */
  lemma PaperIsPermutation(exam: Exam, d: Draws)
    requires DrawsFit(exam, d) && WellKeyed(exam.questions)
    ensures multiset(AssemblePaper(exam, d).questionOrder) == multiset(Ids(exam.questions))
    ensures forall i :: 0 <= i < |exam.questions| ==> OrderedAs(AssemblePaper(exam, d).optionOrders, exam.questions[i])
  {
    IdsOfShuffle(exam.questions, d.questions);
    ShufflePermutes(Ids(exam.questions), d.questions);
    OptionOrdersPermute(exam.shuffleOptions, exam.questions, d.options);
  }

  lemma {:induction false} OptionOrderAt(shuffle: bool, qs: seq<ExamQuestion>, draws: seq<seq<nat>>, i: nat)
    requires OptionDrawsFit(qs, draws) && Distinct(Ids(qs)) && i < |qs| && qs[i].options != []
    ensures var orders := OptionOrders(shuffle, qs, draws);
      && qs[i].questionId in orders
      && orders[qs[i].questionId] ==
        if shuffle then Shuffled(ChoiceIds(qs[i].options), draws[i]) else ChoiceIds(qs[i].options)
  {
    var n := |qs| - 1;
    if i < n {
      assert Ids(qs)[i] != Ids(qs)[n];
      assert Ids(qs[..n]) == Ids(qs)[..n];
      OptionOrderAt(shuffle, qs[..n], draws[..n], i);
    } else {
      ChoiceIdsOfShuffle(qs[i].options, draws[i]);
    }
  }

  /** An exam that does not shuffle keeps its orders; one that does draws them, and any order may come. */
  lemma PaperFollowsFlags(exam: Exam, d: Draws, i: nat)
    requires DrawsFit(exam, d) && Distinct(Ids(exam.questions)) && i < |exam.questions|
    ensures !exam.shuffleQuestions ==> AssemblePaper(exam, d).questionOrder == Ids(exam.questions)
    ensures exam.shuffleQuestions ==>
      AssemblePaper(exam, d).questionOrder == Shuffled(Ids(exam.questions), d.questions)
    ensures var q := exam.questions[i];
      q.options != [] ==>
        && q.questionId in AssemblePaper(exam, d).optionOrders
        && AssemblePaper(exam, d).optionOrders[q.questionId] ==
          if exam.shuffleOptions then Shuffled(ChoiceIds(q.options), d.options[i]) else ChoiceIds(q.options)
  {
    IdsOfShuffle(exam.questions, d.questions);
    if exam.questions[i].options != [] {
      OptionOrderAt(exam.shuffleOptions, exam.questions, d.options, i);
    }
  }

  /******* Rendering *******/

  function FindQuestion(qs: seq<ExamQuestion>, id: Id): (q: Option<ExamQuestion>)
    ensures q.Some? ==> q.value in qs && q.value.questionId == id
    ensures q.None? ==> id !in Ids(qs)
  {
    if qs == [] then None
    else if qs[0].questionId == id then Some(qs[0])
    else
      assert Ids(qs) == [qs[0].questionId] + Ids(qs[1..]);
      FindQuestion(qs[1..], id)
  }

  function FindChoice(cs: seq<Choice>, id: Id): (c: Option<Choice>)
  {
    if cs == [] then None else if cs[0].id == id then Some(cs[0]) else FindChoice(cs[1..], id)
  }

  function ShowChoices(cs: seq<Choice>): (shown: seq<ShownChoice>)
  {
    seq(|cs|, i requires 0 <= i < |cs| => ShownChoice(cs[i].id, cs[i].text))
  }

  /** Options in the saved order; an id that is no longer there is dropped. */
  function InOrder(cs: seq<Choice>, order: seq<Id>): (picked: seq<Choice>)
  {
    if order == [] then []
    else
      var rest := InOrder(cs, order[1..]);
      match FindChoice(cs, order[0])
      case Some(c) => [c] + rest
      case None => rest
  }

  function ShowQuestion(q: ExamQuestion, orders: map<Id, seq<Id>>): (shown: ShownQuestion)
  {
    var options := if q.questionId in orders then InOrder(q.options, orders[q.questionId]) else q.options;
    ShownQuestion(q.questionId, q.score, q.kind, q.text, ShowChoices(options))
  }

  lemma {:induction false} InOrderIs(cs: seq<Choice>, order: seq<Id>)
    requires forall i :: 0 <= i < |order| ==> FindChoice(cs, order[i]).Some?
    ensures |InOrder(cs, order)| == |order|
    ensures forall i :: 0 <= i < |order| ==> Some(InOrder(cs, order)[i]) == FindChoice(cs, order[i])
  {
    if order != [] {
      assert forall i :: 0 <= i < |order| - 1 ==> order[1..][i] == order[i + 1];
      InOrderIs(cs, order[1..]);
    }
  }

  lemma {:induction false} FindChoiceIs(cs: seq<Choice>, id: Id)
    ensures FindChoice(cs, id).Some? <==> id in ChoiceIds(cs)
    ensures FindChoice(cs, id).Some? ==> FindChoice(cs, id).value in cs && FindChoice(cs, id).value.id == id
  {
    if cs != [] {
      FindChoiceIs(cs[1..], id);
      assert ChoiceIds(cs) == [cs[0].id] + ChoiceIds(cs[1..]);
    }
  }

  /** A question is shown with its own score, kind and text and with its options in the stored order. */
  lemma ShowQuestionIs(q: ExamQuestion, orders: map<Id, seq<Id>>)
    requires q.questionId in orders ==> multiset(orders[q.questionId]) == multiset(ChoiceIds(q.options))
    ensures var shown := ShowQuestion(q, orders);
      var order := if q.questionId in orders then orders[q.questionId] else ChoiceIds(q.options);
      && shown.questionId == q.questionId && shown.score == q.score && shown.kind == q.kind && shown.text == q.text
      && |shown.options| == |order|
      && forall i :: 0 <= i < |order| ==>
        shown.options[i].id == order[i] &&
        exists c :: c in q.options && c.id == order[i] && c.text == shown.options[i].text
  {
    if q.questionId in orders {
      var order := orders[q.questionId];
      forall i | 0 <= i < |order|
        ensures FindChoice(q.options, order[i]).Some? && FindChoice(q.options, order[i]).value in q.options
        ensures FindChoice(q.options, order[i]).value.id == order[i]
      {
        assert order[i] in multiset(order);
        FindChoiceIs(q.options, order[i]);
      }
      InOrderIs(q.options, order);
    } else {
      assert forall i :: 0 <= i < |q.options| ==> q.options[i] in q.options;
    }
  }

  function Render(qs: seq<ExamQuestion>, order: seq<Id>, orders: map<Id, seq<Id>>): (shown: seq<ShownQuestion>)
  {
    if order == [] then []
    else
      var rest := Render(qs, order[1..], orders);
      match FindQuestion(qs, order[0])
      case Some(q) => [ShowQuestion(q, orders)] + rest
      case None => rest
  }

  /** The rendering loop. */
  method RenderPaper(qs: seq<ExamQuestion>, paper: Paper) returns (shown: seq<ShownQuestion>)
    ensures shown == Render(qs, paper.questionOrder, paper.optionOrders)
  {
    shown := [];
    var order, orders := paper.questionOrder, paper.optionOrders;
    assert order[0..] == order;
    for i := 0 to |order|
      invariant shown + Render(qs, order[i..], orders) == Render(qs, order, orders)
    {
      ghost var rest := Render(qs, order[i + 1..], orders);
      assert order[i..][1..] == order[i + 1..];
      var examQ := FindQuestion(qs, order[i]);
      if examQ.Some? {
        assert shown + ([ShowQuestion(examQ.value, orders)] + rest) ==
          shown + [ShowQuestion(examQ.value, orders)] + rest;
        shown := shown + [ShowQuestion(examQ.value, orders)];
      }
    }
  }

  /** Every question of `qs` is still there, unchanged, in whatever order it is read. */
  predicate Extends(qs: seq<ExamQuestion>, more: seq<ExamQuestion>)
  {
    forall i :: 0 <= i < |qs| ==> qs[i] in more
  }

  lemma FindInExtension(qs: seq<ExamQuestion>, more: seq<ExamQuestion>, id: Id)
    requires Distinct(Ids(qs)) && Distinct(Ids(more)) && Extends(qs, more) && id in Ids(qs)
    ensures FindQuestion(more, id) == FindQuestion(qs, id)
    ensures FindQuestion(qs, id).Some?
  {
  }

  /** Both banks find the same question under every id of the order. */
  predicate FindAlike(qs: seq<ExamQuestion>, more: seq<ExamQuestion>, order: seq<Id>)
  {
    forall i :: 0 <= i < |order| ==>
      FindQuestion(qs, order[i]).Some? && FindQuestion(more, order[i]) == FindQuestion(qs, order[i])
  }

  lemma FindAlikeTail(qs: seq<ExamQuestion>, more: seq<ExamQuestion>, order: seq<Id>)
    requires FindAlike(qs, more, order) && order != []
    ensures FindAlike(qs, more, order[1..])
    ensures FindQuestion(qs, order[0]).Some? && FindQuestion(more, order[0]) == FindQuestion(qs, order[0])
  {
    assert forall i :: 0 <= i < |order| - 1 ==> order[1..][i] == order[i + 1];
  }

  lemma {:induction false} RenderAlike(qs: seq<ExamQuestion>, more: seq<ExamQuestion>, order: seq<Id>,
      orders: map<Id, seq<Id>>)
    requires FindAlike(qs, more, order)
    ensures Render(more, order, orders) == Render(qs, order, orders)
  {
    if order != [] {
      FindAlikeTail(qs, more, order);
      RenderAlike(qs, more, order[1..], orders);
    }
  }

  lemma {:induction false} RenderFollowsOrder(qs: seq<ExamQuestion>, order: seq<Id>, orders: map<Id, seq<Id>>)
    requires FindAlike(qs, qs, order)
    ensures |Render(qs, order, orders)| == |order|
    ensures forall i :: 0 <= i < |order| ==> Render(qs, order, orders)[i].questionId == order[i]
    ensures forall i :: 0 <= i < |order| ==>
      Render(qs, order, orders)[i] == ShowQuestion(FindQuestion(qs, order[i]).value, orders)
  {
    if order != [] {
      FindAlikeTail(qs, qs, order);
      RenderFollowsOrder(qs, order[1..], orders);
    }
  }

  /** A paper over the questions of `qs` reads the same after questions are added. */
  lemma RenderStable(qs: seq<ExamQuestion>, more: seq<ExamQuestion>, order: seq<Id>, orders: map<Id, seq<Id>>)
    requires Distinct(Ids(qs)) && Distinct(Ids(more)) && Extends(qs, more)
    requires forall i :: 0 <= i < |order| ==> order[i] in Ids(qs)
    ensures Render(more, order, orders) == Render(qs, order, orders)
    ensures |Render(qs, order, orders)| == |order|
    ensures forall i :: 0 <= i < |order| ==> Render(qs, order, orders)[i].questionId == order[i]
  {
    forall i | 0 <= i < |order|
      ensures FindQuestion(qs, order[i]).Some? && FindQuestion(more, order[i]) == FindQuestion(qs, order[i])
    {
      FindInExtension(qs, more, order[i]);
    }
    RenderAlike(qs, more, order, orders);
    RenderFollowsOrder(qs, order, orders);
  }

  /** Both facts for a paper as it was assembled. */
  lemma AssembledPaperIsStable(exam: Exam, d: Draws, more: seq<ExamQuestion>)
    requires DrawsFit(exam, d) && WellKeyed(exam.questions) && WellKeyed(more) && Extends(exam.questions, more)
    ensures var paper := AssemblePaper(exam, d);
      && Render(more, paper.questionOrder, paper.optionOrders) ==
        Render(exam.questions, paper.questionOrder, paper.optionOrders)
      && |Render(more, paper.questionOrder, paper.optionOrders)| == |exam.questions|
  {
    var paper := AssemblePaper(exam, d);
    PaperIsPermutation(exam, d);
    SameLength(Ids(exam.questions), paper.questionOrder);
    forall i | 0 <= i < |paper.questionOrder|
      ensures paper.questionOrder[i] in Ids(exam.questions)
    {
      SameElements(Ids(exam.questions), paper.questionOrder, paper.questionOrder[i]);
    }
    RenderStable(exam.questions, more, paper.questionOrder, paper.optionOrders);
  }

  /******* Deleted questions *******/

  function Removed(qs: seq<ExamQuestion>, id: Id): (rest: seq<ExamQuestion>)
  {
    if qs == [] then []
    else if qs[0].questionId == id then Removed(qs[1..], id)
    else [qs[0]] + Removed(qs[1..], id)
  }

  lemma IdsOfCons(q: ExamQuestion, rest: seq<ExamQuestion>)
    ensures Ids([q] + rest) == [q.questionId] + Ids(rest)
  {
  }

  lemma DistinctOfCons(x: Id, rest: seq<Id>)
    ensures Distinct([x] + rest) <==> x !in rest && Distinct(rest)
  {
    var s := [x] + rest;
    assert forall i :: 0 <= i < |rest| ==> s[i + 1] == rest[i];
    if Distinct(s) {
      forall i | 0 <= i < |rest|
        ensures rest[i] != x
      {
        assert s[0] != s[i + 1];
      }
    }
  }

  lemma {:induction false} RemovedMembers(qs: seq<ExamQuestion>, id: Id)
    ensures forall q :: q in Removed(qs, id) <==> q in qs && q.questionId != id
  {
    if qs != [] {
      RemovedMembers(qs[1..], id);
      assert qs == [qs[0]] + qs[1..];
    }
  }

  lemma {:induction false} RemovedIds(qs: seq<ExamQuestion>, id: Id, x: Id)
    ensures x in Ids(Removed(qs, id)) <==> x in Ids(qs) && x != id
  {
    if qs != [] {
      RemovedIds(qs[1..], id, x);
      assert qs == [qs[0]] + qs[1..];
      IdsOfCons(qs[0], qs[1..]);
      IdsOfCons(qs[0], Removed(qs[1..], id));
    }
  }

  lemma {:induction false} RemovedDistinct(qs: seq<ExamQuestion>, id: Id)
    requires Distinct(Ids(qs))
    ensures Distinct(Ids(Removed(qs, id)))
  {
    if qs != [] {
      assert qs == [qs[0]] + qs[1..];
      IdsOfCons(qs[0], qs[1..]);
      DistinctOfCons(qs[0].questionId, Ids(qs[1..]));
      RemovedDistinct(qs[1..], id);
      RemovedIds(qs[1..], id, qs[0].questionId);
      IdsOfCons(qs[0], Removed(qs[1..], id));
      DistinctOfCons(qs[0].questionId, Ids(Removed(qs[1..], id)));
    }
  }

  lemma {:induction false} FindInRemoved(qs: seq<ExamQuestion>, id: Id, x: Id)
    ensures FindQuestion(Removed(qs, id), x) == if x == id then None else FindQuestion(qs, x)
  {
    if qs != [] {
      FindInRemoved(qs[1..], id, x);
      if qs[0].questionId != id {
        assert Removed(qs, id)[1..] == Removed(qs[1..], id);
      }
    }
  }

  /** Each question of the order is as it was, or gone. */
  predicate FindAlikeOrGone(qs: seq<ExamQuestion>, now: seq<ExamQuestion>, order: seq<Id>)
  {
    forall i :: 0 <= i < |order| ==>
      && FindQuestion(qs, order[i]).Some?
      && (FindQuestion(now, order[i]).Some? ==> FindQuestion(now, order[i]) == FindQuestion(qs, order[i]))
  }

  lemma FindAlikeOrGoneTail(qs: seq<ExamQuestion>, now: seq<ExamQuestion>, order: seq<Id>)
    requires FindAlikeOrGone(qs, now, order) && order != []
    ensures FindAlikeOrGone(qs, now, order[1..])
    ensures FindQuestion(qs, order[0]).Some?
    ensures FindQuestion(now, order[0]).Some? ==> FindQuestion(now, order[0]) == FindQuestion(qs, order[0])
  {
    assert forall i :: 0 <= i < |order| - 1 ==> order[1..][i] == order[i + 1];
  }

  lemma NoneGoneByFirst(now: seq<ExamQuestion>, order: seq<Id>)
    requires order != []
    ensures (forall id :: id in order ==> FindQuestion(now, id).Some?) <==>
      FindQuestion(now, order[0]).Some? && forall id :: id in order[1..] ==> FindQuestion(now, id).Some?
  {
    assert order == [order[0]] + order[1..];
  }

  /** A stored paper reads as before if and only if none of its questions is gone; if one is, it reads shorter. */
  lemma {:induction false} RenderSameIff(qs: seq<ExamQuestion>, now: seq<ExamQuestion>, order: seq<Id>,
      orders: map<Id, seq<Id>>)
    requires FindAlikeOrGone(qs, now, order)
    ensures |Render(now, order, orders)| <= |Render(qs, order, orders)| == |order|
    ensures (forall id :: id in order ==> FindQuestion(now, id).Some?) ==>
      Render(now, order, orders) == Render(qs, order, orders)
    ensures |Render(now, order, orders)| == |order| ==> forall id :: id in order ==> FindQuestion(now, id).Some?
  {
    if order != [] {
      FindAlikeOrGoneTail(qs, now, order);
      RenderSameIff(qs, now, order[1..], orders);
      NoneGoneByFirst(now, order);
    }
  }

  lemma {:induction false} FindInLonger(qs: seq<ExamQuestion>, more: seq<ExamQuestion>, id: Id)
    ensures FindQuestion(qs + more, id) ==
      if FindQuestion(qs, id).Some? then FindQuestion(qs, id) else FindQuestion(more, id)
  {
    if qs == [] {
      assert qs + more == more;
    } else {
      assert (qs + more)[1..] == qs[1..] + more;
      FindInLonger(qs[1..], more, id);
    }
  }
}

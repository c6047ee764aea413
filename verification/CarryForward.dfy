/**
  The attendance sheet of one classroom: marks recorded per student, date and
  period, and the view in which a student without a mark of the period inherits
  an absence from the nearest earlier period of the day.
 */
module CarryForward {
  import opened Optional
  import opened Sequences

  type Id = string

  /** A date as it was written; the view looks for both spellings of a day. */
  type Spelling = string

  datatype Status = Present | Absent | Tardy | ExcusedAbsent | Expelled

  datatype Mark = Mark(status: Status, delayMinutes: nat)

  /** The unique index of the table, for one classroom. */
  datatype Key = Key(student: Id, date: Spelling, period: int)

  type Store = map<Key, Mark>

  // ------------------------------------------------------------------ recording

  datatype Item = Item(student: Id, mark: Mark)

  datatype Answer = EmptyList | DuplicateRow | Saved(count: nat)

  /** Two items create the same row: the unique index fails the transaction. */
  predicate CreatesTwice(store: Store, date: Spelling, period: int, items: seq<Item>)
  {
    exists i, j :: 0 <= i < j < |items| && items[i].student == items[j].student &&
      Key(items[i].student, date, period) !in store
  }

  function Written(store: Store, date: Spelling, period: int, items: seq<Item>): (store': Store)
  {
    if items == [] then store
    else
      var last := items[|items| - 1];
      Written(store, date, period, items[..|items| - 1])[Key(last.student, date, period) := last.mark]
  }

  function Record(store: Store, date: Spelling, period: int, items: seq<Item>): (r: (Store, Answer))
  {
    if items == [] then (store, EmptyList)
    else if CreatesTwice(store, date, period, items) then (store, DuplicateRow)
    else (Written(store, date, period, items), Saved(|items|))
  }

  /**
    An empty list is refused, and so is one that names a student twice who has no mark of
    the period yet; else every student named has the last mark given.
   */
  lemma RecordDoes(store: Store, date: Spelling, period: int, items: seq<Item>)
    ensures var (store', answer) := Record(store, date, period, items);
      && (answer == EmptyList <==> items == [])
      && (answer == DuplicateRow <==>
        exists i, j :: 0 <= i < j < |items| && items[i].student == items[j].student &&
          Key(items[i].student, date, period) !in store)
      && (answer == EmptyList || answer == DuplicateRow || answer == Saved(|items|))
      && (store' == if answer.Saved? then Written(store, date, period, items) else store)
  {
  }

  /** Index of the last item for a student, or -1. */
  function LastItem(items: seq<Item>, student: Id): (i: int)
    ensures -1 <= i < |items|
    ensures i >= 0 ==> items[i].student == student
    ensures forall k :: i < k < |items| ==> items[k].student != student
  {
    if items == [] then -1
    else if items[|items| - 1].student == student then |items| - 1
    else LastItem(items[..|items| - 1], student)
  }

  /** A saved list sets the named students' marks of that date and period and no other row. */
  lemma {:induction false} WrittenAt(store: Store, date: Spelling, period: int, items: seq<Item>, key: Key)
    ensures
      var store' := Written(store, date, period, items);
      var i := LastItem(items, key.student);
      if key.date == date && key.period == period && i >= 0
      then key in store' && store'[key] == items[i].mark
      else (key in store' <==> key in store) && (key in store ==> store'[key] == store[key])
  {
    if items != [] {
      WrittenAt(store, date, period, items[..|items| - 1], key);
    }
  }

  // ------------------------------------------------------------------ reading

  datatype Shown = Shown(student: Id, status: Status, delayMinutes: nat, isRecorded: bool,
      inheritedFromPeriod: Option<int>)

  /** Rows of the period under any spelling of the day, in no particular order. */
  ghost predicate IsRecorded(store: Store, day: set<Spelling>, period: int, keys: seq<Key>)
  {
    && Distinct(keys)
    && forall k :: k in keys <==> k in store && k.date in day && k.period == period
  }

  /** Rows of earlier periods, latest period first. */
  ghost predicate IsPrior(store: Store, day: set<Spelling>, period: int, keys: seq<Key>)
  {
    && Distinct(keys)
    && (forall k :: k in keys <==> k in store && k.date in day && k.period < period)
    && forall i, j :: 0 <= i < j < |keys| ==> keys[i].period >= keys[j].period
  }

  function LastOf(keys: seq<Key>, student: Id): (k: Option<Key>)
    ensures k.Some? ==> k.value in keys && k.value.student == student
    ensures k.None? ==> forall i :: 0 <= i < |keys| ==> keys[i].student != student
  {
    if keys == [] then None
    else if keys[|keys| - 1].student == student then Some(keys[|keys| - 1])
    else LastOf(keys[..|keys| - 1], student)
  }

  function FirstOf(keys: seq<Key>, student: Id): (k: Option<Key>)
    ensures k.Some? ==> k.value in keys && k.value.student == student
    ensures k.None? ==> forall i :: 0 <= i < |keys| ==> keys[i].student != student
  {
    if keys == [] then None
    else
      var front := FirstOf(keys[..|keys| - 1], student);
      if front.Some? then front
      else if keys[|keys| - 1].student == student then Some(keys[|keys| - 1]) else None
  }

  /** The last row of a student, and the first. */
  lemma {:induction false} LastAndFirstAre(keys: seq<Key>, student: Id, i: nat)
    requires i < |keys| && keys[i].student == student
    ensures (forall k :: i < k < |keys| ==> keys[k].student != student) ==> LastOf(keys, student) == Some(keys[i])
    ensures (forall k :: 0 <= k < i ==> keys[k].student != student) ==> FirstOf(keys, student) == Some(keys[i])
  {
    var n := |keys| - 1;
    if i < n {
      LastAndFirstAre(keys[..n], student, i);
    }
  }

  /** Only an absence carries over; a late or expelled student counts as present later. */
  function Carried(status: Status): (s: Status)
    ensures s == Present || (s == status && (s == Absent || s == ExcusedAbsent))
    ensures status == Absent || status == ExcusedAbsent ==> s == status
  {
    if status == Absent || status == ExcusedAbsent then status else Present
  }

  function ShownFor(store: Store, student: Id, own: Option<Key>, prior: Option<Key>): (s: Shown)
    requires own.Some? ==> own.value in store
    requires prior.Some? ==> prior.value in store
  {
    if own.Some? then Shown(student, store[own.value].status, store[own.value].delayMinutes, true, None)
    else if prior.Some? then Shown(student, Carried(store[prior.value].status), 0, false, Some(prior.value.period))
    else Shown(student, Present, 0, false, None)
  }

  predicate LooksBack(roster: seq<Id>, period: int, recorded: seq<Key>)
  {
    period > 1 && |recorded| < |roster|
  }

  predicate AllIn(store: Store, keys: seq<Key>)
  {
    forall i :: 0 <= i < |keys| ==> keys[i] in store
  }

  /** What the code shows for a student, with the row-count guard. */
  function Line(store: Store, roster: seq<Id>, period: int, recorded: seq<Key>, priors: seq<Key>,
      student: Id): (s: Shown)
    requires AllIn(store, recorded) && AllIn(store, priors)
  {
    ShownFor(store, student, LastOf(recorded, student),
      if LooksBack(roster, period, recorded) then FirstOf(priors, student) else None)
  }

  /** The same without the guard. */
  function UnguardedLine(store: Store, period: int, recorded: seq<Key>, priors: seq<Key>, student: Id): (s: Shown)
    requires AllIn(store, recorded) && AllIn(store, priors)
  {
    ShownFor(store, student, LastOf(recorded, student), if period > 1 then FirstOf(priors, student) else None)
  }

  // ------------------------------------------------------------------ meaning

  /** `q` is the nearest earlier period of the day with a mark for the student; period 1 has none before it. */
  ghost predicate NearestEarlier(store: Store, student: Id, date: Spelling, period: int, q: int)
  {
    && 1 < period && q < period && Key(student, date, q) in store
    && forall k :: k in store && k.student == student && k.date == date && k.period < period ==> k.period <= q
  }

  /** Own mark, else the nearest earlier period's absence, else present. */
  ghost predicate MeansRight(store: Store, date: Spelling, period: int, s: Shown)
  {
    var own := Key(s.student, date, period);
    if own in store then s == Shown(s.student, store[own].status, store[own].delayMinutes, true, None)
    else if s.inheritedFromPeriod.Some? then
      var q := s.inheritedFromPeriod.value;
      NearestEarlier(store, s.student, date, period, q) &&
      var earlier := store[Key(s.student, date, q)].status;
      var shown := if earlier == Absent || earlier == ExcusedAbsent then earlier else Present;
      s == Shown(s.student, shown, 0, false, Some(q))
    else
      (forall q :: !NearestEarlier(store, s.student, date, period, q)) && s == Shown(s.student, Present, 0, false, None)
  }

  /** Marks of the day are all under one spelling and for students on the roster. */
  ghost predicate Tidy(store: Store, day: set<Spelling>, date: Spelling, roster: seq<Id>)
  {
    forall k :: k in store && k.date in day ==> k.date == date && k.student in roster
  }

  lemma {:induction false} FirstOfIsLatest(keys: seq<Key>, student: Id, k: Key)
    requires forall i, j :: 0 <= i < j < |keys| ==> keys[i].period >= keys[j].period
    requires k in keys && k.student == student
    ensures FirstOf(keys, student).Some? && k.period <= FirstOf(keys, student).value.period
  {
    var last := |keys| - 1;
    var front := keys[..last];
    if FirstOf(front, student).Some? {
      if k in front {
        FirstOfIsLatest(front, student, k);
      } else {
        var i :| 0 <= i < last && front[i] == FirstOf(front, student).value;
        assert keys[i].period >= keys[last].period;
      }
    } else {
      assert k == keys[last];
    }
  }

  lemma OwnMarkFound(store: Store, day: set<Spelling>, date: Spelling, roster: seq<Id>, period: int,
      recorded: seq<Key>, student: Id)
    requires Tidy(store, day, date, roster) && date in day
    requires IsRecorded(store, day, period, recorded)
    ensures LastOf(recorded, student) ==
      if Key(student, date, period) in store then Some(Key(student, date, period)) else None
  {
  }

  lemma PriorMarkFound(store: Store, day: set<Spelling>, date: Spelling, roster: seq<Id>, period: int,
      priors: seq<Key>, student: Id, q: int)
    requires Tidy(store, day, date, roster) && date in day && 1 < period
    requires IsPrior(store, day, period, priors)
    ensures NearestEarlier(store, student, date, period, q) <==> FirstOf(priors, student) == Some(Key(student, date, q))
  {
    var first := FirstOf(priors, student);
    forall k | k in store && k.student == student && k.date == date && k.period < period
      ensures first.Some? && k.period <= first.value.period
    {
      assert k in priors;
      FirstOfIsLatest(priors, student, k);
    }
    if first.Some? {
      assert first.value in store && first.value == Key(student, date, first.value.period);
    }
  }

  /** Without the guard the code shows what it should. */
  lemma UnguardedMeansRight(store: Store, day: set<Spelling>, date: Spelling, roster: seq<Id>, period: int,
      recorded: seq<Key>, priors: seq<Key>, student: Id)
    requires Tidy(store, day, date, roster) && date in day
    requires IsRecorded(store, day, period, recorded) && IsPrior(store, day, period, priors)
    requires AllIn(store, recorded) && AllIn(store, priors)
    ensures MeansRight(store, date, period, UnguardedLine(store, period, recorded, priors, student))
  {
    OwnMarkFound(store, day, date, roster, period, recorded, student);
    if period > 1 {
      forall q
        ensures NearestEarlier(store, student, date, period, q) <==>
          FirstOf(priors, student) == Some(Key(student, date, q))
      {
        PriorMarkFound(store, day, date, roster, period, priors, student, q);
      }
    }
  }

  // ------------------------------------------------------------------ the guard

  function Elements<T>(s: seq<T>): (e: set<T>)
  {
    set x | x in s
  }

  lemma {:induction false} DistinctCount<T>(s: seq<T>)
    requires Distinct(s)
    ensures |Elements(s)| == |s|
  {
    if s != [] {
      var last := |s| - 1;
      DistinctCount(s[..last]);
      assert Elements(s) == Elements(s[..last]) + {s[last]};
    }
  }

  lemma SubsetOfEqualSize<T>(a: set<T>, b: set<T>)
    requires a <= b && |a| >= |b|
    ensures a == b
  {
    assert b == a + (b - a);
    assert |b| == |a| + |b - a|;
  }

  function StudentsOf(keys: seq<Key>): (s: seq<Id>)
  {
    seq(|keys|, i requires 0 <= i < |keys| => keys[i].student)
  }

  predicate Marked(keys: seq<Key>, student: Id)
  {
    student in StudentsOf(keys)
  }

  /** The pigeonhole: as many rows as students, each row for a student of its own, leave no student without one. */
  lemma EnoughRowsCoverRoster(roster: seq<Id>, recorded: seq<Key>, student: Id)
    requires Distinct(roster) && Distinct(StudentsOf(recorded))
    requires forall i :: 0 <= i < |recorded| ==> recorded[i].student in roster
    requires |recorded| >= |roster| && student in roster
    ensures Marked(recorded, student)
  {
    var named := StudentsOf(recorded);
    DistinctCount(roster);
    DistinctCount(named);
    assert Elements(named) <= Elements(roster);
    SubsetOfEqualSize(Elements(named), Elements(roster));
    assert student in Elements(named);
  }

  predicate NeedsPrior(recorded: seq<Key>, priors: seq<Key>, student: Id)
  {
    LastOf(recorded, student).None? && FirstOf(priors, student).Some?
  }

  /**
    For any rows at all: the guard changes a line exactly when it skips the lookup for a
    student who has an earlier mark and none of the period.
   */
  lemma GuardChangesLineIff(store: Store, roster: seq<Id>, period: int, recorded: seq<Key>, priors: seq<Key>,
      student: Id)
    requires AllIn(store, recorded) && AllIn(store, priors)
    ensures
      var guarded := Line(store, roster, period, recorded, priors, student);
      guarded != UnguardedLine(store, period, recorded, priors, student) <==>
      period > 1 && |recorded| >= |roster| && NeedsPrior(recorded, priors, student)
  {
  }

  lemma TidyRowsAreDistinct(store: Store, day: set<Spelling>, date: Spelling, roster: seq<Id>, period: int,
      recorded: seq<Key>)
    requires Tidy(store, day, date, roster) && IsRecorded(store, day, period, recorded)
    ensures Distinct(StudentsOf(recorded))
    ensures forall i :: 0 <= i < |recorded| ==> recorded[i].student in roster
  {
  }

  /** The guard never changes the view when the marks of the day are tidy. */
  lemma GuardIsHarmless(store: Store, day: set<Spelling>, date: Spelling, roster: seq<Id>, period: int,
      recorded: seq<Key>, priors: seq<Key>, student: Id)
    requires Tidy(store, day, date, roster) && Distinct(roster) && student in roster
    requires IsRecorded(store, day, period, recorded)
    requires AllIn(store, recorded) && AllIn(store, priors)
    ensures Line(store, roster, period, recorded, priors, student) ==
      UnguardedLine(store, period, recorded, priors, student)
  {
    GuardChangesLineIff(store, roster, period, recorded, priors, student);
    if |recorded| >= |roster| {
      TidyRowsAreDistinct(store, day, date, roster, period, recorded);
      EnoughRowsCoverRoster(roster, recorded, student);
    }
  }

  /** A mark left by a student who is no longer enrolled hides an absence of one who is. */
  lemma DepartedStudentHidesAbsence(present: Mark)
    requires present == Mark(Present, 0)
    ensures
      var store: Store := map[Key("b", "d", 2) := present, Key("a", "d", 1) := Mark(Absent, 0)];
      var recorded := [Key("b", "d", 2)];
      var priors := [Key("a", "d", 1)];
      IsRecorded(store, {"d"}, 2, recorded) && IsPrior(store, {"d"}, 2, priors) &&
      Line(store, ["a"], 2, recorded, priors, "a").status == Present &&
      UnguardedLine(store, 2, recorded, priors, "a").status == Absent
  {
  }

  // ------------------------------------------------------------------ the summary

  function Count(lines: seq<Shown>, status: Status): (n: nat)
  {
    if lines == [] then 0
    else Count(lines[..|lines| - 1], status) + if lines[|lines| - 1].status == status then 1 else 0
  }

  datatype Summary = Summary(
    total: nat, present: nat, absent: nat, tardy: nat, excused: nat, expelled: nat, isFullyRecorded: bool)

  function Places(lines: seq<Shown>, status: Status): (places: set<nat>)
  {
    set i: nat | i < |lines| && lines[i].status == status
  }

  lemma PlacesGrow(lines: seq<Shown>, status: Status)
    requires lines != []
    ensures var n := |lines| - 1;
      |Places(lines, status)| == |Places(lines[..n], status)| + if lines[n].status == status then 1 else 0
  {
    var n := |lines| - 1;
    var before, after := Places(lines[..n], status), Places(lines, status);
    assert after == if lines[n].status == status then before + {n} else before;
  }

  /** A count is the number of lines with the status. */
  lemma {:induction false} CountIs(lines: seq<Shown>, status: Status)
    ensures Count(lines, status) == |Places(lines, status)|
  {
    if lines != [] {
      var n := |lines| - 1;
      CountIs(lines[..n], status);
      PlacesGrow(lines, status);
    }
  }

  /** Every student is counted under exactly one status. */
  lemma {:induction false} CountsAddUp(lines: seq<Shown>)
    ensures
      Count(lines, Present) + Count(lines, Absent) + Count(lines, Tardy) + Count(lines, ExcusedAbsent)
        + Count(lines, Expelled) == |lines|
  {
    if lines != [] {
      CountsAddUp(lines[..|lines| - 1]);
    }
  }

  /** Each student falls under exactly one count. */
  predicate Summarises(s: Summary, lines: seq<Shown>)
  {
    && s.present == Count(lines, Present) && s.absent == Count(lines, Absent) && s.tardy == Count(lines, Tardy)
    && s.excused == Count(lines, ExcusedAbsent) && s.expelled == Count(lines, Expelled)
    && s.total == |lines| == s.present + s.absent + s.tardy + s.excused + s.expelled
  }

  /** Each number of the summary is that of the lines with its status. */
  lemma SummaryIs(s: Summary, lines: seq<Shown>)
    requires Summarises(s, lines)
    ensures s.total == |lines|
    ensures s.present == |Places(lines, Present)| && s.absent == |Places(lines, Absent)|
    ensures s.tardy == |Places(lines, Tardy)| && s.excused == |Places(lines, ExcusedAbsent)|
    ensures s.expelled == |Places(lines, Expelled)|
    ensures s.present + s.absent + s.tardy + s.excused + s.expelled == |lines|
  {
    CountIs(lines, Present);
    CountIs(lines, Absent);
    CountIs(lines, Tardy);
    CountIs(lines, ExcusedAbsent);
    CountIs(lines, Expelled);
    CountsAddUp(lines);
  }

  method CountOf(lines: seq<Shown>, status: Status) returns (n: nat)
    ensures n == Count(lines, status)
  {
    n := 0;
    for i := 0 to |lines|
      invariant n == Count(lines[..i], status)
    {
      assert lines[..i + 1][..i] == lines[..i];
      if lines[i].status == status {
        n := n + 1;
      }
    }
    assert lines[..|lines|] == lines;
  }

  method Summarise(lines: seq<Shown>, recordedCount: nat) returns (s: Summary)
    ensures Summarises(s, lines) && s.isFullyRecorded == (recordedCount > 0 && recordedCount >= |lines|)
  {
    var present := CountOf(lines, Present);
    var absent := CountOf(lines, Absent);
    var tardy := CountOf(lines, Tardy);
    var excused := CountOf(lines, ExcusedAbsent);
    var expelled := CountOf(lines, Expelled);
    CountsAddUp(lines);
    s := Summary(|lines|, present, absent, tardy, excused, expelled, recordedCount > 0 && recordedCount >= |lines|);
  }

  lemma MarkedRosterIsCovered(store: Store, day: set<Spelling>, date: Spelling, roster: seq<Id>, period: int,
      recorded: seq<Key>)
    requires Tidy(store, day, date, roster) && date in day && Distinct(roster)
    requires IsRecorded(store, day, period, recorded)
    requires forall s :: s in roster ==> Key(s, date, period) in store
    ensures |recorded| == |roster|
  {
    TidyRowsAreDistinct(store, day, date, roster, period, recorded);
    var named := StudentsOf(recorded);
    DistinctCount(roster);
    DistinctCount(named);
    forall s | s in roster
      ensures s in named
    {
      assert Key(s, date, period) in recorded;
      var i :| 0 <= i < |recorded| && recorded[i] == Key(s, date, period);
      assert named[i] == s;
    }
    assert Elements(roster) == Elements(named);
  }

  /**
    For tidy marks the summary's flag says what it seems to: everyone on a non-empty roster
    has a mark of the period.
   */
  lemma FullyRecordedIffAllMarked(store: Store, day: set<Spelling>, date: Spelling, roster: seq<Id>,
      period: int, recorded: seq<Key>)
    requires Tidy(store, day, date, roster) && date in day && Distinct(roster)
    requires IsRecorded(store, day, period, recorded)
    ensures |recorded| > 0 && |recorded| >= |roster| <==>
      roster != [] && forall s :: s in roster ==> Key(s, date, period) in store
  {
    TidyRowsAreDistinct(store, day, date, roster, period, recorded);
    if |recorded| >= |roster| {
      forall s | s in roster
        ensures Key(s, date, period) in store
      {
        EnoughRowsCoverRoster(roster, recorded, s);
        OwnMarkFound(store, day, date, roster, period, recorded, s);
      }
      assert |recorded| > 0 ==> recorded[0].student in roster;
    }
    if forall s :: s in roster ==> Key(s, date, period) in store {
      MarkedRosterIsCovered(store, day, date, roster, period, recorded);
    }
  }

  // ------------------------------------------------------------------ runs

  datatype Call = Call(date: Spelling, period: int, items: seq<Item>)

  function Run(store: Store, calls: seq<Call>): (store': Store)
    decreases |calls|
  {
    if calls == [] then store
    else
      var last := calls[|calls| - 1];
      Record(Run(store, calls[..|calls| - 1]), last.date, last.period, last.items).0
  }

  /** The day is written one way, and only students on the roster are marked on it. */
  predicate TidyCall(call: Call, day: set<Spelling>, date: Spelling, roster: seq<Id>)
  {
    call.date in day ==> call.date == date && forall i :: 0 <= i < |call.items| ==> call.items[i].student in roster
  }

  lemma {:induction false} RunStaysTidy(calls: seq<Call>, day: set<Spelling>, date: Spelling, roster: seq<Id>)
    requires forall i :: 0 <= i < |calls| ==> TidyCall(calls[i], day, date, roster)
    ensures Tidy(Run(map[], calls), day, date, roster)
    decreases |calls|
  {
    if calls != [] {
      var n := |calls| - 1;
      RunStaysTidy(calls[..n], day, date, roster);
      var before := Run(map[], calls[..n]);
      var call := calls[n];
      assert TidyCall(call, day, date, roster);
      forall k | k in Run(map[], calls) && k.date in day
        ensures k.date == date && k.student in roster
      {
        WrittenAt(before, call.date, call.period, call.items, k);
      }
    }
  }

  /** A map built row by row keeps the last row of each student. */
  method LatestByStudent(keys: seq<Key>) returns (m: map<Id, Key>)
    ensures forall s :: s in m <==> LastOf(keys, s).Some?
    ensures forall s :: s in m ==> Some(m[s]) == LastOf(keys, s)
  {
    m := map[];
    for i := 0 to |keys|
      invariant forall s :: s in m <==> LastOf(keys[..i], s).Some?
      invariant forall s :: s in m ==> Some(m[s]) == LastOf(keys[..i], s)
    {
      assert keys[..i + 1][..i] == keys[..i];
      m := m[keys[i].student := keys[i]];
    }
    assert keys[..|keys|] == keys;
  }

  /** Adding a row only for a student not yet in the map keeps the first row of each. */
  method EarliestByStudent(keys: seq<Key>) returns (m: map<Id, Key>)
    ensures forall s :: s in m <==> FirstOf(keys, s).Some?
    ensures forall s :: s in m ==> Some(m[s]) == FirstOf(keys, s)
  {
    m := map[];
    for i := 0 to |keys|
      invariant forall s :: s in m <==> FirstOf(keys[..i], s).Some?
      invariant forall s :: s in m ==> Some(m[s]) == FirstOf(keys[..i], s)
    {
      assert keys[..i + 1][..i] == keys[..i];
      if keys[i].student !in m {
        m := m[keys[i].student := keys[i]];
      }
    }
    assert keys[..|keys|] == keys;
  }

  class AttendanceService {
    var store: Store

    constructor ()
      ensures store == map[]
    {
      store := map[];
    }

    method RecordStudentAttendanceBulk(date: Spelling, periodNumber: Option<int>, items: seq<Item>)
      returns (answer: Answer)
      modifies this
      ensures (store, answer) == Record(old(store), date, if periodNumber.Some? then periodNumber.value else 1, items)
    {
      if |items| == 0 {
        return EmptyList;
      }
      var period := if periodNumber.Some? then periodNumber.value else 1;
      if CreatesTwice(store, date, period, items) {
        return DuplicateRow;
      }
      var before := store;
      for i := 0 to |items|
        invariant store == Written(before, date, period, items[..i])
      {
        assert items[..i + 1][..i] == items[..i];
        store := store[Key(items[i].student, date, period) := items[i].mark];
      }
      assert items[..|items|] == items;
      answer := Saved(|items|);
    }

    method GetClassroomAttendance(roster: seq<Id>, periodNumber: Option<int>, ghost day: set<Spelling>,
        recorded: seq<Key>, priors: seq<Key>)
      returns (students: seq<Shown>, summary: Summary)
      requires
        var period := if periodNumber.Some? then periodNumber.value else 1;
        IsRecorded(store, day, period, recorded) && IsPrior(store, day, period, priors)
      ensures AllIn(store, recorded) && AllIn(store, priors) && |students| == |roster|
      ensures
        var period := if periodNumber.Some? then periodNumber.value else 1;
        forall i :: 0 <= i < |roster| ==> students[i] == Line(store, roster, period, recorded, priors, roster[i])
      ensures Summarises(summary, students) && summary.isFullyRecorded == (|recorded| > 0 && |recorded| >= |roster|)
      ensures
        var period := if periodNumber.Some? then periodNumber.value else 1;
        forall date :: date in day && Distinct(roster) && Tidy(store, day, date, roster) ==>
          forall i :: 0 <= i < |roster| ==>
            students[i].student == roster[i] && MeansRight(store, date, period, students[i])
    {
      var period := if periodNumber.Some? then periodNumber.value else 1;
      assert AllIn(store, recorded) && AllIn(store, priors) by {
        assert forall i :: 0 <= i < |recorded| ==> recorded[i] in recorded;
        assert forall i :: 0 <= i < |priors| ==> priors[i] in priors;
      }
      var recordedMap := LatestByStudent(recorded);
      var priorMap: map<Id, Key> := map[];
      if period > 1 && |recorded| < |roster| {
        priorMap := EarliestByStudent(priors);
      }
      students := [];
      for i := 0 to |roster|
        invariant |students| == i
        invariant forall k :: 0 <= k < i ==> students[k] == Line(store, roster, period, recorded, priors, roster[k])
      {
        var line := LineOf(roster[i], recordedMap, priorMap);
        students := students + [line];
      }
      summary := Summarise(students, |recorded|);
      forall date, i | date in day && Distinct(roster) && Tidy(store, day, date, roster) && 0 <= i < |roster|
        ensures students[i].student == roster[i] && MeansRight(store, date, period, students[i])
      {
        GuardIsHarmless(store, day, date, roster, period, recorded, priors, roster[i]);
        UnguardedMeansRight(store, day, date, roster, period, recorded, priors, roster[i]);
      }
    }

    /** One line of the sheet, from the two lookup tables. */
    method LineOf(student: Id, recordedMap: map<Id, Key>, priorMap: map<Id, Key>) returns (line: Shown)
      requires forall s :: s in recordedMap ==> recordedMap[s] in store
      requires forall s :: s in priorMap ==> priorMap[s] in store
      ensures line == ShownFor(store, student,
                if student in recordedMap then Some(recordedMap[student]) else None,
                if student in priorMap then Some(priorMap[student]) else None)
    {
      if student in recordedMap {
        var rec := store[recordedMap[student]];
        return Shown(student, rec.status, rec.delayMinutes, true, None);
      }
      var fallbackStatus, inherited := Present, None;
      if student in priorMap {
        var priorStatus := store[priorMap[student]].status;
        if priorStatus == Absent || priorStatus == ExcusedAbsent {
          fallbackStatus := priorStatus;
        }
        inherited := Some(priorMap[student].period);
      }
      line := Shown(student, fallbackStatus, 0, false, inherited);
    }
  }
}

/**
  Which of two alternating weeks a Jalali date falls in, computed from the day
  of the year and the weekday on which the year begins.
 */
module WeekParity {
  datatype Week = Odd | Even

  datatype Date = Date(year: int, month: int, day: int)

  /**
    The day number on which each Jalali year begins.  Day numbers count days, and
    those divisible by 7 are Saturdays, so the remainder by 7 is the weekday from
    Saturday (0) to Friday (6).
   */
  type Calendar = int -> int

  const FRIDAY := 6

  predicate Leap(cal: Calendar, year: int)
  {
    cal(year + 1) - cal(year) == 366
  }

  predicate ProperYear(cal: Calendar, year: int)
  {
    cal(year + 1) - cal(year) == 365 || Leap(cal, year)
  }

  // ------------------------------------------------------------------ days

  /** Six months of 31 days, five of 30, and a last one of 29 or 30. */
  function MonthLength(leap: bool, month: int): (n: int)
  {
    if month <= 6 then 31 else if month <= 11 || leap then 30 else 29
  }

  predicate IsDate(leap: bool, month: int, day: int)
  {
    1 <= month <= 12 && 1 <= day <= MonthLength(leap, month)
  }

  function DayOfYear(month: int, day: int): (n: int)
  {
    (if month <= 6 then (month - 1) * 31 else 6 * 31 + (month - 7) * 30) + day
  }

  /** Month and day of the n-th day of a year. */
  function DateAt(n: int): (d: (int, int))
  {
    if n <= 186 then ((n - 1) / 31 + 1, (n - 1) % 31 + 1) else ((n - 187) / 30 + 7, (n - 187) % 30 + 1)
  }

  /** Every month and day has one day of the year, from 1 to the length of the year, and every such day one date. */
  lemma DayOfYearIsBijective(leap: bool, month: int, day: int, n: int)
    ensures IsDate(leap, month, day) ==>
      1 <= DayOfYear(month, day) <= (if leap then 366 else 365) && DateAt(DayOfYear(month, day)) == (month, day)
    ensures 1 <= n <= (if leap then 366 else 365) ==>
      IsDate(leap, DateAt(n).0, DateAt(n).1) && DayOfYear(DateAt(n).0, DateAt(n).1) == n
  {
  }

  predicate InCalendar(cal: Calendar, date: Date)
  {
    ProperYear(cal, date.year) && IsDate(Leap(cal, date.year), date.month, date.day)
  }

  function DayNumber(cal: Calendar, date: Date): (n: int)
  {
    cal(date.year) + DayOfYear(date.month, date.day) - 1
  }

  // ------------------------------------------------------------------ weeks

  function WeekNumber(cal: Calendar, date: Date): (n: int)
  {
    (DayOfYear(date.month, date.day) - 1 + cal(date.year) % 7) / 7 + 1
  }

  function ActiveWeek(cal: Calendar, date: Date): (w: Week)
  {
    if WeekNumber(cal, date) % 2 == 1 then Odd else Even
  }

  /** How many Saturdays come after day `a`, up to and including day `b`. */
  function Saturdays(a: int, b: int): (n: nat)
    decreases b - a
  {
    if b <= a then 0 else Saturdays(a, b - 1) + if b % 7 == 0 then 1 else 0
  }

  lemma {:induction false} SaturdaysInClosedForm(a: int, b: int)
    requires a <= b
    ensures Saturdays(a, b) == b / 7 - a / 7
    decreases b - a
  {
    if a < b {
      SaturdaysInClosedForm(a, b - 1);
    }
  }

  lemma WeekNumberFromDayNumber(cal: Calendar, date: Date)
    ensures WeekNumber(cal, date) == DayNumber(cal, date) / 7 - cal(date.year) / 7 + 1
  {
  }

  /** Within a year the week number counts Saturdays, so it changes on a Saturday and on no other day. */
  lemma WeekNumberCountsSaturdays(cal: Calendar, a: Date, b: Date)
    requires a.year == b.year && DayNumber(cal, a) <= DayNumber(cal, b)
    ensures WeekNumber(cal, b) - WeekNumber(cal, a) == Saturdays(DayNumber(cal, a), DayNumber(cal, b))
    ensures DayNumber(cal, b) == DayNumber(cal, a) + 7 ==> ActiveWeek(cal, a) != ActiveWeek(cal, b)
    ensures DayNumber(cal, b) == DayNumber(cal, a) + 1 ==>
      (ActiveWeek(cal, a) != ActiveWeek(cal, b) <==> DayNumber(cal, b) % 7 == 0)
  {
    SaturdaysInClosedForm(DayNumber(cal, a), DayNumber(cal, b));
    WeekNumberFromDayNumber(cal, a);
    WeekNumberFromDayNumber(cal, b);
  }

  /** A year begins in week 1, an odd one; a later day of it is in an odd week after an even number of Saturdays. */
  lemma WeeksBeginOdd(cal: Calendar, date: Date)
    requires cal(date.year) <= DayNumber(cal, date)
    ensures WeekNumber(cal, date) == 1 + Saturdays(cal(date.year), DayNumber(cal, date))
    ensures ActiveWeek(cal, date) == Odd <==> Saturdays(cal(date.year), DayNumber(cal, date)) % 2 == 0
  {
    SaturdaysInClosedForm(cal(date.year), DayNumber(cal, date));
    WeekNumberFromDayNumber(cal, date);
  }

  // ------------------------------------------------------------------ years

  /** The year ends on a Friday, or is a leap year that starts on one. */
  predicate Breaks(cal: Calendar, year: int)
  {
    (cal(year + 1) - 1) % 7 == FRIDAY || (Leap(cal, year) && cal(year) % 7 == FRIDAY)
  }

  /** How many of the years from `y` up to but not including `z` break the alternation. */
  function BreakCount(cal: Calendar, y: int, z: int): (n: nat)
    decreases z - y
  {
    if z <= y then 0 else BreakCount(cal, y, z - 1) + if Breaks(cal, z - 1) then 1 else 0
  }

  lemma YearShiftsParityIffBreaks(cal: Calendar, year: int)
    requires ProperYear(cal, year)
    ensures (cal(year + 1) / 7 - cal(year) / 7) % 2 == 1 <==> Breaks(cal, year)
  {
  }

  lemma ParitiesAdd(shift: int, count: int, lastShift: int, breaks: bool)
    requires (shift + count) % 2 == 0
    requires lastShift % 2 == 1 <==> breaks
    ensures (shift + lastShift + count + if breaks then 1 else 0) % 2 == 0
  {
  }

  lemma {:induction false} YearsShiftParity(cal: Calendar, y: int, z: int)
    requires y <= z
    requires forall k :: y <= k < z ==> ProperYear(cal, k)
    ensures (cal(z) / 7 - cal(y) / 7 + BreakCount(cal, y, z)) % 2 == 0
    decreases z - y
  {
    if y < z {
      YearsShiftParity(cal, y, z - 1);
      YearShiftsParityIffBreaks(cal, z - 1);
      ParitiesAdd(cal(z - 1) / 7 - cal(y) / 7, BreakCount(cal, y, z - 1), cal(z) / 7 - cal(z - 1) / 7,
          Breaks(cal, z - 1));
    }
  }

  lemma ParityOfWeeks(a: int, b: int, saturdays: int, shift: int, breaks: int)
    requires b - a == saturdays - shift && (shift + breaks) % 2 == 0
    ensures (a % 2 == 1 <==> b % 2 == 1) <==> (saturdays + breaks) % 2 == 0
  {
  }

  /**
    For any two dates, years apart or not: the active weeks agree exactly when the
    Saturdays between them plus the breaking years between them are even in number.
   */
  lemma AlternationOverYears(cal: Calendar, a: Date, b: Date)
    requires a.year <= b.year && DayNumber(cal, a) <= DayNumber(cal, b)
    requires forall k :: a.year <= k < b.year ==> ProperYear(cal, k)
    ensures ActiveWeek(cal, a) == ActiveWeek(cal, b) <==>
      (Saturdays(DayNumber(cal, a), DayNumber(cal, b)) + BreakCount(cal, a.year, b.year)) % 2 == 0
  {
    SaturdaysInClosedForm(DayNumber(cal, a), DayNumber(cal, b));
    WeekNumberFromDayNumber(cal, a);
    WeekNumberFromDayNumber(cal, b);
    YearsShiftParity(cal, a.year, b.year);
    ParityOfWeeks(WeekNumber(cal, a), WeekNumber(cal, b), Saturdays(DayNumber(cal, a), DayNumber(cal, b)),
                  cal(b.year) / 7 - cal(a.year) / 7, BreakCount(cal, a.year, b.year));
  }

  /** The alternation a reader expects: one change for each Saturday. */
  predicate Alternates(cal: Calendar, a: Date, b: Date)
  {
    ActiveWeek(cal, a) == ActiveWeek(cal, b) <==> Saturdays(DayNumber(cal, a), DayNumber(cal, b)) % 2 == 0
  }

  lemma DatesOfAYear(cal: Calendar, date: Date)
    requires InCalendar(cal, date)
    ensures cal(date.year) <= DayNumber(cal, date) < cal(date.year + 1)
  {
  }

  /**
    Across one new year the alternation goes on if and only if the old year neither ends on
    a Friday nor is a leap year starting on one.
   */
  lemma NowruzKeepsAlternation(cal: Calendar, a: Date, b: Date)
    requires InCalendar(cal, a) && InCalendar(cal, b) && b.year == a.year + 1
    ensures Alternates(cal, a, b) <==> !Breaks(cal, a.year)
  {
    DatesOfAYear(cal, a);
    DatesOfAYear(cal, b);
    AlternationOverYears(cal, a, b);
    assert BreakCount(cal, a.year, a.year) == 0;
    assert BreakCount(cal, a.year, b.year) == if Breaks(cal, a.year) then 1 else 0;
  }

  // ------------------------------------------------------------------ reading a date

  /** Conversion of a Gregorian year, month and day, done by a library. */
  type Conversion = (int, int, int) -> Date

  function ServerDate(toJalali: Conversion, y: int, m: int, d: int): (date: Date)
  {
    if 1300 < y < 1500 then Date(y, m, d) else toJalali(y, m, d)
  }

  function ClientDate(toJalali: Conversion, y: int, m: int, d: int): (date: Date)
  {
    if 1300 <= y <= 1500 then Date(y, m, d) else toJalali(y, m, d)
  }

  /** The server answers week 1 for a date with a part that is zero. */
  function ServerActiveWeek(cal: Calendar, toJalali: Conversion, y: int, m: int, d: int): (w: Week)
  {
    var date := ServerDate(toJalali, y, m, d);
    if date.year == 0 || date.month == 0 || date.day == 0 then Odd else ActiveWeek(cal, date)
  }

  function ClientActiveWeek(cal: Calendar, toJalali: Conversion, y: int, m: int, d: int): (w: Week)
  {
    ActiveWeek(cal, ClientDate(toJalali, y, m, d))
  }

  /** The server takes the years 1301 to 1499 for Jalali ones and has all others converted. */
  lemma ServerReads(toJalali: Conversion, y: int, m: int, d: int)
    ensures ServerDate(toJalali, y, m, d) == if 1301 <= y <= 1499 then Date(y, m, d) else toJalali(y, m, d)
  {
  }

  /**
    Server and client read the same date from the same numbers, but for the years 1300 and
    1500, and then show the same week.
   */
  lemma ClientAgreesWithServer(cal: Calendar, toJalali: Conversion, y: int, m: int, d: int)
    ensures ServerDate(toJalali, y, m, d) == ClientDate(toJalali, y, m, d) <==>
      (y != 1300 && y != 1500) || toJalali(y, m, d) == Date(y, m, d)
    ensures
      var date := ClientDate(toJalali, y, m, d);
      y != 1300 && y != 1500 && InCalendar(cal, date) && date.year != 0 ==>
        ServerActiveWeek(cal, toJalali, y, m, d) == ClientActiveWeek(cal, toJalali, y, m, d)
  {
  }
}

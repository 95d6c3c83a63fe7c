/** The proleptic Gregorian calendar as day ordinals: day 1 is Monday,
    1 January of year 1 (section 3.2.1 of ISO 8601:2004). */
module Calendar {

  const MAX_YEAR := 9999

  datatype Date = Date(year: int, month: int, day: int)

  predicate IsLeap(year: int) {
    year % 4 == 0 && (year % 100 != 0 || year % 400 == 0)
  }

  function DaysInMonth(year: int, month: int): (n: int)
    requires 1 <= month <= 12
    ensures 28 <= n <= 31
  {
    if month == 2 then (if IsLeap(year) then 29 else 28)
    else if month == 4 || month == 6 || month == 9 || month == 11 then 30
    else 31
  }

  predicate ValidDate(d: Date) {
    1 <= d.year && 1 <= d.month <= 12 && 1 <= d.day <= DaysInMonth(d.year, d.month)
  }

  function DaysBeforeYear(year: int): int {
    365 * (year - 1) + (year - 1) / 4 - (year - 1) / 100 + (year - 1) / 400
  }

  function DaysBeforeMonth(year: int, month: int): int
    requires 1 <= month <= 12
  {
    if month == 1 then 0
    else if month == 2 then 31
    else [59, 90, 120, 151, 181, 212, 243, 273, 304, 334][month - 3] + if IsLeap(year) then 1 else 0
  }

  function ToOrdinal(d: Date): int
    requires ValidDate(d)
  {
    DaysBeforeYear(d.year) + DaysBeforeMonth(d.year, d.month) + d.day
  }

  /** The last day a date can name. */
  function MaxOrdinal(): int { DaysBeforeYear(MAX_YEAR + 1) }

  // Months are counted through the years: month 0 is January of year 1.

  function MonthIndex(year: int, month: int): int { 12 * (year - 1) + month - 1 }

  function YearOf(m: nat): int { m / 12 + 1 }

  function MonthOf(m: nat): (month: int)
    ensures 1 <= month <= 12
  {
    m % 12 + 1
  }

  function LengthOf(m: nat): (n: int)
    ensures 28 <= n <= 31
  {
    DaysInMonth(YearOf(m), MonthOf(m))
  }

  /** The ordinal of a month's first day. */
  function FirstOf(m: nat): int {
    if m == 0 then 1 else FirstOf(m - 1) + LengthOf(m - 1)
  }

  lemma FoursPass(year: int)
    ensures year / 4 == (year - 1) / 4 + if year % 4 == 0 then 1 else 0
  {}

  lemma HundredsPass(year: int)
    ensures year / 100 == (year - 1) / 100 + if year % 100 == 0 then 1 else 0
  {}

  lemma FourHundredsPass(year: int)
    ensures year / 400 == (year - 1) / 400 + if year % 400 == 0 then 1 else 0
  {}

  lemma YearLength(year: int)
    ensures DaysBeforeYear(year + 1) == DaysBeforeYear(year) + (if IsLeap(year) then 366 else 365)
  {
    FoursPass(year);
    HundredsPass(year);
    FourHundredsPass(year);
    assert year % 400 == 0 ==> year % 100 == 0;
    assert year % 100 == 0 ==> year % 4 == 0;
  }

  lemma MonthsAbut(year: int, month: int)
    requires 1 <= month <= 12
    ensures DaysBeforeYear(year) + DaysBeforeMonth(year, month) + DaysInMonth(year, month)
            == if month < 12 then DaysBeforeYear(year) + DaysBeforeMonth(year, month + 1) else DaysBeforeYear(year + 1)
  {
    if month == 12 {
      YearLength(year);
    }
  }

  lemma IndexOfMonth(year: int, month: int)
    requires 1 <= year && 1 <= month <= 12
    ensures var m := MonthIndex(year, month); 0 <= m && YearOf(m) == year && MonthOf(m) == month
  {}

  lemma NextFirst(m: nat, year: int, month: int)
    requires 1 <= year && 1 <= month <= 12 && m == MonthIndex(year, month)
    ensures FirstOf(m + 1) == FirstOf(m) + DaysInMonth(year, month)
  {
    IndexOfMonth(year, month);
  }

  /** Counting months from the start of the calendar agrees with the leap-year
      arithmetic: months follow one another without gap or overlap. */
  lemma {:induction false} FirstOfMonth(m: nat, year: int, month: int)
    requires 1 <= year && 1 <= month <= 12 && m == MonthIndex(year, month)
    ensures FirstOf(m) == DaysBeforeYear(year) + DaysBeforeMonth(year, month) + 1
  {
    if month > 1 {
      FirstOfMonth(m - 1, year, month - 1);
      NextFirst(m - 1, year, month - 1);
      MonthsAbut(year, month - 1);
    } else if year > 1 {
      FirstOfMonth(m - 1, year - 1, 12);
      NextFirst(m - 1, year - 1, 12);
      MonthsAbut(year - 1, 12);
    }
  }

  lemma {:induction false} MonthsSpan(a: nat, b: nat)
    requires a <= b
    ensures 28 * (b - a) <= FirstOf(b) - FirstOf(a) <= 31 * (b - a)
    decreases b - a
  {
    if a < b {
      MonthsSpan(a + 1, b);
    }
  }

  predicate Holds(m: nat, day: int) { FirstOf(m) <= day < FirstOf(m) + LengthOf(m) }

  lemma {:induction false} SomeMonthHolds(day: int, m: nat)
    requires 1 <= day < FirstOf(m + 1)
    ensures exists r: nat :: r <= m && Holds(r, day)
  {
    if FirstOf(m) <= day { assert Holds(m, day); } else { SomeMonthHolds(day, m - 1); }
  }

  lemma OneMonthHolds(day: int, m: nat, r: nat)
    requires Holds(m, day) && Holds(r, day)
    ensures m == r
  {
    if m < r { MonthsSpan(m + 1, r); }
    if r < m { MonthsSpan(r + 1, m); }
  }

  /** The month a day falls in. */
  function MonthAt(day: int): (m: nat)
    requires 1 <= day
    ensures FirstOf(m) <= day < FirstOf(m) + LengthOf(m)
  {
    MonthsSpan(0, day + 1);
    SomeMonthHolds(day, day);
    assert forall m: nat, r: nat :: Holds(m, day) && Holds(r, day) ==> m == r by {
      forall m: nat, r: nat | Holds(m, day) && Holds(r, day) ensures m == r { OneMonthHolds(day, m, r); }
    }
    var m: nat :| m <= day && Holds(m, day);
    m
  }

  lemma MonthAtUnique(day: int, m: nat)
    requires FirstOf(m) <= day < FirstOf(m) + LengthOf(m)
    ensures 1 <= day && MonthAt(day) == m
  {
    MonthsSpan(0, m);
    OneMonthHolds(day, MonthAt(day), m);
  }

  lemma MonthAtMonotone(a: int, b: int)
    requires 1 <= a <= b
    ensures MonthAt(a) <= MonthAt(b)
  {
    EarlierMonth(MonthAt(a), MonthAt(b), a, b);
  }

  lemma EarlierMonth(m: nat, r: nat, a: int, b: int)
    requires Holds(m, a) && Holds(r, b) && a <= b
    ensures m <= r
  {
    if r < m { MonthsSpan(r + 1, m); }
  }

  function FromOrdinal(day: int): (d: Date)
    requires 1 <= day
    ensures ValidDate(d)
  {
    var m := MonthAt(day);
    Date(YearOf(m), MonthOf(m), day - FirstOf(m) + 1)
  }

  /** The bijection, one way: a valid date is the date of its ordinal. */
  lemma DateOfOrdinal(d: Date)
    requires ValidDate(d)
    ensures 1 <= ToOrdinal(d) && FromOrdinal(ToOrdinal(d)) == d
  {
    var m := MonthIndex(d.year, d.month);
    IndexOfMonth(d.year, d.month);
    FirstOfMonth(m, d.year, d.month);
    MonthAtUnique(ToOrdinal(d), m);
  }

  /** ... and the other: every ordinal is the ordinal of its date. */
  lemma OrdinalOfDate(day: int)
    requires 1 <= day
    ensures ToOrdinal(FromOrdinal(day)) == day
  {
    var m := MonthAt(day);
    FirstOfMonth(m, YearOf(m), MonthOf(m));
  }

  // ------------------------------------------------------------------- weeks

  /** 1 for Monday to 7 for Sunday. */
  function IsoWeekday(day: int): (w: int)
    ensures 1 <= w <= 7
  {
    (day - 1) % 7 + 1
  }

  function MondayOf(day: int): (m: int)
    ensures IsoWeekday(m) == 1 && m <= day < m + 7
    ensures day == m + IsoWeekday(day) - 1
  {
    day - (IsoWeekday(day) - 1)
  }

  lemma NewYear(d: Date)
    requires d.month == 1 && d.day == 1 && 1 <= d.year
    ensures ToOrdinal(d) == 365 * (d.year - 1) + (d.year - 1) / 4 - (d.year - 1) / 100 + (d.year - 1) / 400 + 1
  {}

  /** 1 January 2000 was a Saturday. */
  lemma KnownSaturday(d: Date)
    requires d.year == 2000 && d.month == 1 && d.day == 1
    ensures ToOrdinal(d) == 730_120 && IsoWeekday(ToOrdinal(d)) == 6
  {
    NewYear(d);
  }

  /** 1 January 2024 was a Monday. */
  lemma KnownMonday(d: Date)
    requires d.year == 2024 && d.month == 1 && d.day == 1
    ensures ToOrdinal(d) == 738_886 && IsoWeekday(ToOrdinal(d)) == 1
  {
    NewYear(d);
  }

  /** The calendar ends with 31 December 9999. */
  lemma KnownEnd(d: Date)
    requires d.year == 9999 && d.month == 12 && d.day == 31
    ensures ToOrdinal(d) == MaxOrdinal()
  {
    MonthsAbut(d.year, d.month);
  }

  /** Each day's weekday follows the one before it, Monday after Sunday. */
  lemma WeekdaysFollow(day: int)
    ensures IsoWeekday(day + 1) == if IsoWeekday(day) == 7 then 1 else IsoWeekday(day) + 1
  {}

  /** A weekday is the distance from a known Monday, whole weeks left out
      (`KnownMonday`). */
  lemma WeekdayIsRemainder(day: int, w: int)
    requires 1 <= w <= 7
    ensures IsoWeekday(day) == w <==> (day - 738_886) % 7 == w - 1
  {
    assert (day - 1) % 7 == (day - 738_886) % 7;
  }
}

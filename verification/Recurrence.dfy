/** When a recurring issue is next filed (app/domain/recurrence.py): a predicate
    on days, a bounded forward scan over it, and the stride arithmetic that the
    scan is proved to agree with. Days are ordinals. */
module Recurrence {
  import opened Wrappers
  import opened Collections
  import opened Calendar

  datatype Frequency = Daily | Weekly | Monthly

  datatype Rule = Rule(
    frequency: Frequency,
    interval: int,
    startsOn: int,
    weekdays: seq<int>,
    dayOfMonth: Option<int>)
  {
    /** `is_consistent`: the optional halves match the frequency. */
    predicate IsConsistent() {
      frequency.Weekly? == (weekdays != []) && frequency.Monthly? == dayOfMonth.Some?
    }

    /** What the table's CHECK constraints admit. */
    predicate Stored() {
      && IsConsistent()
      && 1 <= interval <= 52
      && 1 <= startsOn <= MaxOrdinal()
      && (forall w :: w in weekdays ==> 1 <= w <= 7)
      && (dayOfMonth.Some? ==> 1 <= dayOfMonth.value <= 31)
    }
  }

  const MAX_SCAN_DAYS: int := 52 * 31 + 31

  function EffectiveDayOfMonth(ruleDay: int, year: int, month: int): int
    requires 1 <= month <= 12
  {
    Lesser(ruleDay, DaysInMonth(year, month))
  }

  function MonthsBetween(earlier: Date, later: Date): int {
    (later.year - earlier.year) * 12 + (later.month - earlier.month)
  }

  /** The whole schedule as one predicate. */
  predicate OccursOn(rule: Rule, day: int)
    requires rule.Stored() && 1 <= day
  {
    if day < rule.startsOn then false
    else match rule.frequency
      case Daily => Multiple(day - rule.startsOn, rule.interval)
      case Weekly => OccursWeekly(rule, day)
      case Monthly => OccursMonthly(rule, day)
  }

  predicate OccursWeekly(rule: Rule, day: int)
    requires rule.Stored()
  {
    IsoWeekday(day) in rule.weekdays && Multiple(WeekNumber(rule, day), rule.interval)
  }

  predicate OccursMonthly(rule: Rule, day: int)
    requires rule.Stored() && rule.frequency.Monthly? && 1 <= day
  {
    var d := FromOrdinal(day);
    && d.day == EffectiveDayOfMonth(rule.dayOfMonth.value, d.year, d.month)
    && Multiple(MonthsBetween(FromOrdinal(rule.startsOn), d), rule.interval)
  }

  /** The predicate with the source's own remainders. */
  lemma OccursOnByRemainder(rule: Rule, day: int)
    requires rule.Stored() && rule.startsOn <= day
    ensures OccursOn(rule, day) <==>
            match rule.frequency
            case Daily => (day - rule.startsOn) % rule.interval == 0
            case Weekly =>
              && IsoWeekday(day) in rule.weekdays
              && ((MondayOf(day) - MondayOf(rule.startsOn)) / 7) % rule.interval == 0
            case Monthly =>
              var d := FromOrdinal(day);
              && d.day == EffectiveDayOfMonth(rule.dayOfMonth.value, d.year, d.month)
              && MonthsBetween(FromOrdinal(rule.startsOn), d) % rule.interval == 0
  {
    match rule.frequency
    case Daily => MultipleIsRemainder(day - rule.startsOn, rule.interval);
    case Weekly =>
      WeekPlace(rule, day);
      MultipleIsRemainder(WeekNumber(rule, day), rule.interval);
    case Monthly =>
      MonthAtMonotone(rule.startsOn, day);
      MultipleIsRemainder(MonthsBetween(FromOrdinal(rule.startsOn), FromOrdinal(day)), rule.interval);
  }

  // ----------------------------------------------------------------- multiples

  /** A multiple of `n`, counting down by `n`. */
  predicate Multiple(x: int, n: int)
    requires 0 < n
    decreases x
  {
    0 <= x && (if x < n then x == 0 else Multiple(x - n, n))
  }

  lemma {:induction false} MultipleIsRemainder(x: int, n: int)
    requires 0 <= x && 0 < n
    ensures Multiple(x, n) <==> x % n == 0
    decreases x
  {
    if x >= n {
      MultipleIsRemainder(x - n, n);
      OneLess(x, n);
    }
  }

  lemma OneLess(x: int, n: int)
    requires 0 < n <= x
    ensures (x - n) % n == x % n
  {
    var q, r := (x - n) / n, (x - n) % n;
    assert x == n * (q + 1) + r;
    RemainderIs(x, n, q + 1, r);
  }

  lemma ProductGap(n: int, d: int)
    requires 0 < n
    ensures (d >= 1 ==> n * d >= n) && (d <= -1 ==> n * d <= -n)
  {}

  lemma RemainderIs(y: int, n: int, q: int, r: int)
    requires 0 <= r < n && y == n * q + r
    ensures y % n == r
  {
    ProductGap(n, q - y / n);
    assert n * (q - y / n) == y % n - r;
  }

  /** The least multiple of `n` above `x`. */
  function NextMultiple(x: int, n: int): (r: int)
    requires 0 <= x && 0 < n
    ensures x < r <= x + n
    decreases x
  {
    if x < n then n else n + NextMultiple(x - n, n)
  }

  lemma {:induction false} NextMultipleBounds(x: int, n: int)
    requires 0 <= x && 0 < n
    ensures Multiple(NextMultiple(x, n), n)
    decreases x
  {
    if x >= n { NextMultipleBounds(x - n, n); } else { assert Multiple(0, n); }
  }

  lemma {:induction false} NoMultipleBefore(x: int, n: int, y: int)
    requires 0 < n && 0 <= x < y < NextMultiple(x, n)
    ensures !Multiple(y, n)
    decreases x
  {
    if x >= n { NoMultipleBefore(x - n, n, y - n); }
  }

  // -------------------------------------------------------------- stride form

  /** The least listed weekday above `w`, or 8. */
  function WeekdayAfter(weekdays: seq<int>, w: int): (r: int)
    ensures r == 8 || (r in weekdays && w < r)
    ensures r <= 8
    ensures forall v :: v in weekdays && w < v ==> r <= v
  {
    if weekdays == [] then 8
    else
      var rest := WeekdayAfter(weekdays[1..], w);
      assert forall v :: v in weekdays ==> v == weekdays[0] || v in weekdays[1..];
      if w < weekdays[0] < rest then weekdays[0] else rest
  }

  /** Weeks counted from the rule's first Monday. */
  function WeekNumber(rule: Rule, day: int): int {
    (MondayOf(day) - MondayOf(rule.startsOn)) / 7
  }

  /** The next (week, weekday) a weekly rule names after week `week`, day `w`. */
  function NextSlot(weekdays: seq<int>, interval: int, week: int, w: int): (int, int)
    requires 0 < interval && 0 <= week
  {
    if Multiple(week, interval) && WeekdayAfter(weekdays, w) <= 7 then (week, WeekdayAfter(weekdays, w))
    else (NextMultiple(week, interval), WeekdayAfter(weekdays, 0))
  }

  /** Where a monthly rule lands in month `m`: the clamp is on the rule's day. */
  function MonthlyDay(rule: Rule, m: nat): int
    requires rule.dayOfMonth.Some?
  {
    FirstOf(m) + Lesser(rule.dayOfMonth.value, LengthOf(m)) - 1
  }

  lemma WeekPlace(rule: Rule, day: int)
    requires rule.startsOn <= day
    ensures 0 <= WeekNumber(rule, day)
    ensures day == MondayOf(rule.startsOn) + 7 * WeekNumber(rule, day) + IsoWeekday(day) - 1
  {
    assert (MondayOf(rule.startsOn) - 1) % 7 == 0 && (MondayOf(day) - 1) % 7 == 0;
  }

  function WeeklyNext(rule: Rule, after: int): int
    requires rule.Stored() && rule.startsOn <= after
  {
    WeekPlace(rule, after);
    var (week, weekday) := NextSlot(rule.weekdays, rule.interval, WeekNumber(rule, after), IsoWeekday(after));
    MondayOf(rule.startsOn) + 7 * week + weekday - 1
  }

  function MonthlyNext(rule: Rule, after: int): int
    requires rule.Stored() && rule.frequency.Monthly? && rule.startsOn <= after
  {
    MonthAtMonotone(rule.startsOn, after);
    var base := MonthAt(rule.startsOn);
    var stride := MonthAt(after) - base;
    if Multiple(stride, rule.interval) && after < MonthlyDay(rule, MonthAt(after)) then MonthlyDay(rule, MonthAt(after))
    else MonthlyDay(rule, base + NextMultiple(stride, rule.interval))
  }

  /** The next occurrence by stride arithmetic, no day-by-day search. */
  function StrideNext(rule: Rule, after: int): int
    requires rule.Stored() && rule.startsOn <= after
  {
    match rule.frequency
    case Daily => rule.startsOn + NextMultiple(after - rule.startsOn, rule.interval)
    case Weekly => WeeklyNext(rule, after)
    case Monthly => MonthlyNext(rule, after)
  }

  /** The day its month names, in a month the rule's stride reaches. */
  predicate IsNamed(rule: Rule, day: int)
    requires rule.Stored() && rule.frequency.Monthly? && 1 <= day
  {
    day == MonthlyDay(rule, MonthAt(day)) && Multiple(MonthAt(day) - MonthAt(rule.startsOn), rule.interval)
  }

  /** The monthly clauses of the predicate, in terms of month indices. */
  lemma MonthlyMeans(rule: Rule, day: int)
    requires rule.Stored() && rule.frequency.Monthly? && rule.startsOn <= day
    ensures OccursMonthly(rule, day) <==> IsNamed(rule, day)
  {
    MonthAtMonotone(rule.startsOn, day);
    var a, b := MonthAt(rule.startsOn), MonthAt(day);
    assert MonthsBetween(FromOrdinal(rule.startsOn), FromOrdinal(day)) == b - a;
  }

  /** In every stride month exactly one day is named, the rule's day or the
      month's last if it is shorter -- so a short month never moves the next. */
  lemma OneDayPerStrideMonth(rule: Rule, m: nat, day: int)
    requires rule.Stored() && rule.frequency.Monthly?
    requires FirstOf(m) <= day < FirstOf(m) + LengthOf(m) && rule.startsOn <= day
    ensures MonthAt(rule.startsOn) <= m
    ensures (m - MonthAt(rule.startsOn)) % rule.interval == 0 ==>
            (OccursOn(rule, day) <==> day == MonthlyDay(rule, m))
    ensures FirstOf(m) <= MonthlyDay(rule, m) < FirstOf(m) + LengthOf(m)
  {
    MonthAtUnique(day, m);
    MonthAtMonotone(rule.startsOn, day);
    MonthlyMeans(rule, day);
    MultipleIsRemainder(m - MonthAt(rule.startsOn), rule.interval);
  }

  /** StrideNext is an occurrence, later than `after` and within the scan. */
  lemma StrideOccurs(rule: Rule, after: int)
    requires rule.Stored() && rule.startsOn <= after
    ensures after < StrideNext(rule, after) <= after + MAX_SCAN_DAYS
    ensures OccursOn(rule, StrideNext(rule, after))
  {
    match rule.frequency
    case Daily => NextMultipleBounds(after - rule.startsOn, rule.interval);
    case Weekly => WeeklyNextOccurs(rule, after);
    case Monthly =>
      MonthlyNextIsNamed(rule, after);
      MonthlyMeans(rule, MonthlyNext(rule, after));
  }

  lemma WeekOf(rule: Rule, week: int, weekday: int)
    requires 1 <= weekday <= 7
    ensures var day := MondayOf(rule.startsOn) + 7 * week + weekday - 1;
            IsoWeekday(day) == weekday && WeekNumber(rule, day) == week
  {
    var base := MondayOf(rule.startsOn);
    assert (base - 1) % 7 == 0;
    assert (base + 7 * week + weekday - 2) % 7 == weekday - 1;
  }

  lemma NextSlotIsNamed(weekdays: seq<int>, interval: int, week: int, w: int)
    requires 1 <= interval <= 52 && 0 <= week && 1 <= w <= 7
    requires weekdays != [] && forall v :: v in weekdays ==> 1 <= v <= 7
    ensures var (n, v) := NextSlot(weekdays, interval, week, w);
            && Multiple(n, interval) && v in weekdays
            && 7 * week + w < 7 * n + v <= 7 * week + w + 7 * 52 + 6
  {
    assert weekdays[0] in weekdays;
    NextMultipleBounds(week, interval);
  }

  lemma WeeklyNextOccurs(rule: Rule, after: int)
    requires rule.Stored() && rule.frequency.Weekly? && rule.startsOn <= after
    ensures after < WeeklyNext(rule, after) <= after + MAX_SCAN_DAYS && OccursWeekly(rule, WeeklyNext(rule, after))
  {
    WeekPlace(rule, after);
    NextSlotIsNamed(rule.weekdays, rule.interval, WeekNumber(rule, after), IsoWeekday(after));
    var (n, v) := NextSlot(rule.weekdays, rule.interval, WeekNumber(rule, after), IsoWeekday(after));
    WeekOf(rule, n, v);
  }

  lemma MonthlyDayInMonth(rule: Rule, m: nat)
    requires rule.Stored() && rule.frequency.Monthly?
    ensures FirstOf(m) <= MonthlyDay(rule, m) < FirstOf(m) + LengthOf(m) <= FirstOf(m) + 31
  {}

  /** A day named up to 52 months on is later, and within the scan. */
  lemma LaterMonthWithinScan(rule: Rule, day: int, n: nat)
    requires rule.Stored() && rule.frequency.Monthly? && 1 <= day && MonthAt(day) < n <= MonthAt(day) + 52
    ensures day < MonthlyDay(rule, n) <= day + MAX_SCAN_DAYS
  {
    var m := MonthAt(day);
    MonthsSpan(m, n);
    MonthsSpan(m + 1, n);
    MonthlyDayInMonth(rule, n);
  }

  lemma DayNamedIn(rule: Rule, m: nat)
    requires rule.Stored() && rule.frequency.Monthly?
    ensures 1 <= MonthlyDay(rule, m) && MonthAt(MonthlyDay(rule, m)) == m
  {
    MonthlyDayInMonth(rule, m);
    MonthAtUnique(MonthlyDay(rule, m), m);
  }

  lemma MonthlyNextIsNamed(rule: Rule, after: int)
    requires rule.Stored() && rule.frequency.Monthly? && rule.startsOn <= after
    ensures after < MonthlyNext(rule, after) <= after + MAX_SCAN_DAYS && IsNamed(rule, MonthlyNext(rule, after))
  {
    MonthAtMonotone(rule.startsOn, after);
    var base, m := MonthAt(rule.startsOn), MonthAt(after);
    NextMultipleBounds(m - base, rule.interval);
    var n := base + NextMultiple(m - base, rule.interval);
    MonthlyDayInMonth(rule, m);
    LaterMonthWithinScan(rule, after, n);
    DayNamedIn(rule, m);
    DayNamedIn(rule, n);
  }

  /** Nothing between `after` and StrideNext is an occurrence. */
  lemma StrideSkipsNone(rule: Rule, after: int, day: int)
    requires rule.Stored() && rule.startsOn <= after < day < StrideNext(rule, after)
    ensures !OccursOn(rule, day)
  {
    match rule.frequency
    case Daily =>
      NoMultipleBefore(after - rule.startsOn, rule.interval, day - rule.startsOn);
    case Weekly =>
      WeeklySkipsNone(rule, after, day);
    case Monthly =>
      NoneNamedBetween(rule, after, day);
      MonthlyMeans(rule, day);
  }

  lemma NoneNamedBetween(rule: Rule, after: int, day: int)
    requires rule.Stored() && rule.frequency.Monthly?
    requires rule.startsOn <= after < day < MonthlyNext(rule, after)
    ensures !IsNamed(rule, day)
  {
    MonthAtMonotone(rule.startsOn, after);
    MonthAtMonotone(after, day);
    var base, m := MonthAt(rule.startsOn), MonthAt(after);
    NoneNamedFrom(rule, after, day, base, m, MonthAt(day), NextMultiple(m - base, rule.interval));
  }

  lemma NoneNamedFrom(rule: Rule, after: int, day: int, base: nat, m: nat, k: nat, later: int)
    requires rule.Stored() && rule.frequency.Monthly? && base <= m <= k && 1 <= after < day && k == MonthAt(day)
    requires later == NextMultiple(m - base, rule.interval)
    requires day < if Multiple(m - base, rule.interval) && after < MonthlyDay(rule, m) then MonthlyDay(rule, m) else MonthlyDay(rule, base + later)
    ensures !(day == MonthlyDay(rule, k) && Multiple(k - base, rule.interval))
  {
    EarlierMonthIsPast(rule, m, k, day);
    EarlierMonthIsPast(rule, base + later, k, day);
    MonthlyGap(rule.interval, m - base, k - base, later, after, day, MonthlyDay(rule, m), MonthlyDay(rule, k), MonthlyDay(rule, base + later));
  }

  lemma EarlierMonthIsPast(rule: Rule, m: nat, k: nat, day: int)
    requires rule.Stored() && rule.frequency.Monthly? && 1 <= day && k == MonthAt(day)
    ensures m < k ==> MonthlyDay(rule, m) < day
  {
    if m < k {
      MonthlyDayInMonth(rule, m);
      MonthsSpan(m + 1, k);
    }
  }

  /** Months `m <= k`, and the days named in `m`, in `k` and in the next stride
      month after `m`. */
  lemma MonthlyGap(interval: int, m: int, k: int, later: int, after: int, day: int, inM: int, inK: int, inNext: int)
    requires 0 < interval && 0 <= m <= k && after < day && later == NextMultiple(m, interval)
    requires day < if Multiple(m, interval) && after < inM then inM else inNext
    requires (k == m ==> inK == inM) && (k == later ==> inK == inNext)
    requires k > later ==> inNext < day
    requires m < k ==> inM < day
    ensures !(day == inK && Multiple(k, interval))
  {
    NextMultipleBounds(m, interval);
    if m < k < later { NoMultipleBefore(m, interval, k); }
  }

  lemma WeeklySkipsNone(rule: Rule, after: int, day: int)
    requires rule.Stored() && rule.frequency.Weekly?
    requires rule.startsOn <= after < day < WeeklyNext(rule, after)
    ensures !OccursWeekly(rule, day)
  {
    WeekPlace(rule, after);
    WeekPlace(rule, day);
    WeeklyGap(rule.weekdays, rule.interval,
              WeekNumber(rule, after), IsoWeekday(after), WeekNumber(rule, day), IsoWeekday(day));
  }

  lemma WeeklyGap(weekdays: seq<int>, interval: int, week: int, w: int, n: int, v: int)
    requires 0 < interval && 0 <= week && 1 <= w <= 7 && 1 <= v <= 7
    requires forall x :: x in weekdays ==> 1 <= x <= 7
    requires var (a, b) := NextSlot(weekdays, interval, week, w);
             7 * week + w < 7 * n + v < 7 * a + b
    ensures !(v in weekdays && Multiple(n, interval))
  {
    NextMultipleBounds(week, interval);
    if week < n < NextMultiple(week, interval) { NoMultipleBefore(week, interval, n); }
  }

  lemma {:induction false} MultipleOf(x: int, n: int) returns (k: nat)
    requires 0 < n && Multiple(x, n)
    ensures x == n * k
    decreases x
  {
    if x < n { return 0; }
    k := MultipleOf(x - n, n);
    k := k + 1;
  }

  lemma {:induction false} IsMultiple(n: int, k: nat)
    requires 0 < n
    ensures Multiple(n * k, n)
  {
    if k > 0 {
      IsMultiple(n, k - 1);
      assert n * k - n == n * (k - 1) && n * k >= n;
    }
  }

  /** Day `day` is a listed weekday of a week the stride reaches, weeks counted
      from the Monday `base`. */
  predicate IsListed(rule: Rule, base: int, day: int, w: int, k: nat) {
    w in rule.weekdays && day == base + 7 * (rule.interval * k) + w - 1
  }

  /** A weekly rule names the listed weekdays of every `interval`-th week, counted
      from the Monday of the week it starts in: whole weeks from 1 January 2024
      (`KnownMonday`). */
  lemma WeeklyMeans(rule: Rule, base: int, day: int)
    requires rule.Stored() && rule.frequency.Weekly? && rule.startsOn <= day
    requires base <= rule.startsOn < base + 7 && (base - 738_886) % 7 == 0
    ensures OccursOn(rule, day) <==> exists w, k: nat :: IsListed(rule, base, day, w, k)
  {
    MondayIsBase(rule.startsOn, base);
    if OccursOn(rule, day) {
      var w, k := NamedIsListed(rule, base, day);
    }
    forall w, k: nat | IsListed(rule, base, day, w, k) ensures OccursOn(rule, day) {
      ListedIsNamed(rule, base, day, w, k, rule.interval * k);
    }
  }

  lemma NamedIsListed(rule: Rule, base: int, day: int) returns (w: int, k: nat)
    requires rule.Stored() && rule.frequency.Weekly? && rule.startsOn <= day && base == MondayOf(rule.startsOn)
    requires OccursWeekly(rule, day)
    ensures IsListed(rule, base, day, w, k)
  {
    WeekPlace(rule, day);
    w := IsoWeekday(day);
    k := MultipleOf(WeekNumber(rule, day), rule.interval);
  }

  lemma ListedIsNamed(rule: Rule, base: int, day: int, w: int, k: nat, week: int)
    requires rule.Stored() && rule.frequency.Weekly? && rule.startsOn <= day && base == MondayOf(rule.startsOn)
    requires week == rule.interval * k && IsListed(rule, base, day, w, k)
    ensures OccursWeekly(rule, day)
  {
    IsMultiple(rule.interval, k);
    WeekOf(rule, week, w);
  }

  lemma MondayIsBase(day: int, base: int)
    requires base <= day < base + 7 && (base - 738_886) % 7 == 0
    ensures MondayOf(day) == base
  {
    WeekdayIsRemainder(base, 1);
  }

  // ----------------------------------------------------------------- the scan

  datatype Scan =
    | Found(day: int)
    | PastLastDate       // OverflowError: no such calendar day
    | Unreachable        // UnreachableRecurrenceError

  /** The first day strictly after `after` that the rule names: for any `after`. */
  function NextDay(rule: Rule, after: int): int
    requires rule.Stored() && 1 <= after
  {
    if rule.startsOn <= after then StrideNext(rule, after) else FirstDay(rule)
  }

  function FirstDay(rule: Rule): int
    requires rule.Stored()
  {
    if OccursOn(rule, rule.startsOn) then rule.startsOn else StrideNext(rule, rule.startsOn)
  }

  lemma NextDayIsFirst(rule: Rule, after: int)
    requires rule.Stored() && 1 <= after
    ensures after < NextDay(rule, after) && OccursOn(rule, NextDay(rule, after))
    ensures forall d :: after < d < NextDay(rule, after) ==> !OccursOn(rule, d)
  {
    var from := if rule.startsOn <= after then after else rule.startsOn;
    StrideOccurs(rule, from);
    forall d | after < d < NextDay(rule, after) ensures !OccursOn(rule, d) {
      if from < d { StrideSkipsNone(rule, from, d); }
    }
  }

  /** The forward scan. It finds the first named day if that day exists on the
      calendar and lies within the bound, and what it reports otherwise. */
  method NextOccurrence(rule: Rule, after: int) returns (r: Scan)
    requires rule.Stored() && 1 <= after <= MaxOrdinal()
    ensures r == if NextDay(rule, after) <= Lesser(after + MAX_SCAN_DAYS, MaxOrdinal()) then Found(NextDay(rule, after))
                 else if after + MAX_SCAN_DAYS <= MaxOrdinal() then Unreachable
                 else PastLastDate
    ensures r.Found? ==> after < r.day && OccursOn(rule, r.day) && forall d :: after < d < r.day ==> !OccursOn(rule, d)
    ensures rule.startsOn <= after ==> !r.Unreachable?
  {
    NextDayIsFirst(rule, after);
    if rule.startsOn <= after { StrideOccurs(rule, after); }
    var offset := 1;
    while offset <= MAX_SCAN_DAYS
      invariant 1 <= offset <= MAX_SCAN_DAYS + 1
      invariant after + offset - 1 <= MaxOrdinal()
      invariant after + offset <= NextDay(rule, after)
    {
      var candidate := after + offset;
      if candidate > MaxOrdinal() { return PastLastDate; }
      if OccursOn(rule, candidate) { return Found(candidate); }
      offset := offset + 1;
    }
    return Unreachable;
  }

  method FirstOccurrence(rule: Rule) returns (r: Scan)
    requires rule.Stored()
    ensures r == if FirstDay(rule) <= MaxOrdinal() then Found(FirstDay(rule)) else PastLastDate
    ensures r.Found? ==> rule.startsOn <= r.day && OccursOn(rule, r.day)
    ensures r.Found? ==> forall d :: 1 <= d < r.day ==> !OccursOn(rule, d)
  {
    if OccursOn(rule, rule.startsOn) { return Found(rule.startsOn); }
    StrideOccurs(rule, rule.startsOn);
    r := NextOccurrence(rule, rule.startsOn);
  }

  // ------------------------------------------------------------- enumeration

  /** The day reached by asking for the first occurrence and then `i` times for
      the next one. */
  function Occurrence(rule: Rule, i: nat): (day: int)
    requires rule.Stored()
    ensures rule.startsOn <= day && OccursOn(rule, day)
  {
    if i == 0 then
      StrideOccurs(rule, rule.startsOn);
      FirstDay(rule)
    else
      StrideOccurs(rule, Occurrence(rule, i - 1));
      StrideNext(rule, Occurrence(rule, i - 1))
  }

  lemma {:induction false} OccurrencesIncrease(rule: Rule, i: nat, j: nat)
    requires rule.Stored() && i < j
    ensures Occurrence(rule, i) + (j - i) <= Occurrence(rule, j)
  {
    StrideOccurs(rule, Occurrence(rule, j - 1));
    if i < j - 1 { OccurrencesIncrease(rule, i, j - 1); }
  }

  /** Iterating lists every named day and no other. */
  lemma EveryOccurrenceIsListed(rule: Rule, day: int)
    requires rule.Stored() && 1 <= day
    ensures OccursOn(rule, day) <==> exists i: nat :: Occurrence(rule, i) == day
  {
    if OccursOn(rule, day) {
      NextDayIsFirst(rule, rule.startsOn);
      var i := LastListed(rule, day, 0);
      if Occurrence(rule, i) < day { StrideSkipsNone(rule, Occurrence(rule, i), day); }
    }
  }

  /** The last listed day not after `day`. */
  lemma {:induction false} LastListed(rule: Rule, day: int, from: nat) returns (i: nat)
    requires rule.Stored() && Occurrence(rule, from) <= day
    ensures Occurrence(rule, i) <= day < Occurrence(rule, i + 1)
    decreases day - Occurrence(rule, from)
  {
    var next := from + 1;
    OccurrencesIncrease(rule, from, next);
    if Occurrence(rule, next) <= day { i := LastListed(rule, day, next); } else { i := from; }
  }
}

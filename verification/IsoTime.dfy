/** The one spelling isoformat() gives a date and a datetime (section 4.3.2 of
    ISO 8601:2004), and fromisoformat() on that spelling. */
module IsoTime {
  import opened Wrappers
  import opened Decimal
  import opened Calendar

  // ------------------------------------------------------- fixed-width numbers

  /** The last `k` digits of `n`, with leading zeros. */
  function Padded(n: nat, k: nat): (s: string)
    ensures |s| == k && AllDigits(s)
  {
    if k == 0 then [] else Padded(n / 10, k - 1) + [DigitChar(n % 10)]
  }

  lemma {:induction false} PaddedReads(n: nat, k: nat)
    requires n < Pow10(k)
    ensures Value(Padded(n, k)) == n
  {
    if k > 0 {
      PaddedReads(n / 10, k - 1);
      var s := Padded(n, k);
      assert s[..|s| - 1] == Padded(n / 10, k - 1);
    }
  }

  lemma Powers()
    ensures Pow10(2) == 100 && Pow10(4) == 10_000 && Pow10(6) == 1_000_000
  {
    assert Pow10(1) == 10 * Pow10(0) && Pow10(3) == 10 * Pow10(2) && Pow10(5) == 10 * Pow10(4);
  }

  /** The number `k` digits at `i` spell, or -1. */
  function NumberAt(s: string, i: nat, k: nat): (n: int)
    ensures -1 <= n
  {
    if i + k <= |s| && AllDigits(s[i..i + k]) then Value(s[i..i + k]) else -1
  }

  lemma NumberReads(s: string, i: nat, n: nat, k: nat)
    requires i + k <= |s| && s[i..i + k] == Padded(n, k) && n < Pow10(k)
    ensures NumberAt(s, i, k) == n
  {
    PaddedReads(n, k);
  }

  // --------------------------------------------------------------------- dates

  /** What datetime.date can hold. */
  predicate Representable(d: Date) { ValidDate(d) && d.year <= MAX_YEAR }

  function IsoDate(d: Date): (s: string)
    requires Representable(d)
    ensures |s| == 10
  {
    Padded(d.year, 4) + "-" + Padded(d.month, 2) + "-" + Padded(d.day, 2)
  }

  function ReadDate(s: string): (r: Option<Date>)
    ensures r.Some? ==> Representable(r.value)
  {
    if |s| != 10 || s[4] != '-' || s[7] != '-' then None
    else
      var d := Date(NumberAt(s, 0, 4), NumberAt(s, 5, 2), NumberAt(s, 8, 2));
      if Representable(d) then Some(d) else None
  }

  lemma DateReads(d: Date)
    requires Representable(d)
    ensures ReadDate(IsoDate(d)) == Some(d)
  {
    var s := IsoDate(d);
    Powers();
    assert s[0..4] == Padded(d.year, 4) && s[5..7] == Padded(d.month, 2) && s[8..10] == Padded(d.day, 2);
    NumberReads(s, 0, d.year, 4);
    NumberReads(s, 5, d.month, 2);
    NumberReads(s, 8, d.day, 2);
  }

  // -------------------------------------------------------------------- clocks

  datatype Clock = Clock(hour: int, minute: int, second: int, micro: int)

  predicate ValidClock(c: Clock) {
    0 <= c.hour < 24 && 0 <= c.minute < 60 && 0 <= c.second < 60 && 0 <= c.micro < 1_000_000
  }

  const DAY: int := 86_400_000_000

  function Micros(c: Clock): int {
    ((c.hour * 60 + c.minute) * 60 + c.second) * 1_000_000 + c.micro
  }

  function ClockOf(n: nat): (c: Clock)
    requires n < DAY
    ensures ValidClock(c) && Micros(c) == n
  {
    var seconds := n / 1_000_000;
    var minutes := seconds / 60;
    Clock(minutes / 60, minutes % 60, seconds % 60, n % 1_000_000)
  }

  /** HH:MM, then :SS, then .ffffff */
  function IsoClock(c: Clock, seconds: bool, micros: bool): (s: string)
    requires ValidClock(c)
    ensures |s| == if seconds && micros then 15 else if seconds then 8 else 5
    ensures forall i :: 0 <= i < |s| ==> s[i] != '+' && s[i] != '-'
  {
    Padded(c.hour, 2) + ":" + Padded(c.minute, 2)
    + if seconds then ":" + Padded(c.second, 2) + (if micros then "." + Padded(c.micro, 6) else "") else ""
  }

  function ReadClock(s: string): (r: Option<Clock>)
    ensures r.Some? ==> ValidClock(r.value)
  {
    if (|s| != 5 && |s| != 8 && |s| != 15) || s[2] != ':' then None
    else if |s| > 5 && s[5] != ':' then None
    else if |s| > 8 && s[8] != '.' then None
    else
      var c := Clock(NumberAt(s, 0, 2), NumberAt(s, 3, 2),
                     if |s| > 5 then NumberAt(s, 6, 2) else 0, if |s| > 8 then NumberAt(s, 9, 6) else 0);
      if ValidClock(c) then Some(c) else None
  }

  lemma ClockReads(c: Clock, seconds: bool, micros: bool)
    requires ValidClock(c)
    requires (!seconds ==> c.second == 0 && c.micro == 0) && (!micros ==> c.micro == 0)
    ensures ReadClock(IsoClock(c, seconds, micros)) == Some(c)
  {
    var s := IsoClock(c, seconds, micros);
    Powers();
    assert s[0..2] == Padded(c.hour, 2) && s[3..5] == Padded(c.minute, 2);
    NumberReads(s, 0, c.hour, 2);
    NumberReads(s, 3, c.minute, 2);
    if seconds {
      assert s[6..8] == Padded(c.second, 2);
      NumberReads(s, 6, c.second, 2);
      if micros {
        assert s[9..15] == Padded(c.micro, 6);
        NumberReads(s, 9, c.micro, 6);
      }
    }
  }

  // ------------------------------------------------------------------- moments

  /** A datetime: `offset` is utcoffset() in microseconds, None when naive. */
  datatype Moment = Moment(date: Date, clock: Clock, offset: Option<int>)

  predicate ValidMoment(m: Moment) {
    Representable(m.date) && ValidClock(m.clock) && (m.offset.Some? ==> -DAY < m.offset.value < DAY)
  }

  function IsoOffset(offset: int): (s: string)
    requires -DAY < offset < DAY
    ensures 6 <= |s| && (s[0] == '-' || s[0] == '+')
  {
    var c := ClockOf(if offset < 0 then -offset else offset);
    [if offset < 0 then '-' else '+'] + IsoClock(c, c.second != 0 || c.micro != 0, c.micro != 0)
  }

  function IsoMoment(m: Moment): string
    requires ValidMoment(m)
  {
    IsoDate(m.date) + "T" + IsoClock(m.clock, true, m.clock.micro != 0)
    + if m.offset.Some? then IsoOffset(m.offset.value) else ""
  }

  /** Where the offset starts: at the first sign, or at the end. */
  function SignAt(s: string): (n: nat)
    ensures n <= |s|
    ensures n < |s| ==> s[n] == '+' || s[n] == '-'
  {
    if s == [] || s[0] == '+' || s[0] == '-' then 0 else 1 + SignAt(s[1..])
  }

  function ReadOffset(s: string): (r: Option<int>)
    requires s != []
    ensures r.Some? ==> -DAY < r.value < DAY
  {
    var c := ReadClock(s[1..]);
    if c.None? then None else Some(if s[0] == '-' then -Micros(c.value) else Micros(c.value))
  }

  function ReadMoment(s: string): (r: Option<Moment>)
    ensures r.Some? ==> ValidMoment(r.value)
  {
    if |s| < 11 || s[10] != 'T' then None
    else
      var time := s[11..];
      var n := SignAt(time);
      var date, clock := ReadDate(s[..10]), ReadClock(time[..n]);
      if date.None? || clock.None? then None
      else if n == |time| then Some(Moment(date.value, clock.value, None))
      else
        var offset := ReadOffset(time[n..]);
        if offset.None? then None else Some(Moment(date.value, clock.value, offset))
  }

  lemma {:induction false} SignFound(a: string, b: string)
    requires forall i :: 0 <= i < |a| ==> a[i] != '+' && a[i] != '-'
    requires b == [] || b[0] == '+' || b[0] == '-'
    ensures SignAt(a + b) == |a|
  {
    if a != [] {
      assert (a + b)[1..] == a[1..] + b;
      SignFound(a[1..], b);
    } else {
      assert a + b == b;
    }
  }

  lemma OffsetReads(offset: int)
    requires -DAY < offset < DAY
    ensures ReadOffset(IsoOffset(offset)) == Some(offset)
  {
    var c := ClockOf(if offset < 0 then -offset else offset);
    ClockReads(c, c.second != 0 || c.micro != 0, c.micro != 0);
    assert IsoOffset(offset)[1..] == IsoClock(c, c.second != 0 || c.micro != 0, c.micro != 0);
  }

  /** A text in three parts is read part by part. */
  lemma MomentStep(s: string, date: string, clock: string, offset: string)
    requires s == date + "T" + clock + offset && |date| == 10
    requires forall i :: 0 <= i < |clock| ==> clock[i] != '+' && clock[i] != '-'
    requires offset == [] || offset[0] == '+' || offset[0] == '-'
    ensures |s| >= 11 && s[10] == 'T' && s[..10] == date && s[11..] == clock + offset
    ensures SignAt(s[11..]) == |clock|
    ensures s[11..][..|clock|] == clock && s[11..][|clock|..] == offset
  {
    assert s[11..] == clock + offset;
    SignFound(clock, offset);
  }

  lemma MomentReads(m: Moment)
    requires ValidMoment(m)
    ensures ReadMoment(IsoMoment(m)) == Some(m)
  {
    var clock := IsoClock(m.clock, true, m.clock.micro != 0);
    var offset := if m.offset.Some? then IsoOffset(m.offset.value) else "";
    MomentStep(IsoMoment(m), IsoDate(m.date), clock, offset);
    DateReads(m.date);
    ClockReads(m.clock, true, m.clock.micro != 0);
    if m.offset.Some? { OffsetReads(m.offset.value); }
  }
}

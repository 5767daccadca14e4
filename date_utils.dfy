/**
 * Local calendar arithmetic of the date helpers. A `DateTime` holds the
 * broken-down fields a JavaScript `Date` reports: the calendar part
 * (`getFullYear`, `getMonth` from 0, `getDate` from 1, `getDay` with Sunday
 * as 0) and the clock. Each helper is written with the day steps that
 * `setDate` and `setMonth` perform when a day number runs past either end of
 * a month.
 */
module DateUtils {
  import opened Strings
  import opened TodoTypes

  datatype CalendarDate = CalendarDate(year: int, month: int, date: int, weekday: int)
  datatype Clock = Clock(hours: int, minutes: int, seconds: int, millis: int)
  datatype DateTime = DateTime(cal: CalendarDate, clock: Clock)

  /** Gregorian leap years. */
  predicate IsLeapYear(year: int) {
    (year % 4 == 0 && year % 100 != 0) || year % 400 == 0
  }

  /** Length of a month, the month counted from 0 (January). */
  function DaysInMonth(year: int, month: int): (n: int)
    requires 0 <= month < 12
    ensures 28 <= n <= 31
  {
    if month == 1 then (if IsLeapYear(year) then 29 else 28)
    else if month == 3 || month == 5 || month == 8 || month == 10 then 30
    else 31
  }

  /** February has 29 days in leap years and 28 otherwise; April, June, September and November have 30; the rest 31. */
  lemma MonthLengths(year: int, month: int)
    requires 0 <= month < 12
    ensures DaysInMonth(year, month) == 29 <==> month == 1 && IsLeapYear(year)
    ensures DaysInMonth(year, month) == 28 <==> month == 1 && !IsLeapYear(year)
    ensures DaysInMonth(year, month) == 30 <==> month == 3 || month == 5 || month == 8 || month == 10
    ensures DaysInMonth(year, month) == 31 <==> month in {0, 2, 4, 6, 7, 9, 11}
  {
  }

  /** The calendar fields are in range. */
  predicate ValidDate(c: CalendarDate) {
    0 <= c.month < 12 && 1 <= c.date <= DaysInMonth(c.year, c.month) && 0 <= c.weekday < 7
  }

  /** The clock fields are in range. */
  predicate ValidClock(k: Clock) {
    0 <= k.hours < 24 && 0 <= k.minutes < 60 && 0 <= k.seconds < 60 && 0 <= k.millis < 1000
  }

  /** Every field is in range, as a `Date` always reports them. */
  predicate Valid(dt: DateTime) {
    ValidDate(dt.cal) && ValidClock(dt.clock)
  }

  /** `setHours(0, 0, 0, 0)`. */
  function Midnight(): Clock { Clock(0, 0, 0, 0) }

  /** `setHours(23, 59, 59, 999)`. */
  function LastMillisecond(): Clock { Clock(23, 59, 59, 999) }

  /** The following calendar day, rolling over month and year ends. */
  function NextDay(c: CalendarDate): (r: CalendarDate)
    requires ValidDate(c)
    ensures ValidDate(r)
  {
    var wd := (c.weekday + 1) % 7;
    if c.date < DaysInMonth(c.year, c.month) then c.(date := c.date + 1, weekday := wd)
    else if c.month < 11 then CalendarDate(c.year, c.month + 1, 1, wd)
    else CalendarDate(c.year + 1, 0, 1, wd)
  }

  /** The preceding calendar day, rolling back over month and year starts. */
  function PrevDay(c: CalendarDate): (r: CalendarDate)
    requires ValidDate(c)
    ensures ValidDate(r)
  {
    var wd := (c.weekday + 6) % 7;
    if c.date > 1 then c.(date := c.date - 1, weekday := wd)
    else if c.month > 0 then CalendarDate(c.year, c.month - 1, DaysInMonth(c.year, c.month - 1), wd)
    else CalendarDate(c.year - 1, 11, 31, wd)
  }

  /** One day forward and one back cancel, in either order. */
  lemma PrevNext(c: CalendarDate)
    requires ValidDate(c)
    ensures PrevDay(NextDay(c)) == c
    ensures NextDay(PrevDay(c)) == c
  {
  }

  /** `n` days later (earlier when `n` is negative). */
  function AddDays(c: CalendarDate, n: int): (r: CalendarDate)
    requires ValidDate(c)
    ensures ValidDate(r)
    decreases if n < 0 then -n else n
  {
    if n == 0 then c
    else if n > 0 then NextDay(AddDays(c, n - 1))
    else PrevDay(AddDays(c, n + 1))
  }

  /** The week day moves by one modulo 7 in each direction. */
  lemma WeekdayStep(a: int, b: int)
    requires b == a + 1
    ensures (a % 7 + 1) % 7 == b % 7
    ensures (b % 7 + 6) % 7 == a % 7
  {
    var q := a / 7;
    assert a == 7 * q + a % 7;
    if a % 7 == 6 {
      assert b == 7 * (q + 1);
    } else {
      assert b == 7 * q + (a % 7 + 1);
    }
  }

  /** `n` days on, the week day has moved by `n` modulo 7. */
  lemma AddDaysWeekday(c: CalendarDate, n: int)
    requires ValidDate(c)
    ensures AddDays(c, n).weekday == (c.weekday + n) % 7
  {
    if n >= 0 {
      ForwardWeekday(c, n);
    } else {
      BackwardWeekday(c, n);
    }
  }

  lemma {:induction false} ForwardWeekday(c: CalendarDate, n: int)
    requires ValidDate(c) && n >= 0
    ensures AddDays(c, n).weekday == (c.weekday + n) % 7
  {
    if n > 0 {
      ForwardWeekday(c, n - 1);
      WeekdayStep(c.weekday + (n - 1), c.weekday + n);
    }
  }

  lemma {:induction false} BackwardWeekday(c: CalendarDate, n: int)
    requires ValidDate(c) && n <= 0
    ensures AddDays(c, n).weekday == (c.weekday + n) % 7
    decreases -n
  {
    if n < 0 {
      BackwardWeekday(c, n + 1);
      WeekdayStep(c.weekday + n, c.weekday + (n + 1));
    }
  }

  /** One more step forward after `k` steps is `k1 == k + 1` steps. */
  lemma NextAddDays(c: CalendarDate, k: int, k1: int)
    requires ValidDate(c) && k1 == k + 1
    ensures NextDay(AddDays(c, k)) == AddDays(c, k1)
  {
    if k < 0 {
      PrevNext(AddDays(c, k1));
    }
  }

  /** One more step back after `k` steps is `k1 == k - 1` steps. */
  lemma PrevAddDays(c: CalendarDate, k: int, k1: int)
    requires ValidDate(c) && k1 == k - 1
    ensures PrevDay(AddDays(c, k)) == AddDays(c, k1)
  {
    if k > 0 {
      PrevNext(AddDays(c, k1));
    }
  }

  /** Day steps add up: `a` days then `b` days is `a + b` days. */
  lemma AddDaysAdd(c: CalendarDate, a: int, b: int)
    requires ValidDate(c)
    ensures AddDays(AddDays(c, a), b) == AddDays(c, a + b)
  {
    if b >= 0 {
      ForwardAdd(c, a, b);
    } else {
      BackwardAdd(c, a, b);
    }
  }

  lemma {:induction false} ForwardAdd(c: CalendarDate, a: int, b: int)
    requires ValidDate(c) && b >= 0
    ensures AddDays(AddDays(c, a), b) == AddDays(c, a + b)
  {
    if b > 0 {
      ForwardAdd(c, a, b - 1);
      NextAddDays(c, a + (b - 1), a + b);
    }
  }

  lemma {:induction false} BackwardAdd(c: CalendarDate, a: int, b: int)
    requires ValidDate(c) && b <= 0
    ensures AddDays(AddDays(c, a), b) == AddDays(c, a + b)
    decreases -b
  {
    if b < 0 {
      BackwardAdd(c, a, b + 1);
      PrevAddDays(c, a + (b + 1), a + b);
    }
  }

  /** `AddDaysAdd` with the total named, so callers need not rewrite sums. */
  lemma AddDaysSum(c: CalendarDate, a: int, b: int, total: int)
    requires ValidDate(c) && total == a + b
    ensures AddDays(AddDays(c, a), b) == AddDays(c, total)
  {
    AddDaysAdd(c, a, b);
  }

  /** Going `n` days and back returns to the same day. */
  lemma AddDaysInverse(c: CalendarDate, n: int)
    requires ValidDate(c)
    ensures AddDays(AddDays(c, n), -n) == c
  {
    AddDaysAdd(c, n, -n);
  }

  /** Inside one month, `n` days forward only moves the day of the month. */
  lemma {:induction false} AddDaysWithinMonth(c: CalendarDate, n: int)
    requires ValidDate(c) && 0 <= n && c.date + n <= DaysInMonth(c.year, c.month)
    ensures AddDays(c, n) == c.(date := c.date + n, weekday := (c.weekday + n) % 7)
  {
    AddDaysWeekday(c, n);
    if n > 0 {
      AddDaysWithinMonth(c, n - 1);
    }
  }

  /** Inside one month, `n` days back only moves the day of the month. */
  lemma {:induction false} SubDaysWithinMonth(c: CalendarDate, n: int)
    requires ValidDate(c) && 0 <= n && c.date - n >= 1
    ensures AddDays(c, -n) == c.(date := c.date - n, weekday := (c.weekday - n) % 7)
  {
    AddDaysWeekday(c, -n);
    if n > 0 {
      SubDaysWithinMonth(c, n - 1);
    }
  }

  /**
   * `setDate(n)`: day `n` counted from the first of the current month, so
   * that 0 is the last day of the previous month and numbers past the
   * month's end run into the next one.
   */
  function SetDate(c: CalendarDate, n: int): (r: CalendarDate)
    requires ValidDate(c)
    ensures ValidDate(r)
    ensures 1 <= n <= DaysInMonth(c.year, c.month) ==>
      r == c.(date := n, weekday := (c.weekday + n - c.date) % 7)
  {
    SetDateInMonth(c, n);
    AddDays(c, n - c.date)
  }

  /** `setDate(getDate() + k)` is `k` day steps. */
  lemma SetDateBy(c: CalendarDate, n: int, k: int)
    requires ValidDate(c) && n == c.date + k
    ensures SetDate(c, n) == AddDays(c, k)
  {
    assert n - c.date == k;
  }

  lemma SetDateInMonth(c: CalendarDate, n: int)
    requires ValidDate(c)
    ensures 1 <= n <= DaysInMonth(c.year, c.month) ==>
      AddDays(c, n - c.date) == c.(date := n, weekday := (c.weekday + n - c.date) % 7)
  {
    if 1 <= n <= c.date {
      SubDaysWithinMonth(c, c.date - n);
    } else if c.date < n <= DaysInMonth(c.year, c.month) {
      AddDaysWithinMonth(c, n - c.date);
    }
  }

  /** `getDayOfWeekName`'s own Sunday-first list. */
  function SundayFirstDays(): seq<Day> {
    [Domingo, Segunda, Terca, Quarta, Quinta, Sexta, Sabado]
  }

  /** `getDayOfWeekName`: the week day of `dt`. */
  function DayOfWeekName(dt: DateTime): (d: Day)
    requires Valid(dt)
    ensures d == DayOfWeekFromDate(dt.cal.weekday)
    ensures Name(d) == SundayFirstNames()[dt.cal.weekday]
  {
    SundayFirstDays()[dt.cal.weekday]
  }

  /** `getWeekDays`: the planner's Monday-first week. */
  function WeekDays(): (r: seq<Day>)
    ensures r == DaysOfWeek()
  {
    [Segunda, Terca, Quarta, Quinta, Sexta, Sabado, Domingo]
  }

  /** The `diff` of `getStartOfWeek`: back to Monday, with Sunday closing the week. */
  function MondayOffset(weekday: int): (diff: int)
    requires 0 <= weekday < 7
    ensures -6 <= diff <= 0
    ensures (weekday + diff) % 7 == 1
    ensures diff == -((weekday + 6) % 7)
  {
    if weekday == 0 then -6 else 1 - weekday
  }

  /** Days from the week's Monday to a day with `getDay() == weekday`. */
  function DaysSinceMonday(weekday: int): (k: int)
    requires 0 <= weekday < 7
    ensures 0 <= k < 7 && k == -MondayOffset(weekday)
  {
    (weekday + 6) % 7
  }

  /** Days from a day with `getDay() == weekday` forward to the Sunday closing its week. */
  function DaysToSunday(weekday: int): (n: int)
    requires 0 <= weekday < 7
    ensures 0 <= n < 7 && n == 6 - DaysSinceMonday(weekday)
  {
    if weekday == 0 then 0 else 7 - weekday
  }

  /** `getStartOfWeek`: midnight of the Monday of `dt`'s week. */
  function StartOfWeek(dt: DateTime): (r: DateTime)
    requires Valid(dt)
    ensures Valid(r) && r.cal.weekday == 1 && r.clock == Midnight()
  {
    var c := dt.cal;
    AddDaysWeekday(c, MondayOffset(c.weekday));
    SetDateBy(c, c.date + MondayOffset(c.weekday), MondayOffset(c.weekday));
    DateTime(SetDate(c, c.date + MondayOffset(c.weekday)), Midnight())
  }

  /** The week's Monday is `AddDays` by the `diff` of `getStartOfWeek`. */
  lemma StartOfWeekCal(dt: DateTime)
    requires Valid(dt)
    ensures StartOfWeek(dt).cal == AddDays(dt.cal, MondayOffset(dt.cal.weekday))
  {
    var c := dt.cal;
    SetDateBy(c, c.date + MondayOffset(c.weekday), MondayOffset(c.weekday));
  }

  /** The week's Monday lies `DaysSinceMonday(getDay())` days before `dt`. */
  lemma StartOfWeekReaches(dt: DateTime)
    requires Valid(dt)
    ensures AddDays(StartOfWeek(dt).cal, DaysSinceMonday(dt.cal.weekday)) == dt.cal
  {
    StartOfWeekCal(dt);
    AddDaysSum(dt.cal, MondayOffset(dt.cal.weekday), DaysSinceMonday(dt.cal.weekday), 0);
  }

  /** A week's Monday is its own week's start. */
  lemma StartOfWeekIdempotent(dt: DateTime)
    requires Valid(dt)
    ensures StartOfWeek(StartOfWeek(dt)) == StartOfWeek(dt)
  {
  }

  /** `getEndOfWeek`: the last millisecond of the Sunday six days after the week's Monday. */
  function EndOfWeek(dt: DateTime): (r: DateTime)
    requires Valid(dt)
    ensures Valid(r) && r.cal.weekday == 0 && r.clock == LastMillisecond()
  {
    var start := StartOfWeek(dt);
    AddDaysWeekday(start.cal, 6);
    SetDateBy(start.cal, start.cal.date + 6, 6);
    DateTime(SetDate(start.cal, start.cal.date + 6), LastMillisecond())
  }

  /** The week's Sunday is six day steps after its Monday. */
  lemma EndOfWeekCal(dt: DateTime)
    requires Valid(dt)
    ensures EndOfWeek(dt).cal == AddDays(StartOfWeek(dt).cal, 6)
  {
    var start := StartOfWeek(dt);
    SetDateBy(start.cal, start.cal.date + 6, 6);
  }

  /** The week's Sunday lies `DaysToSunday(getDay())` days after `dt`. */
  lemma EndOfWeekReaches(dt: DateTime)
    requires Valid(dt)
    ensures EndOfWeek(dt).cal == AddDays(dt.cal, DaysToSunday(dt.cal.weekday))
  {
    StartOfWeekCal(dt);
    EndOfWeekCal(dt);
    AddDaysSum(dt.cal, MondayOffset(dt.cal.weekday), 6, DaysToSunday(dt.cal.weekday));
  }

  /** `getStartOfMonth`: midnight of the first day of `dt`'s month. */
  function StartOfMonth(dt: DateTime): (r: DateTime)
    requires Valid(dt)
    ensures Valid(r) && r.clock == Midnight()
    ensures r.cal.year == dt.cal.year && r.cal.month == dt.cal.month && r.cal.date == 1
    ensures r.cal.weekday == (dt.cal.weekday - (dt.cal.date - 1)) % 7
  {
    DateTime(SetDate(dt.cal, 1), Midnight())
  }

  /** The first day of the month after `dt`'s: `setMonth(getMonth() + 1, 1)`. */
  function FirstOfNextMonth(c: CalendarDate): (r: CalendarDate)
    requires ValidDate(c)
    ensures ValidDate(r) && r.date == 1
    ensures c.month < 11 ==> r.year == c.year && r.month == c.month + 1
    ensures c.month == 11 ==> r.year == c.year + 1 && r.month == 0
  {
    AddDaysWithinMonth(c, DaysLeftInMonth(c));
    NextDay(AddDays(c, DaysLeftInMonth(c)))
  }

  /** Days from `c` to the last day of its month. */
  function DaysLeftInMonth(c: CalendarDate): (k: int)
    requires ValidDate(c)
    ensures 0 <= k && c.date + k == DaysInMonth(c.year, c.month)
  {
    DaysInMonth(c.year, c.month) - c.date
  }

  /**
   * `getEndOfMonth`: `setMonth(getMonth() + 1, 0)` is day 0 of the next
   * month, so the result is the last millisecond of the month's last day.
   */
  function EndOfMonth(dt: DateTime): (r: DateTime)
    requires Valid(dt)
    ensures Valid(r) && r.clock == LastMillisecond()
    ensures r.cal.year == dt.cal.year && r.cal.month == dt.cal.month
    ensures r.cal.date == DaysInMonth(dt.cal.year, dt.cal.month)
    ensures NextDay(r.cal) == FirstOfNextMonth(dt.cal)
  {
    LastOfMonth(dt.cal);
    DateTime(SetDate(FirstOfNextMonth(dt.cal), 0), LastMillisecond())
  }

  /** Day 0 of the next month is the last day of this one. */
  lemma LastOfMonth(c: CalendarDate)
    requires ValidDate(c)
    ensures SetDate(FirstOfNextMonth(c), 0)
      == c.(date := DaysInMonth(c.year, c.month), weekday := (c.weekday + DaysLeftInMonth(c)) % 7)
    ensures NextDay(SetDate(FirstOfNextMonth(c), 0)) == FirstOfNextMonth(c)
  {
    var last := AddDays(c, DaysLeftInMonth(c));
    var first := FirstOfNextMonth(c);
    AddDaysWithinMonth(c, DaysLeftInMonth(c));
    SetDateBy(first, 0, -1);
    assert AddDays(first, -1) == PrevDay(first);
    PrevNext(last);
  }

  /** `formatDateTime`'s month names. */
  function MonthNames(): (r: seq<string>)
    ensures |r| == 12
  {
    ["janeiro", "fevereiro", "março", "abril", "maio", "junho",
     "julho", "agosto", "setembro", "outubro", "novembro", "dezembro"]
  }

  /** The date half of `formatDateTime`: "14 de outubro de 2026". */
  function DateText(dt: DateTime): (r: string)
    requires Valid(dt)
    ensures var d, m, y := StringOfNat(dt.cal.date), MonthNames()[dt.cal.month], StringOfInt(dt.cal.year);
      DateLayout(r, d, m, y)
  {
    var d, m, y := StringOfNat(dt.cal.date), MonthNames()[dt.cal.month], StringOfInt(dt.cal.year);
    DateSegments(d, m, y);
    StringOfInt(dt.cal.date) + " de " + m + " de " + y
  }

  /** `t` is `d`, " de ", `m`, " de " and `y`, each at its place. */
  predicate DateLayout(t: string, d: string, m: string, y: string) {
    var n := |d|;
    && |t| == n + 4 + |m| + 4 + |y| && t[0..n] == d && t[n..n + 4] == " de "
    && t[n + 4..n + 4 + |m|] == m && t[n + 4 + |m|..n + 4 + |m| + 4] == " de "
    && t[n + 4 + |m| + 4..] == y
  }

  /** The clock half of `formatDateTime`: each field padded to two digits. */
  function ClockText(h: nat, m: nat, s: nat): (r: string)
    requires h < 100 && m < 100 && s < 100
    ensures |r| == 8 && r[2] == ':' && r[5] == ':'
    ensures forall i :: 0 <= i < 8 && i != 2 && i != 5 ==> IsDigit(r[i])
    ensures DigitsValue(r[0..2]) == h && DigitsValue(r[3..5]) == m && DigitsValue(r[6..8]) == s
  {
    var a, b, c := TwoDigits(h), TwoDigits(m), TwoDigits(s);
    TwoDigitsCorrect(h);
    TwoDigitsCorrect(m);
    TwoDigitsCorrect(s);
    JoinClock(a, b, c);
    a + ":" + b + ":" + c
  }

  /** Joining three two-digit fields with colons puts each at its place in `hh:mm:ss`. */
  lemma JoinClock(a: string, b: string, c: string)
    requires |a| == 2 && |b| == 2 && |c| == 2
    requires IsDigit(a[0]) && IsDigit(a[1]) && IsDigit(b[0]) && IsDigit(b[1])
    requires IsDigit(c[0]) && IsDigit(c[1])
    ensures var r := a + ":" + b + ":" + c;
      && |r| == 8 && r[0..2] == a && r[2] == ':' && r[3..5] == b && r[5] == ':' && r[6..8] == c
      && forall i :: 0 <= i < 8 && i != 2 && i != 5 ==> IsDigit(r[i])
  {
    var r := a + ":" + b + ":" + c;
    assert r[0..2] == a;
    assert r[3..5] == b;
    assert r[6..8] == c;
    forall i | 0 <= i < 8 && i != 2 && i != 5 ensures IsDigit(r[i]) {
      if i < 2 {
        assert r[i] == a[i];
      } else if i < 5 {
        assert r[i] == b[i - 3];
      } else {
        assert r[i] == c[i - 6];
      }
    }
  }

  /** `formatDateTime`: "14 de outubro de 2026, 09:05:00". */
  function FormatDateTime(dt: DateTime): (r: string)
    requires Valid(dt)
    ensures |r| >= 8 && r[|r| - 8..] == ClockText(dt.clock.hours, dt.clock.minutes, dt.clock.seconds)
  {
    DateText(dt) + ", " + ClockText(dt.clock.hours, dt.clock.minutes, dt.clock.seconds)
  }

  /** The formatted text ends with the clock as `hh:mm:ss`, each part reading back as its field. */
  lemma FormatDateTimeClock(dt: DateTime)
    requires Valid(dt)
    ensures var r := FormatDateTime(dt);
      && r[|r| - 6] == ':' && r[|r| - 3] == ':'
      && DigitsValue(r[|r| - 8..|r| - 6]) == dt.clock.hours
      && DigitsValue(r[|r| - 5..|r| - 3]) == dt.clock.minutes
      && DigitsValue(r[|r| - 2..]) == dt.clock.seconds
  {
    var r := FormatDateTime(dt);
    var c := r[|r| - 8..];
    assert r[|r| - 8..|r| - 6] == c[0..2];
    assert r[|r| - 5..|r| - 3] == c[3..5];
    assert r[|r| - 2..] == c[6..8];
  }

  /** The date half opens the formatted text. */
  lemma DateTextPrefix(dt: DateTime)
    requires Valid(dt)
    ensures var r, t := FormatDateTime(dt), DateText(dt); |t| <= |r| && r[..|t|] == t
  {
    var t := DateText(dt);
    var k := ClockText(dt.clock.hours, dt.clock.minutes, dt.clock.seconds);
    TakeConcat(t + ", ", k, |t|);
    TakeConcat(t, ", ", |t|);
  }

  /** Where the day, the month and the separators sit in `d + " de " + m + " de " + y`. */
  lemma DateSegments(d: string, m: string, y: string)
    ensures DateLayout(d + " de " + m + " de " + y, d, m, y)
  {
    var t, n := d + " de " + m + " de " + y, |d|;
    assert t[0..n] == d;
    assert t[n..n + 4] == " de ";
    assert t[n + 4..n + 4 + |m|] == m;
    assert t[n + 4 + |m|..n + 4 + |m| + 4] == " de ";
    assert t[n + 4 + |m| + 4..] == y;
  }

  /** In `t + ", " + k`, the text `t` is followed by ", " and then `k`. */
  lemma CommaSegments(t: string, k: string)
    ensures var r := t + ", " + k;
      |r| == |t| + 2 + |k| && r[..|t|] == t && r[|t|..|t| + 2] == ", " && r[|t| + 2..] == k
  {
    var r := t + ", " + k;
    assert r[..|t|] == t;
    assert r[|t|..|t| + 2] == ", ";
    assert r[|t| + 2..] == k;
  }

  /** A slice inside a prefix is the same slice of the prefix. */
  lemma PrefixSlice(r: string, t: string, i: nat, j: nat)
    requires |t| <= |r| && r[..|t|] == t && i <= j <= |t|
    ensures r[i..j] == t[i..j]
  {
    assert forall k :: i <= k < j ==> r[k] == r[..|t|][k];
  }

  /** The formatted text opens with the day of the month in decimal, followed by " de ". */
  lemma FormatDateTimeDay(dt: DateTime)
    requires Valid(dt)
    ensures var r := FormatDateTime(dt); var n := |StringOfNat(dt.cal.date)|;
      && n + 4 <= |r|
      && (forall i :: 0 <= i < n ==> IsDigit(r[i]))
      && DigitsValue(r[..n]) == dt.cal.date
      && r[n..n + 4] == " de "
  {
    StringOfNatRoundTrip(dt.cal.date);
    var r, t := FormatDateTime(dt), DateText(dt);
    var d := StringOfNat(dt.cal.date);
    var n := |d|;
    DateTextPrefix(dt);
    PrefixSlice(r, t, 0, n);
    PrefixSlice(r, t, n, n + 4);
    assert r[..n] == r[0..n];
    assert forall i :: 0 <= i < n ==> r[i] == d[i];
  }

  /** After the day and " de " comes the name of the 0-based month, then " de " again. */
  lemma FormatDateTimeMonth(dt: DateTime)
    requires Valid(dt)
    ensures var r := FormatDateTime(dt); var n := |StringOfNat(dt.cal.date)|;
      var m := MonthNames()[dt.cal.month];
      && n + 4 + |m| + 4 <= |r|
      && r[n + 4..n + 4 + |m|] == m
      && r[n + 4 + |m|..n + 4 + |m| + 4] == " de "
  {
    var r, t := FormatDateTime(dt), DateText(dt);
    var d := StringOfNat(dt.cal.date);
    var m := MonthNames()[dt.cal.month];
    var n := |d|;
    DateTextPrefix(dt);
    PrefixSlice(r, t, n + 4, n + 4 + |m|);
    PrefixSlice(r, t, n + 4 + |m|, n + 4 + |m| + 4);
  }

  /**
   * After the second " de " come the year in decimal and ", ", and then the
   * clock: together with the lemmas above, this places every part of the text.
   */
  lemma FormatDateTimeYear(dt: DateTime)
    requires Valid(dt)
    ensures var r := FormatDateTime(dt); var n := |StringOfNat(dt.cal.date)|;
      var m, y := MonthNames()[dt.cal.month], StringOfInt(dt.cal.year);
      var i := n + 4 + |m| + 4;
      && i + |y| + 2 + 8 == |r|
      && r[i..i + |y|] == y
      && r[i + |y|..i + |y| + 2] == ", "
  {
    var t := DateText(dt);
    var k := ClockText(dt.clock.hours, dt.clock.minutes, dt.clock.seconds);
    var r := FormatDateTime(dt);
    var n := |StringOfNat(dt.cal.date)|;
    var m, y := MonthNames()[dt.cal.month], StringOfInt(dt.cal.year);
    var i := n + 4 + |m| + 4;
    CommaSegments(t, k);
    assert r == t + ", " + k;
    PrefixSlice(r, t, i, i + |y|);
  }

  lemma TakeConcat(a: string, b: string, k: nat)
    requires k <= |a|
    ensures (a + b)[..k] == a[..k]
  {
  }
}

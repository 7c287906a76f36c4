/** Seconds since 1970 from a date and time, by loops over years and months, and what they count. */
module Calendar {
  import opened Common

  datatype Date = Date(year: nat, month: nat, day: nat)
  datatype Time = Time(hour: nat, minute: nat, second: nat)

  predicate Leap(year: nat) { (year % 4 == 0 && year % 100 != 0) || year % 400 == 0 }

  function DaysInYear(year: nat): nat { if Leap(year) then 366 else 365 }

  /** The month lengths, January at 0. */
  const DAYS: seq<nat> := [31, 28, 31, 30, 31, 30, 31, 31, 30, 31, 30, 31]

  function DaysInMonth(year: nat, month: nat): nat
    requires month < 12
  {
    if month == 1 && Leap(year) then 29 else DAYS[month]
  }

  predicate ValidDate(d: Date) {
    d.year >= 1970 && 1 <= d.month <= 12 && 1 <= d.day <= DaysInMonth(d.year, d.month - 1)
  }

  predicate ValidTime(t: Time) { t.hour < 24 && t.minute < 60 && t.second < 60 }

  // ----- The day count in closed form --------------------------------------------------------------

  /** Days before a year, in the Gregorian calendar run back to year 1. */
  function YearDays(year: nat): int { 365 * (year - 1) + (year - 1) / 4 - (year - 1) / 100 + (year - 1) / 400 }

  /** Days of a year before a month. */
  function MonthDays(year: nat, month: nat): int {
    (367 * month - 362) / 12 - if month <= 2 then 0 else if Leap(year) then 1 else 2
  }

  /** The number of a day since 1 January 1970. */
  function DayNumber(d: Date): int { YearDays(d.year) - YearDays(1970) + MonthDays(d.year, d.month) + d.day - 1 }

  function SecondOfDay(t: Time): nat { t.hour * 3600 + t.minute * 60 + t.second }

  predicate Divides(k: nat, year: int)
    requires k > 0
  {
    year % k == 0
  }

  lemma Fours(year: nat)
    ensures year / 4 == (year - 1) / 4 + if Divides(4, year) then 1 else 0
  {
  }

  lemma Hundreds(year: nat)
    ensures year / 100 == (year - 1) / 100 + if Divides(100, year) then 1 else 0
  {
  }

  lemma FourHundreds(year: nat)
    ensures year / 400 == (year - 1) / 400 + if Divides(400, year) then 1 else 0
  {
  }

  lemma HundredIsFours(year: nat)
    ensures Divides(100, year) ==> Divides(4, year)
  {
    if Divides(100, year) { FourTimes(year, 25 * (year / 100)); }
  }

  lemma FourTimes(year: int, n: int)
    requires year == 4 * n
    ensures Divides(4, year)
  {
  }

  lemma HundredTimes(year: int, n: int)
    requires year == 100 * n
    ensures Divides(100, year)
  {
  }

  lemma FourHundredIsHundreds(year: nat)
    ensures Divides(400, year) ==> Divides(100, year)
  {
    if Divides(400, year) { HundredTimes(year, 4 * (year / 400)); }
  }

  lemma LeapDay(year: nat, four: int, hundred: int, fourHundred: int)
    requires four == if Divides(4, year) then 1 else 0
    requires hundred == if Divides(100, year) then 1 else 0
    requires fourHundred == if Divides(400, year) then 1 else 0
    ensures DaysInYear(year) == 365 + four - hundred + fourHundred
  {
    HundredIsFours(year);
    FourHundredIsHundreds(year);
  }

  /** The closed form grows by the length of each year. */
  lemma YearStep(year: nat)
    requires year >= 1
    ensures YearDays(year + 1) == YearDays(year) + DaysInYear(year)
  {
    var four, hundred, fourHundred := year / 4 - (year - 1) / 4, year / 100 - (year - 1) / 100,
      year / 400 - (year - 1) / 400;
    Fours(year);
    Hundreds(year);
    FourHundreds(year);
    LeapDay(year, four, hundred, fourHundred);
  }

  lemma MonthStep(year: nat, month: nat)
    requires 1 <= month <= 12
    ensures MonthDays(year, month + 1) == MonthDays(year, month) + DaysInMonth(year, month - 1)
    ensures month == 1 ==> MonthDays(year, month) == 0
    ensures month == 12 ==> MonthDays(year, month + 1) == DaysInYear(year)
  {
  }

  // ----- The loops ---------------------------------------------------------------------------------

  /** The year the first loop ends with: none before 1970 counts. */
  function Since1970(year: nat): nat { if year < 1970 then 1970 else year }

  method AddYears(to: nat) returns (res: nat)
    ensures res == Wrapped(86400 * (YearDays(Since1970(to)) - YearDays(1970)))
  {
    res := 0;
    var year := 1970;
    while year < to
      invariant 1970 <= year <= Since1970(to)
      invariant res == Wrapped(86400 * (YearDays(year) - YearDays(1970)))
    {
      YearStep(year);
      ghost var x := 86400 * (YearDays(year) - YearDays(1970));
      res := AddSeconds(res, DaysInYear(year) * 86400, x, 86400 * (YearDays(year + 1) - YearDays(1970)));
      year := year + 1;
    }
  }

  method AddMonths(base: nat, year: nat, to: nat, ghost x: int) returns (res: nat)
    requires 1 <= to <= 12 && base == Wrapped(x)
    ensures res == Wrapped(x + 86400 * MonthDays(year, to))
  {
    res := base;
    MonthStep(year, 1);
    for month := 0 to to - 1
      invariant res == Wrapped(x + 86400 * MonthDays(year, month + 1))
    {
      MonthStep(year, month + 1);
      ghost var y := x + 86400 * MonthDays(year, month + 1);
      res := AddSeconds(res, DaysInMonth(year, month) * 86400, y, x + 86400 * MonthDays(year, month + 2));
    }
  }

  method AddTime(base: nat, t: Time, ghost x: int) returns (res: nat)
    requires base == Wrapped(x)
    ensures res == Wrapped(x + SecondOfDay(t))
  {
    ghost var h, m := x + t.hour * 3600, x + t.hour * 3600 + t.minute * 60;
    res := AddSeconds(base, t.hour * 3600, x, h);
    res := AddSeconds(res, t.minute * 60, h, m);
    res := AddSeconds(res, t.second, m, x + SecondOfDay(t));
  }

  /** One of the additions, modulo 2^64. */
  method AddSeconds(base: nat, n: int, ghost x: int, ghost y: int) returns (res: nat)
    requires base == Wrapped(x) && y == x + n
    ensures res == Wrapped(y)
  {
    AddWrapped(x, n);
    res := Wrapped(base + n);
  }

  /** What is counted for any date with a month; before 1970 and for a day outside the month it is no date's. */
  ghost function Elapsed(d: Date, t: Time): int {
    86400 * (YearDays(Since1970(d.year)) - YearDays(1970) + MonthDays(d.year, d.month) + d.day - 1) + SecondOfDay(t)
  }

  /** Main result: datetime_to_timestamp gives 86400 times the day number plus the second of the day, modulo
      2^64. */
  method DateTimeToTimestamp(d: Date, t: Time) returns (res: nat)
    requires 1 <= d.month <= 12
    ensures res == Wrapped(Elapsed(d, t)) && (ValidDate(d) ==> res == Wrapped(Timestamp(d, t)))
  {
    var years := AddYears(d.year);
    ghost var x := 86400 * (YearDays(Since1970(d.year)) - YearDays(1970));
    res := AddMonths(years, d.year, d.month, x);
    x := x + 86400 * MonthDays(d.year, d.month);
    res := AddSeconds(res, (d.day - 1) * 86400, x, x + (d.day - 1) * 86400);
    res := AddTime(res, t, x + (d.day - 1) * 86400);
  }

  // ----- What it counts ----------------------------------------------------------------------------

  ghost function Timestamp(d: Date, t: Time): int { 86400 * DayNumber(d) + SecondOfDay(t) }

  predicate EarlierDate(a: Date, b: Date) {
    a.year < b.year || (a.year == b.year && (a.month < b.month || (a.month == b.month && a.day < b.day)))
  }

  predicate EarlierTime(a: Time, b: Time) {
    a.hour < b.hour || (a.hour == b.hour && (a.minute < b.minute || (a.minute == b.minute && a.second < b.second)))
  }

  lemma {:induction false} YearsGrow(a: nat, b: nat)
    requires 1 <= a <= b
    ensures YearDays(a) <= YearDays(b) && (a < b ==> YearDays(a) + DaysInYear(a) <= YearDays(b))
    decreases b
  {
    if a < b {
      YearsGrow(a, b - 1);
      YearStep(b - 1);
    }
  }

  lemma {:induction false} MonthsGrow(year: nat, a: nat, b: nat)
    requires 1 <= a < b <= 13
    ensures MonthDays(year, a) + DaysInMonth(year, a - 1) <= MonthDays(year, b)
    decreases b
  {
    MonthStep(year, b - 1);
    if a < b - 1 { MonthsGrow(year, a, b - 1); }
  }

  /** A day lies in its year. */
  lemma WithinYear(d: Date)
    requires ValidDate(d)
    ensures 0 <= MonthDays(d.year, d.month) + d.day - 1 < DaysInYear(d.year)
  {
    MonthStep(d.year, 1);
    MonthStep(d.year, 12);
    MonthsGrow(d.year, d.month, 13);
    if d.month > 1 { MonthsGrow(d.year, 1, d.month); }
  }

  lemma DayNumbersGrow(a: Date, b: Date)
    requires ValidDate(a) && ValidDate(b) && EarlierDate(a, b)
    ensures DayNumber(a) < DayNumber(b)
  {
    if a.year < b.year {
      YearsGrow(a.year, b.year);
      WithinYear(a);
      WithinYear(b);
    } else if a.month < b.month {
      MonthsGrow(a.year, a.month, b.month);
    }
  }

  lemma SecondsGrow(a: Time, b: Time)
    requires ValidTime(a) && ValidTime(b)
    ensures EarlierTime(a, b) ==> SecondOfDay(a) < SecondOfDay(b)
    ensures SecondOfDay(a) < 86400
  {
  }

  /** Main result: a later date or time has a greater timestamp. */
  lemma TimestampsGrow(a: Date, s: Time, b: Date, t: Time)
    requires ValidDate(a) && ValidTime(s) && ValidDate(b) && ValidTime(t)
    requires EarlierDate(a, b) || (a == b && EarlierTime(s, t))
    ensures Timestamp(a, s) < Timestamp(b, t)
  {
    SecondsGrow(s, t);
    if EarlierDate(a, b) { DayNumbersGrow(a, b); }
  }

  /** Main result: different dates or times have different timestamps. */
  lemma TimestampsDiffer(a: Date, s: Time, b: Date, t: Time)
    requires ValidDate(a) && ValidTime(s) && ValidDate(b) && ValidTime(t) && Timestamp(a, s) == Timestamp(b, t)
    ensures a == b && s == t
  {
    if EarlierDate(a, b) || (a == b && EarlierTime(s, t)) { TimestampsGrow(a, s, b, t); }
    if EarlierDate(b, a) || (a == b && EarlierTime(t, s)) { TimestampsGrow(b, t, a, s); }
    assert EarlierDate(a, b) || EarlierDate(b, a) || a == b;
    assert EarlierTime(s, t) || EarlierTime(t, s) || s == t;
  }

  function NextDay(d: Date): (r: Date)
    requires ValidDate(d)
    ensures ValidDate(r) && EarlierDate(d, r)
  {
    if d.day < DaysInMonth(d.year, d.month - 1) then d.(day := d.day + 1)
    else if d.month < 12 then Date(d.year, d.month + 1, 1)
    else Date(d.year + 1, 1, 1)
  }

  /** The next day of the calendar has the next number. */
  lemma NextDayIsNext(d: Date)
    requires ValidDate(d)
    ensures DayNumber(NextDay(d)) == DayNumber(d) + 1
  {
    MonthStep(d.year, d.month);
    MonthStep(d.year + 1, 1);
    YearStep(d.year);
  }

  lemma {:induction false} DateOfDay(n: nat) returns (d: Date)
    ensures ValidDate(d) && DayNumber(d) == n
  {
    if n == 0 {
      d := Date(1970, 1, 1);
      MonthStep(1970, 1);
    } else {
      var e := DateOfDay(n - 1);
      d := NextDay(e);
      NextDayIsNext(e);
    }
  }

  /** Main result: every number of seconds is the timestamp of a valid date and time; by `TimestampsDiffer`,
      of exactly one. */
  lemma EverySecond(n: nat) returns (d: Date, t: Time)
    ensures ValidDate(d) && ValidTime(t) && Timestamp(d, t) == n
  {
    d := DateOfDay(n / 86400);
    var s := n % 86400;
    t := Time(s / 3600, s % 3600 / 60, s % 60);
  }

  /** The last second 64 bits can count. */
  const LAST_DATE := Date(584554051223, 11, 9)
  const LAST_TIME := Time(7, 0, 15)

  predicate UpToLast(d: Date, t: Time) {
    EarlierDate(d, LAST_DATE) || (d == LAST_DATE && (EarlierTime(t, LAST_TIME) || t == LAST_TIME))
  }

  lemma LastSecond()
    ensures ValidDate(LAST_DATE) && ValidTime(LAST_TIME)
    ensures Timestamp(LAST_DATE, LAST_TIME) == 0xffff_ffff_ffff_ffff
  {
  }

  lemma NotBeforeEpoch(d: Date, t: Time)
    requires ValidDate(d) && ValidTime(t)
    ensures Timestamp(d, t) >= 0
  {
    WithinYear(d);
    YearsGrow(1970, d.year);
  }

  /** Main result: the counter holds the timestamp itself exactly up to that second. */
  lemma TimestampFitsIff(d: Date, t: Time)
    requires ValidDate(d) && ValidTime(t)
    ensures Wrapped(Timestamp(d, t)) == Timestamp(d, t) <==> UpToLast(d, t)
  {
    NotBeforeEpoch(d, t);
    SmallWrapped(Timestamp(d, t));
    UpToLastIff(d, t);
  }

  lemma UpToLastIff(d: Date, t: Time)
    requires ValidDate(d) && ValidTime(t)
    ensures Timestamp(d, t) <= 0xffff_ffff_ffff_ffff <==> UpToLast(d, t)
  {
    LastSecond();
    assert EarlierDate(d, LAST_DATE) || EarlierDate(LAST_DATE, d) || d == LAST_DATE;
    assert EarlierTime(t, LAST_TIME) || EarlierTime(LAST_TIME, t) || t == LAST_TIME;
    if EarlierDate(d, LAST_DATE) || (d == LAST_DATE && EarlierTime(t, LAST_TIME)) {
      TimestampsGrow(d, t, LAST_DATE, LAST_TIME);
    } else if d != LAST_DATE || t != LAST_TIME {
      TimestampsGrow(LAST_DATE, LAST_TIME, d, t);
    }
  }
}

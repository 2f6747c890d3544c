/** Time in nanoseconds since the Unix epoch, its UTC calendar rendering, and the names of scheduled
    Backups, which embed that rendering. */
module Calendar {
  import opened Prelude

  const SECOND := 1_000_000_000
  const MINUTE := 60 * SECOND
  const DAY := 1440 * MINUTE

  /** Days from 1 January of year 0 to 1 January 1970 in the proleptic Gregorian calendar. */
  const EPOCH_DAY := DaysBefore(1970)

  predicate Leap(year: int) {
    year % 4 == 0 && (year % 100 != 0 || year % 400 == 0)
  }

  /** Days from 1 January of year 0 to 1 January of the given year. */
  function DaysBefore(year: int): int {
    365 * year + (year + 3) / 4 - (year + 99) / 100 + (year + 399) / 400
  }

  lemma YearLength(year: int)
    ensures DaysBefore(year + 1) == DaysBefore(year) + if Leap(year) then 366 else 365
  {
    assert (year + 4) / 4 - (year + 3) / 4 == if year % 4 == 0 then 1 else 0;
    assert (year + 100) / 100 - (year + 99) / 100 == if year % 100 == 0 then 1 else 0;
    assert (year + 400) / 400 - (year + 399) / 400 == if year % 400 == 0 then 1 else 0;
  }

  /** The year, at or after the given one, that contains a day. */
  function YearFrom(year: int, day: int): (y: int)
    requires DaysBefore(year) <= day
    ensures year <= y && DaysBefore(y) <= day < DaysBefore(y + 1)
    decreases day - DaysBefore(year)
  {
    YearLength(year);
    if day < DaysBefore(year + 1) then year else YearFrom(year + 1, day)
  }

  /** Days of a common year before each month. */
  const CUMULATIVE: seq<int> := [0, 31, 59, 90, 120, 151, 181, 212, 243, 273, 304, 334]

  function DaysBeforeMonth(month: int, leap: bool): int
    requires 1 <= month <= 12
  {
    CUMULATIVE[month - 1] + if leap && month > 2 then 1 else 0
  }

  /** The month, at or after the given one, that contains a day of the year. */
  function MonthFrom(month: int, dayOfYear: int, leap: bool): (m: int)
    requires 1 <= month <= 12 && DaysBeforeMonth(month, leap) <= dayOfYear < if leap then 366 else 365
    ensures month <= m <= 12 && DaysBeforeMonth(m, leap) <= dayOfYear
    ensures dayOfYear < DaysBeforeMonth(m, leap) + 31
    decreases 12 - month
  {
    if month == 12 || dayOfYear < DaysBeforeMonth(month + 1, leap) then month
    else MonthFrom(month + 1, dayOfYear, leap)
  }

  datatype Civil = Civil(year: int, month: int, day: int, hour: int, minute: int)
  {
    predicate Valid() {
      && 0 <= year <= 9999 && 1 <= month <= 12 && 1 <= day <= 31 && 0 <= hour < 24 && 0 <= minute < 60
    }
  }

  /** The instants whose UTC year has four digits. */
  predicate Renderable(t: int) {
    0 <= t / DAY + EPOCH_DAY < DaysBefore(10_000)
  }

  lemma YearsIncrease(a: int, b: int)
    requires a <= b
    ensures DaysBefore(a) <= DaysBefore(b)
    decreases b - a
  {
    if a < b {
      YearLength(a);
      YearsIncrease(a + 1, b);
    }
  }

  /** The UTC calendar reading of an instant, seconds dropped. */
  function ToCivil(t: int): (c: Civil)
    requires Renderable(t)
    ensures c.Valid()
  {
    var day := t / DAY + EPOCH_DAY;
    var year := YearFrom(0, day);
    YearLength(year);
    var leap := Leap(year);
    var dayOfYear := day - DaysBefore(year);
    var month := MonthFrom(1, dayOfYear, leap);
    var minuteOfDay := t % DAY / MINUTE;
    assert year <= 9999 by {
      if year >= 10_000 { YearsIncrease(10_000, year); }
    }
    Civil(year, month, dayOfYear - DaysBeforeMonth(month, leap) + 1, minuteOfDay / 60, minuteOfDay % 60)
  }

  /** The first instant of a calendar minute. */
  function FromCivil(c: Civil): int
    requires 1 <= c.month <= 12
  {
    var day := DaysBefore(c.year) + DaysBeforeMonth(c.month, Leap(c.year)) + c.day - 1 - EPOCH_DAY;
    day * DAY + (c.hour * 60 + c.minute) * MINUTE
  }

  /** An instant on a whole minute is its day plus its minute of the day. */
  lemma SplitDay(t: int)
    requires t % MINUTE == 0
    ensures t == t / DAY * DAY + t % DAY / MINUTE * MINUTE
  {
    var q := t / MINUTE;
    var day, minute := q / 1440, q % 1440;
    assert t == q * MINUTE;
    assert t == day * DAY + minute * MINUTE;
    assert 0 <= minute * MINUTE < DAY;
    assert t / DAY == day && t % DAY == minute * MINUTE;
  }

  lemma CivilRoundTrip(t: int)
    requires Renderable(t) && t % MINUTE == 0
    ensures FromCivil(ToCivil(t)) == t
  {
    hide DaysBefore, DaysBeforeMonth, YearFrom, MonthFrom, Leap, Renderable;
    SplitDay(t);
    var c := ToCivil(t);
    assert c.hour * 60 + c.minute == t % DAY / MINUTE;
    assert DaysBefore(c.year) + DaysBeforeMonth(c.month, Leap(c.year)) + c.day - 1 == t / DAY + EPOCH_DAY;
  }

  // ---------------------------------------------------------------------------------------------
  // The reading is the Gregorian calendar's
  // ---------------------------------------------------------------------------------------------

  function DaysIn(year: int, month: int): int {
    if month == 2 then (if year % 400 == 0 || (year % 4 == 0 && year % 100 != 0) then 29 else 28)
    else if month in {4, 6, 9, 11} then 30
    else 31
  }

  /** The calendar minute after a given one. */
  function NextMinute(c: Civil): Civil {
    if c.minute < 59 then c.(minute := c.minute + 1)
    else if c.hour < 23 then c.(hour := c.hour + 1, minute := 0)
    else if c.day < DaysIn(c.year, c.month) then c.(day := c.day + 1, hour := 0, minute := 0)
    else if c.month < 12 then Civil(c.year, c.month + 1, 1, 0, 0)
    else Civil(c.year + 1, 1, 1, 0, 0)
  }

  lemma YearIs(year: int, day: int)
    requires 0 <= year && DaysBefore(year) <= day < DaysBefore(year + 1)
    ensures YearFrom(0, day) == year
  {
    YearsIncrease(0, year);
    var y := YearFrom(0, day);
    if y < year {
      YearsIncrease(y + 1, year);
    } else if year < y {
      YearsIncrease(year + 1, y);
    }
  }

  lemma MonthsIncrease(a: int, b: int, leap: bool)
    requires 1 <= a <= b <= 12
    ensures DaysBeforeMonth(a, leap) <= DaysBeforeMonth(b, leap)
    decreases b - a
  {
    if a < b {
      MonthsIncrease(a + 1, b, leap);
    }
  }

  lemma MonthIs(month: int, dayOfYear: int, leap: bool)
    requires 1 <= month <= 12 && DaysBeforeMonth(month, leap) <= dayOfYear < if leap then 366 else 365
    requires month < 12 ==> dayOfYear < DaysBeforeMonth(month + 1, leap)
    ensures 0 <= dayOfYear && MonthFrom(1, dayOfYear, leap) == month
  {
    hide DaysBeforeMonth, MonthFrom;
    assert DaysBeforeMonth(1, leap) == 0 by { FirstMonth(leap); }
    MonthsIncrease(1, month, leap);
    var m := MonthFrom(1, dayOfYear, leap);
    MonthFromEnds(1, dayOfYear, leap);
    if m < month {
      MonthsIncrease(m + 1, month, leap);
    } else if month < m {
      MonthsIncrease(month + 1, m, leap);
    }
  }

  lemma {:induction false} MonthFromEnds(month: int, dayOfYear: int, leap: bool)
    requires 1 <= month <= 12 && DaysBeforeMonth(month, leap) <= dayOfYear < if leap then 366 else 365
    ensures var m := MonthFrom(month, dayOfYear, leap);
            m < 12 ==> dayOfYear < DaysBeforeMonth(m + 1, leap)
    decreases 12 - month
  {
    hide DaysBeforeMonth;
    if month < 12 && DaysBeforeMonth(month + 1, leap) <= dayOfYear {
      MonthFromEnds(month + 1, dayOfYear, leap);
    }
  }

  lemma FirstMonth(leap: bool)
    ensures DaysBeforeMonth(1, leap) == 0
  {
  }

  lemma MonthLength(year: int, month: int)
    requires 1 <= month <= 12
    ensures DaysIn(year, month) ==
            (if month < 12 then DaysBeforeMonth(month + 1, Leap(year)) else if Leap(year) then 366 else 365)
            - DaysBeforeMonth(month, Leap(year))
  {
  }

  /** The date part of a calendar reading. */
  predicate IsDate(day: int, year: int, month: int, dayOfMonth: int) {
    && 0 <= year && 1 <= month <= 12 && 1 <= dayOfMonth <= DaysIn(year, month)
    && day == DaysBefore(year) + DaysBeforeMonth(month, Leap(year)) + dayOfMonth - 1
  }

  /** A reading is the date of its day and the minute of the day. */
  predicate Reads(t: int, c: Civil) {
    && IsDate(t / DAY + EPOCH_DAY, c.year, c.month, c.day)
    && 0 <= c.minute < 60 && c.hour * 60 + c.minute == t % DAY / MINUTE
  }

  lemma CivilReads(t: int, c: Civil)
    requires Renderable(t)
    ensures Reads(t, c) <==> c == ToCivil(t)
  {
    hide DaysBeforeMonth, MonthFrom, YearFrom, DaysBefore, DaysIn, Leap, IsDate;
    var day, d := t / DAY + EPOCH_DAY, ToCivil(t);
    YearLength(d.year);
    DateReads(day, d.year, d.month, d.day);
    if IsDate(day, c.year, c.month, c.day) {
      DateDetermines(day, c.year, c.month, c.day);
    }
  }

  lemma DateReads(day: int, year: int, month: int, dayOfMonth: int)
    requires 0 <= day
    requires year == YearFrom(0, day)
    requires var leap, dayOfYear := Leap(year), day - DaysBefore(year);
             && dayOfYear < (if leap then 366 else 365)
             && month == MonthFrom(1, dayOfYear, leap) && dayOfMonth == dayOfYear - DaysBeforeMonth(month, leap) + 1
    ensures IsDate(day, year, month, dayOfMonth)
  {
    hide DaysBeforeMonth, MonthFrom, YearFrom, DaysBefore, DaysIn;
    MonthLength(year, month);
    FirstMonth(Leap(year));
    MonthFromEnds(1, day - DaysBefore(year), Leap(year));
  }

  lemma DateDetermines(day: int, year: int, month: int, dayOfMonth: int)
    requires IsDate(day, year, month, dayOfMonth)
    ensures 0 <= day && YearFrom(0, day) == year
    ensures var leap, dayOfYear := Leap(year), day - DaysBefore(year);
            && 0 <= dayOfYear < (if leap then 366 else 365)
            && MonthFrom(1, dayOfYear, leap) == month && dayOfMonth == dayOfYear - DaysBeforeMonth(month, leap) + 1
  {
    hide DaysBeforeMonth, MonthFrom, YearFrom, DaysBefore, DaysIn;
    var leap, dayOfYear := Leap(year), day - DaysBefore(year);
    MonthLength(year, month);
    FirstMonth(leap);
    MonthsIncrease(1, month, leap);
    if month < 12 {
      MonthsIncrease(month + 1, 12, leap);
      LastMonth(year);
    }
    YearLength(year);
    YearsIncrease(0, year);
    FirstYear();
    YearIs(year, day);
    MonthIs(month, dayOfYear, leap);
  }

  lemma LastMonth(year: int)
    ensures DaysBeforeMonth(12, Leap(year)) == (if Leap(year) then 366 else 365) - 31
  {
  }

  lemma FirstYear()
    ensures DaysBefore(0) == 0
  {
  }

  lemma NextDate(day: int, year: int, month: int, dayOfMonth: int)
    requires IsDate(day, year, month, dayOfMonth)
    ensures if dayOfMonth < DaysIn(year, month) then IsDate(day + 1, year, month, dayOfMonth + 1)
            else if month < 12 then IsDate(day + 1, year, month + 1, 1)
            else IsDate(day + 1, year + 1, 1, 1)
  {
    hide DaysBeforeMonth, DaysBefore;
    MonthLength(year, month);
    FirstMonth(Leap(year + 1));
    YearLength(year);
  }

  /** The calendar reading is the Gregorian calendar's in UTC: the epoch reads 1 January 1970, midnight, each minute is
      followed by the next one of the calendar, and within a minute nothing changes. */
  lemma CivilIsGregorian(t: int)
    ensures Renderable(0) && ToCivil(0) == Civil(1970, 1, 1, 0, 0)
    ensures Renderable(t) && Renderable(t + MINUTE) ==> ToCivil(t + MINUTE) == NextMinute(ToCivil(t))
    ensures Renderable(t) ==> Renderable(t - t % MINUTE) && ToCivil(t) == ToCivil(t - t % MINUTE)
  {
    hide ToCivil, Renderable, Reads, NextMinute;
    Epoch();
    CivilReads(0, Civil(1970, 1, 1, 0, 0));
    if Renderable(t) {
      CivilReads(t, ToCivil(t));
      SameMinute(t, ToCivil(t));
      CivilReads(t - t % MINUTE, ToCivil(t));
      if Renderable(t + MINUTE) {
        NextReads(t, ToCivil(t));
        CivilReads(t + MINUTE, NextMinute(ToCivil(t)));
      }
    }
  }

  lemma Epoch()
    ensures Renderable(0) && Reads(0, Civil(1970, 1, 1, 0, 0))
  {
  }

  lemma NextReads(t: int, c: Civil)
    requires Reads(t, c)
    ensures Reads(t + MINUTE, NextMinute(c))
  {
    hide IsDate, DaysIn;
    MinuteOfDay(t);
    NextDate(t / DAY + EPOCH_DAY, c.year, c.month, c.day);
  }

  lemma MinuteOfDay(t: int)
    ensures var m := t % DAY / MINUTE;
            if m < 1439 then (t + MINUTE) / DAY == t / DAY && (t + MINUTE) % DAY / MINUTE == m + 1
            else (t + MINUTE) / DAY == t / DAY + 1 && (t + MINUTE) % DAY / MINUTE == 0
  {
    var q, rest := t / DAY, t % DAY;
    var m := rest / MINUTE;
    assert t == q * DAY + rest;
    if m < 1439 {
      assert rest + MINUTE < DAY;
      Divides(t + MINUTE, q, rest + MINUTE);
    } else {
      Divides(t + MINUTE, q + 1, rest + MINUTE - DAY);
    }
  }

  lemma Divides(t: int, q: int, rest: int)
    requires 0 <= rest < DAY && t == q * DAY + rest
    ensures t / DAY == q && t % DAY == rest
  {
  }

  lemma SameMinute(t: int, c: Civil)
    ensures Renderable(t - t % MINUTE) <==> Renderable(t)
    ensures Reads(t - t % MINUTE, c) <==> Reads(t, c)
  {
    hide IsDate, DaysBefore;
    var q, rest := t / DAY, t % DAY;
    var m := rest / MINUTE;
    DividesMinute(t, 1440 * q + m, rest - m * MINUTE);
    Divides(t - t % MINUTE, q, m * MINUTE);
  }

  lemma DividesMinute(t: int, q: int, rest: int)
    requires 0 <= rest < MINUTE && t == q * MINUTE + rest
    ensures t % MINUTE == rest
  {
  }

  // ---------------------------------------------------------------------------------------------
  // Fixed-width rendering
  // ---------------------------------------------------------------------------------------------

  function Digit(n: int): char
    requires 0 <= n <= 9
  {
    '0' + n as char
  }

  function DigitValue(c: char): int {
    c as int - '0' as int
  }

  function Two(n: int): (s: string)
    requires 0 <= n <= 99
    ensures |s| == 2
  {
    [Digit(n / 10), Digit(n % 10)]
  }

  function TwoValue(s: string): int
    requires |s| == 2
  {
    10 * DigitValue(s[0]) + DigitValue(s[1])
  }

  /** The layout "20060102-1504" applied to a calendar reading. */
  function Render(c: Civil): (s: string)
    requires c.Valid()
    ensures |s| == 13
  {
    Two(c.year / 100) + Two(c.year % 100) + Two(c.month) + Two(c.day) + "-" + Two(c.hour) + Two(c.minute)
  }

  function Unrender(s: string): Civil
    requires |s| == 13
  {
    Civil(100 * TwoValue(s[0..2]) + TwoValue(s[2..4]), TwoValue(s[4..6]), TwoValue(s[6..8]),
          TwoValue(s[9..11]), TwoValue(s[11..13]))
  }

  lemma DecimalGrows(s: string, c: char)
    ensures Decimal(s + [c]) == 10 * Decimal(s) + (c as int - '0' as int)
  {
    assert (s + [c])[..|s|] == s;
  }

  lemma TwoReads(n: int)
    requires 0 <= n <= 99
    ensures Decimal(Two(n)) == n && IsDigit(Two(n)[0]) && IsDigit(Two(n)[1])
  {
    hide Decimal;
    DecimalGrows("", Digit(n / 10));
    DecimalGrows([Digit(n / 10)], Digit(n % 10));
    assert "" + [Digit(n / 10)] == [Digit(n / 10)];
    assert Two(n) == [Digit(n / 10)] + [Digit(n % 10)];
    NoDigits();
  }

  lemma NoDigits()
    ensures Decimal("") == 0
  {
  }

  lemma FourRead(a: int, b: int)
    requires 0 <= a <= 99 && 0 <= b <= 99
    ensures Decimal(Two(a) + Two(b)) == 100 * a + b
  {
    hide Decimal;
    var c, d := Digit(b / 10), Digit(b % 10);
    TwoReads(a);
    DecimalGrows(Two(a), c);
    DecimalGrows(Two(a) + [c], d);
    assert Two(a) + Two(b) == Two(a) + [c] + [d];
  }

  /** Four digits of year, two each of month and day, a dash, two digits each of hour and minute. */
  predicate Spells(s: string, c: Civil) {
    && |s| == 13 && s[8] == '-' && (forall i :: 0 <= i < 13 && i != 8 ==> IsDigit(s[i]))
    && Decimal(s[0..4]) == c.year && Decimal(s[4..6]) == c.month && Decimal(s[6..8]) == c.day
    && Decimal(s[9..11]) == c.hour && Decimal(s[11..13]) == c.minute
  }

  lemma RenderSpells(c: Civil)
    requires c.Valid()
    ensures Spells(Render(c), c)
  {
    hide Two, Decimal;
    var s := Render(c);
    var a, b := c.year / 100, c.year % 100;
    TwoReads(a); TwoReads(b); TwoReads(c.month); TwoReads(c.day); TwoReads(c.hour); TwoReads(c.minute);
    FourRead(a, b);
    assert s[0..4] == Two(a) + Two(b);
    assert s[4..6] == Two(c.month);
    assert s[6..8] == Two(c.day);
    assert s[9..11] == Two(c.hour);
    assert s[11..13] == Two(c.minute);
    assert s[0] == Two(a)[0] && s[1] == Two(a)[1] && s[2] == Two(b)[0] && s[3] == Two(b)[1];
    assert s[4] == Two(c.month)[0] && s[5] == Two(c.month)[1] && s[6] == Two(c.day)[0] && s[7] == Two(c.day)[1];
    assert s[9] == Two(c.hour)[0] && s[10] == Two(c.hour)[1] && s[11] == Two(c.minute)[0] && s[12] == Two(c.minute)[1];
  }

  lemma TwoRoundTrip(n: int)
    requires 0 <= n <= 99
    ensures TwoValue(Two(n)) == n
  {
  }

  lemma RenderRoundTrip(c: Civil)
    requires c.Valid()
    ensures Unrender(Render(c)) == c
  {
    var s := Render(c);
    assert s[0..2] == Two(c.year / 100);
    assert s[2..4] == Two(c.year % 100);
    assert s[4..6] == Two(c.month);
    assert s[6..8] == Two(c.day);
    assert s[9..11] == Two(c.hour);
    assert s[11..13] == Two(c.minute);
    TwoRoundTrip(c.year / 100);
    TwoRoundTrip(c.year % 100);
    TwoRoundTrip(c.month);
    TwoRoundTrip(c.day);
    TwoRoundTrip(c.hour);
    TwoRoundTrip(c.minute);
  }

  // ---------------------------------------------------------------------------------------------
  // Names of scheduled Backups
  // ---------------------------------------------------------------------------------------------

  function BackupName(schedule: string, fire: int): string
    requires Renderable(fire)
  {
    schedule + "-" + Render(ToCivil(fire))
  }

  /** Both the schedule's name and the fire minute can be read back from a scheduled Backup's name. */
  lemma BackupNameIsRecoverable(schedule: string, fire: int)
    requires Renderable(fire) && fire % MINUTE == 0
    ensures var name := BackupName(schedule, fire);
            && |name| >= 14
            && name[..|name| - 14] == schedule && name[|name| - 14] == '-'
            && Spells(name[|name| - 13..], ToCivil(fire))
            && Unrender(name[|name| - 13..]) == ToCivil(fire)
            && FromCivil(Unrender(name[|name| - 13..])) == fire
  {
    var c := ToCivil(fire);
    var name := BackupName(schedule, fire);
    assert name[|name| - 13..] == Render(c);
    assert name[..|name| - 14] == schedule;
    RenderSpells(c);
    RenderRoundTrip(c);
    CivilRoundTrip(fire);
  }

  /** Two scheduled Backups share a name only if they belong to the same schedule and fire minute. */
  lemma BackupNamesAreInjective(s1: string, t1: int, s2: string, t2: int)
    requires Renderable(t1) && t1 % MINUTE == 0
    requires Renderable(t2) && t2 % MINUTE == 0
    ensures BackupName(s1, t1) == BackupName(s2, t2) <==> s1 == s2 && t1 == t2
  {
    BackupNameIsRecoverable(s1, t1);
    BackupNameIsRecoverable(s2, t2);
  }
}

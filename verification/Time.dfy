/** Calendar conversion between Unix time and broken-down dates (BAN/BAN/Time.cpp). */
module Time {

  const EPOCH_YEAR := 1970
  const YEAR_LIMIT := 0x1_0000_0000                  // `year` is a 32-bit field
  const SECONDS_LIMIT := 0x1_0000_0000_0000_0000     // times are 64-bit
  const SECONDS_PER_DAY := 86400

  datatype Date = Date(year: nat, month: nat, day: nat, hour: nat, minute: nat, second: nat, weekDay: nat)

  // ---------------------------------------------------------------- reference calendar

  /** The Gregorian rule, stated independently of the source's branch order. */
  predicate Leap(year: int) {
    year % 4 == 0 && (year % 100 != 0 || year % 400 == 0)
  }

  function YearLength(year: int): nat {
    if Leap(year) then 366 else 365
  }

  function MonthLength(year: int, month: int): nat
    requires 1 <= month <= 12
  {
    if month == 2 then (if Leap(year) then 29 else 28)
    else if month in {4, 6, 9, 11} then 30 else 31
  }

  /** Days from the start of `year` to the start of `month`. */
  function MonthStart(year: int, month: int): nat
    requires 1 <= month <= 13
    decreases month
  {
    if month == 1 then 0 else MonthStart(year, month - 1) + MonthLength(year, month - 1)
  }

  /** Days from 1 January 1970 to 1 January of `year`. */
  function YearStart(year: int): nat
    requires year >= EPOCH_YEAR
    decreases year
  {
    if year == EPOCH_YEAR then 0 else YearStart(year - 1) + YearLength(year - 1)
  }

  predicate Valid(d: Date) {
    && EPOCH_YEAR <= d.year < YEAR_LIMIT
    && 1 <= d.month <= 12
    && 1 <= d.day <= MonthLength(d.year, d.month)
    && d.hour < 24 && d.minute < 60 && d.second < 60
  }

  /** The number of days between the epoch and the date. */
  function DayNumber(d: Date): int
    requires d.year >= EPOCH_YEAR && 1 <= d.month <= 12
  {
    YearStart(d.year) + MonthStart(d.year, d.month) + d.day - 1
  }

  function Seconds(d: Date): int
    requires d.year >= EPOCH_YEAR && 1 <= d.month <= 12
  {
    ((DayNumber(d) * 24 + d.hour) * 60 + d.minute) * 60 + d.second
  }

  /** Sunday is 1 and Saturday 7. */
  function NextWeekDay(weekDay: nat): nat {
    if weekDay == 7 then 1 else weekDay + 1
  }

  /** Day 0 was a Thursday. */
  function WeekDay(dayNumber: nat): nat {
    if dayNumber == 0 then 5 else NextWeekDay(WeekDay(dayNumber - 1))
  }

  // ---------------------------------------------------------------- the source

  lemma Centuries(year: nat)
    ensures year % 400 == 0 ==> year % 100 == 0
    ensures year % 100 == 0 ==> year % 4 == 0
  {
    if year % 400 == 0 {
      assert year == 100 * (4 * (year / 400));
    }
    if year % 100 == 0 {
      assert year == 4 * (25 * (year / 100));
    }
  }

  predicate IsLeapYear(year: nat)
    ensures IsLeapYear(year) <==> Leap(year)
  {
    Centuries(year);
    if year % 400 == 0 then true
    else if year % 100 == 0 then false
    else year % 4 == 0
  }

  function MonthDays(month: nat): nat
    requires month < 12
  {
    [0, 31, 59, 90, 120, 151, 181, 212, 243, 273, 304, 334][month]
  }

  /** Leap years in [1970, year): what the counting loop computes. */
  function LeapYears(year: nat): nat {
    if year <= EPOCH_YEAR then 0 else LeapYears(year - 1) + if Leap(year - 1) then 1 else 0
  }

  method LeapDaysSinceEpoch(time: Date) returns (leapYears: nat)
    ensures leapYears == LeapYears(time.year) + if Leap(time.year) && time.month >= 3 then 1 else 0
  {
    leapYears := 0;
    var year := EPOCH_YEAR;
    while year < time.year
      invariant EPOCH_YEAR <= year
      invariant year <= time.year || year == EPOCH_YEAR
      invariant leapYears == LeapYears(year)
    {
      if IsLeapYear(year) {
        leapYears := leapYears + 1;
      }
      year := year + 1;
    }
    if IsLeapYear(time.year) && time.month >= 3 {
      leapYears := leapYears + 1;
    }
  }

  /** The day count the source's formula gives, before the 64-bit truncation. */
  function FormulaDays(d: Date): int
    requires 1 <= d.month <= 12
  {
    (d.year - EPOCH_YEAR) % YEAR_LIMIT * 365 + MonthDays(d.month - 1)
    + LeapYears(d.year) + (if Leap(d.year) && d.month >= 3 then 1 else 0) + d.day - 1
  }

  function FormulaSeconds(d: Date): int
    requires 1 <= d.month <= 12
  {
    ((FormulaDays(d) * 24 + d.hour) * 60 + d.minute) * 60 + d.second
  }

  /** `year - 1970` is taken modulo 2^32, the result modulo 2^64. */
  method ToUnixTime(time: Date) returns (seconds: nat)
    requires 1 <= time.month <= 12
    ensures seconds == FormulaSeconds(time) % SECONDS_LIMIT
    ensures Valid(time) ==> seconds == Seconds(time)
  {
    var years := (time.year - EPOCH_YEAR) % YEAR_LIMIT;
    var leapDays := LeapDaysSinceEpoch(time);
    var days := years * 365 + MonthDays(time.month - 1) + leapDays + (time.day - 1);
    var hours := days * 24 + time.hour;
    var minutes := hours * 60 + time.minute;
    seconds := (minutes * 60 + time.second) % SECONDS_LIMIT;
    if Valid(time) {
      FormulaIsSeconds(time);
    }
  }

  /** The times whose year fits the 32-bit field. */
  predicate YearFits(unixTime: nat) {
    unixTime / SECONDS_PER_DAY < YearStart(YEAR_LIMIT)
  }

  /** A day of the calendar and a time of the day, whatever the year. */
  method FromUnixTime(unixTime: nat) returns (time: Date)
    requires unixTime < SECONDS_LIMIT
    ensures time.year < YEAR_LIMIT && 1 <= time.month <= 12 && 1 <= time.day <= MonthLength(time.year, time.month)
    ensures time.hour < 24 && time.minute < 60 && time.second < 60
    ensures (time.hour * 60 + time.minute) * 60 + time.second == unixTime % SECONDS_PER_DAY
    ensures time.weekDay == WeekDay(unixTime / SECONDS_PER_DAY)
    ensures Valid(time) && Seconds(time) == unixTime <==> YearFits(unixTime)
    // converting back succeeds exactly when the year did not wrap around
    ensures FormulaSeconds(time) % SECONDS_LIMIT == unixTime <==> YearFits(unixTime)
  {
    hide FormulaSeconds;
    hide FormulaDays;
    hide Seconds;
    hide DayNumber;
    hide YearStart;
    hide YearSplit;
    hide MonthStart;
    hide YearLength;
    hide WeekDay;
    var rest := unixTime;
    var second := rest % 60;
    rest := rest / 60;
    var minute := rest % 60;
    rest := rest / 60;
    var hour := rest % 24;
    rest := rest / 24;

    var weekDay := (rest + 4) % 7 + 1;
    WeekDayRepeats(rest);
    ClockSplits(unixTime);

    var year, totalDays := YearOfDay(rest);
    var month, day := MonthOfDay(year, totalDays);
    time := Date(year, month, day, hour, minute, second, weekDay);

    ghost var n: nat, leaps: nat :| YearSplit(rest, year, totalDays, n, leaps);
    WrappedYearLosesDays(rest, time, totalDays, n, leaps);
    BackConversion(unixTime, time);
    ClockOfDay(unixTime, time);
    if Valid(time) {
      FormulaIsSeconds(time);
      SmallRemainder(Seconds(time));
    }
  }

  lemma SmallRemainder(n: int)
    requires 0 <= n < SECONDS_LIMIT
    ensures n % SECONDS_LIMIT == n
  {
  }

  lemma ClockOfDay(unixTime: nat, time: Date)
    requires time.hour == unixTime / 60 / 60 % 24 && time.minute == unixTime / 60 % 60 && time.second == unixTime % 60
    ensures (time.hour * 60 + time.minute) * 60 + time.second == unixTime % SECONDS_PER_DAY
  {
    ClockSplits(unixTime);
  }

  /** The year loop: `n` years and `leaps` leap days are consumed; `year` wraps at 2^32. */
  ghost predicate YearSplit(days: nat, year: nat, totalDays: nat, n: nat, leaps: nat) {
    && days == n * 365 + leaps + totalDays
    && year == (EPOCH_YEAR + n) % YEAR_LIMIT
    && (EPOCH_YEAR + n < YEAR_LIMIT ==> leaps == LeapYears(year))
    && (EPOCH_YEAR + n >= YEAR_LIMIT ==> leaps >= LeapYears(YEAR_LIMIT))
  }

  method YearOfDay(days: nat) returns (year: nat, totalDays: nat)
    ensures year < YEAR_LIMIT && totalDays < YearLength(year)
    ensures exists n: nat, leaps: nat :: YearSplit(days, year, totalDays, n, leaps)
  {
    hide LeapYears;
    hide YearSplit;
    totalDays := days;
    year := EPOCH_YEAR;
    YearsBegin(days);
    ghost var n: nat, leaps: nat := 0, 0;
    while totalDays >= 365 + (if IsLeapYear(year) then 1 else 0)
      invariant year < YEAR_LIMIT && YearSplit(days, year, totalDays, n, leaps)
      decreases totalDays
    {
      YearStep(days, year, totalDays, n, leaps);
      totalDays := totalDays - (365 + if IsLeapYear(year) then 1 else 0);
      n, leaps := n + 1, leaps + if IsLeapYear(year) then 1 else 0;
      year := (year + 1) % YEAR_LIMIT;
    }
  }

  lemma YearsBegin(days: nat)
    ensures YearSplit(days, EPOCH_YEAR, days, 0, 0)
  {
  }

  /** One round of the year loop. */
  lemma YearStep(days: nat, year: nat, totalDays: nat, n: nat, leaps: nat)
    requires YearSplit(days, year, totalDays, n, leaps) && YearLength(year) <= totalDays
    ensures YearSplit(days, (year + 1) % YEAR_LIMIT, totalDays - YearLength(year), n + 1, leaps + if Leap(year) then 1 else 0)
  {
    hide LeapYears;
    hide Leap;
    LeapYearsNext(year);
    NextYear(EPOCH_YEAR + n);
  }

  lemma LeapYearsNext(year: nat)
    ensures EPOCH_YEAR <= year ==> LeapYears(year + 1) == LeapYears(year) + if Leap(year) then 1 else 0
  {
  }

  lemma NextYear(y: nat)
    ensures (y % YEAR_LIMIT + 1) % YEAR_LIMIT == (y + 1) % YEAR_LIMIT
    ensures y < YEAR_LIMIT ==> y % YEAR_LIMIT == y
  {
  }

  method MonthOfDay(year: nat, totalDays: nat) returns (month: nat, day: nat)
    requires totalDays < YearLength(year)
    ensures 1 <= month <= 12
    ensures 1 <= day <= MonthLength(year, month)
    ensures totalDays == MonthStart(year, month) + day - 1
  {
    var isLeapDay := IsLeapYear(year) && totalDays == MonthDays(2);
    var hadLeapDay := IsLeapYear(year) && totalDays > MonthDays(2);
    month := 1;
    MonthStartIsTable(year, 1);
    while month < 12
      invariant 1 <= month <= 12
      invariant month > 1 ==> totalDays >= MonthDays(month - 1) + (if isLeapDay || hadLeapDay then 1 else 0)
    {
      if totalDays < MonthDays(month) + (if isLeapDay || hadLeapDay then 1 else 0) {
        break;
      }
      month := month + 1;
    }
    MonthStartIsTable(year, month);
    MonthStartIsTable(year, month + 1);
    day := totalDays - MonthDays(month - 1) + (if hadLeapDay then 0 else 1);
  }

  // ---------------------------------------------------------------- lemmas

  lemma MonthStartIsTable(year: nat, month: nat)
    requires 1 <= month <= 13
    ensures month <= 12 ==> MonthStart(year, month) == MonthDays(month - 1) + if Leap(year) && month >= 3 then 1 else 0
    ensures month == 13 ==> MonthStart(year, month) == YearLength(year)
  {
    if month > 1 {
      MonthStartIsTable(year, month - 1);
    }
  }

  lemma {:induction false} YearStartCountsLeapYears(year: nat)
    requires year >= EPOCH_YEAR
    ensures YearStart(year) == (year - EPOCH_YEAR) * 365 + LeapYears(year)
  {
    if year > EPOCH_YEAR {
      YearStartCountsLeapYears(year - 1);
    }
  }

  lemma {:induction false} LeapYearsMonotone(a: nat, b: nat)
    requires a <= b
    ensures LeapYears(a) <= LeapYears(b)
    decreases b
  {
    if a < b {
      LeapYearsMonotone(a, b - 1);
    }
  }

  lemma {:induction false} YearStartMonotone(a: nat, b: nat)
    requires EPOCH_YEAR <= a <= b
    ensures YearStart(a) + (b - a) * 365 <= YearStart(b)
  {
    LeapYearsMonotone(a, b);
    YearStartCountsLeapYears(a);
    YearStartCountsLeapYears(b);
  }

  lemma {:induction false} LeapYearsAtMostYears(year: nat)
    ensures LeapYears(year) <= year
  {
    if year > EPOCH_YEAR {
      LeapYearsAtMostYears(year - 1);
    }
  }

  /** On valid dates the source's formula, truncation included, is the reference calendar. */
  lemma FormulaIsSeconds(d: Date)
    requires Valid(d)
    ensures FormulaDays(d) == DayNumber(d)
    ensures FormulaSeconds(d) == Seconds(d)
    ensures 0 <= Seconds(d) < SECONDS_LIMIT
  {
    MonthStartIsTable(d.year, d.month);
    YearStartCountsLeapYears(d.year);
    LeapYearsAtMostYears(d.year);
  }

  lemma ClockSplits(t: nat)
    ensures t == ((t / 60 / 60 / 24 * 24 + t / 60 / 60 % 24) * 60 + t / 60 % 60) * 60 + t % 60
    ensures t / 60 / 60 / 24 == t / SECONDS_PER_DAY
  {
  }

  /** Converting back gives the same day count exactly when the year loop did not wrap. */
  lemma WrappedYearLosesDays(days: nat, d: Date, totalDays: nat, n: nat, leaps: nat)
    requires d.year < YEAR_LIMIT && 1 <= d.month <= 12
    requires totalDays == MonthStart(d.year, d.month) + d.day - 1 < YearLength(d.year)
    requires YearSplit(days, d.year, totalDays, n, leaps)
    ensures 0 <= FormulaDays(d) <= days
    ensures FormulaDays(d) == days <==> days < YearStart(YEAR_LIMIT)
    ensures days < YearStart(YEAR_LIMIT) ==> d.year >= EPOCH_YEAR && DayNumber(d) == days
  {
    hide LeapYears;
    hide YearStart;
    hide MonthStart;
    hide Leap;
    hide MonthDays;
    MonthStartIsTable(d.year, d.month);
    YearStartCountsLeapYears(YEAR_LIMIT);
    if EPOCH_YEAR + n < YEAR_LIMIT {
      assert d.year == EPOCH_YEAR + n;
      YearStartCountsLeapYears(d.year);
      YearStartNext(d.year);
      YearStartMonotone(d.year + 1, YEAR_LIMIT);
    } else {
      LeapYearsPositive();
      LeapYearsMonotone(d.year, YEAR_LIMIT);
      EarlyYears(d.year);
      WrappedYears(d.year, n);
    }
  }

  lemma EarlyYears(year: nat)
    ensures year <= EPOCH_YEAR ==> LeapYears(year) == 0
  {
  }

  lemma YearStartNext(year: nat)
    requires year >= EPOCH_YEAR
    ensures YearStart(year + 1) == YearStart(year) + YearLength(year)
  {
  }

  lemma LeapYearsPositive()
    ensures LeapYears(YEAR_LIMIT) >= 1
  {
    assert LeapYears(1972) == LeapYears(1971) == LeapYears(1970) == 0;
    assert LeapYears(1973) == 1;
    LeapYearsMonotone(1973, YEAR_LIMIT);
  }

  /** A time and its broken-down form differ only in the day count, which decides the way back. */
  lemma BackConversion(t: nat, d: Date)
    requires t < SECONDS_LIMIT && 1 <= d.month <= 12
    requires d.second == t % 60 && d.minute == t / 60 % 60 && d.hour == t / 60 / 60 % 24
    requires 0 <= FormulaDays(d) <= t / SECONDS_PER_DAY
    ensures FormulaSeconds(d) % SECONDS_LIMIT == t <==> FormulaDays(d) == t / SECONDS_PER_DAY
    ensures d.year >= EPOCH_YEAR && DayNumber(d) == t / SECONDS_PER_DAY ==> Seconds(d) == t
  {
    ClockSplits(t);
    assert t - FormulaSeconds(d) == (t / SECONDS_PER_DAY - FormulaDays(d)) * SECONDS_PER_DAY;
  }

  lemma WrappedYears(year: nat, n: nat)
    requires EPOCH_YEAR + n >= YEAR_LIMIT && year == (EPOCH_YEAR + n) % YEAR_LIMIT
    ensures (year - EPOCH_YEAR) % YEAR_LIMIT == n % YEAR_LIMIT <= n
    ensures n < YEAR_LIMIT ==> year < EPOCH_YEAR
    ensures n >= YEAR_LIMIT ==> n % YEAR_LIMIT < n
  {
    var k := (EPOCH_YEAR + n) / YEAR_LIMIT;
    assert year - EPOCH_YEAR == n - k * YEAR_LIMIT;
    ModShift(n, k);
  }

  lemma ModShift(n: int, k: int)
    ensures (n - k * YEAR_LIMIT) % YEAR_LIMIT == n % YEAR_LIMIT
  {
    var q, r := n / YEAR_LIMIT, n % YEAR_LIMIT;
    assert n - k * YEAR_LIMIT == (q - k) * YEAR_LIMIT + r;
  }

  /** Two valid dates with the same time are the same date. */
  lemma SecondsInjective(a: Date, b: Date)
    requires Valid(a) && Valid(b) && Seconds(a) == Seconds(b)
    ensures a.(weekDay := b.weekDay) == b
  {
    ClockUnique(DayNumber(a), a, DayNumber(b), b);
    DayInYear(a);
    DayInYear(b);
    if a.year < b.year {
      YearStartMonotone(a.year + 1, b.year);
    } else if b.year < a.year {
      YearStartMonotone(b.year + 1, a.year);
    }
    DayUnique(a.year, a.month, a.day, b.month, b.day);
  }

  lemma ClockUnique(i: int, a: Date, j: int, b: Date)
    requires a.hour < 24 && a.minute < 60 && a.second < 60 && b.hour < 24 && b.minute < 60 && b.second < 60
    requires ((i * 24 + a.hour) * 60 + a.minute) * 60 + a.second == ((j * 24 + b.hour) * 60 + b.minute) * 60 + b.second
    ensures i == j && a.hour == b.hour && a.minute == b.minute && a.second == b.second
  {
    var m, k := (i * 24 + a.hour) * 60 + a.minute, (j * 24 + b.hour) * 60 + b.minute;
    assert m == k;
    assert i * 24 + a.hour == j * 24 + b.hour;
  }

  lemma DayUnique(year: nat, m: nat, d: nat, m': nat, d': nat)
    requires 1 <= m <= 12 && 1 <= m' <= 12
    requires 1 <= d <= MonthLength(year, m) && 1 <= d' <= MonthLength(year, m')
    requires MonthStart(year, m) + d == MonthStart(year, m') + d'
    ensures m == m' && d == d'
  {
    if m < m' {
      MonthStartMonotone(year, m + 1, m');
    } else if m' < m {
      MonthStartMonotone(year, m' + 1, m);
    }
  }

  lemma {:induction false} MonthStartMonotone(year: nat, m: nat, m': nat)
    requires 1 <= m <= m' <= 13
    ensures MonthStart(year, m) <= MonthStart(year, m')
  {
    if m < m' {
      MonthStartMonotone(year, m, m' - 1);
    }
  }

  lemma DayInYear(d: Date)
    requires Valid(d)
    ensures 0 <= MonthStart(d.year, d.month) + d.day - 1 < YearLength(d.year)
  {
    MonthStartIsTable(d.year, d.month);
  }

  // ---------------------------------------------------------------- weekdays

  lemma {:induction false} WeekDayRepeats(dayNumber: nat)
    ensures WeekDay(dayNumber) == (dayNumber + 4) % 7 + 1
  {
    if dayNumber > 0 {
      WeekDayRepeats(dayNumber - 1);
    }
  }

  /** Leap years up to `year`, by the rule of the calendar. */
  function LeapYearsUpTo(year: nat): int {
    year / 4 - year / 100 + year / 400
  }

  lemma OneMore(year: nat)
    requires 0 < year
    ensures year / 4 == (year - 1) / 4 + if year % 4 == 0 then 1 else 0
    ensures year / 100 == (year - 1) / 100 + if year % 100 == 0 then 1 else 0
    ensures year / 400 == (year - 1) / 400 + if year % 400 == 0 then 1 else 0
  {
  }

  lemma LeapYearsUpToNext(year: nat)
    requires 0 < year
    ensures LeapYearsUpTo(year) == LeapYearsUpTo(year - 1) + if Leap(year) then 1 else 0
  {
    OneMore(year);
    Centuries(year);
  }

  lemma {:induction false} LeapYearsByRule(year: nat)
    requires year >= EPOCH_YEAR
    ensures LeapYears(year) == LeapYearsUpTo(year - 1) - 477
  {
    if year > EPOCH_YEAR {
      LeapYearsByRule(year - 1);
      LeapYearsUpToNext(year - 1);
    }
  }

  /** The weekday of every date from its year and its day in the year alone. */
  lemma WeekDayOfDate(d: Date)
    requires Valid(d)
    ensures DayNumber(d) >= 0
    ensures var y := d.year - 1;
            WeekDay(DayNumber(d)) == (y + y / 4 - y / 100 + y / 400 + MonthStart(d.year, d.month) + d.day) % 7 + 1
  {
    hide WeekDay;
    hide MonthStart;
    hide LeapYears;
    hide YearStart;
    hide Leap;
    DayInYear(d);
    WeekDayRepeats(DayNumber(d));
    YearStartCountsLeapYears(d.year);
    LeapYearsByRule(d.year);
    var n := d.year - 1 + LeapYearsUpTo(d.year - 1) + MonthStart(d.year, d.month) + d.day;
    assert DayNumber(d) + 4 == n + 7 * (52 * (d.year - EPOCH_YEAR) - 349);
    WeeksApart(n, 52 * (d.year - EPOCH_YEAR) - 349);
  }

  lemma WeeksApart(n: int, weeks: int)
    ensures (n + 7 * weeks) % 7 == n % 7
  {
    var q, r := n / 7, n % 7;
    assert n + 7 * weeks == 7 * (q + weeks) + r;
  }

  /** Time 0 is midnight of Thursday, 1 January 1970. */
  method Epoch() returns (time: Date)
    ensures time == Date(1970, 1, 1, 0, 0, 0, 5)
  {
    time := FromUnixTime(0);
    var first := Date(1970, 1, 1, 0, 0, 0, time.weekDay);
    assert Valid(first) && Seconds(first) == 0;
    YearStartMonotone(EPOCH_YEAR, YEAR_LIMIT);
    SecondsInjective(time, first);
  }

  /** A day later it is the next weekday, at the same time of the day. */
  method DayLater(unixTime: nat) returns (today: Date, tomorrow: Date)
    requires unixTime + SECONDS_PER_DAY < SECONDS_LIMIT
    ensures tomorrow.weekDay == if today.weekDay == 7 then 1 else today.weekDay + 1
    ensures tomorrow.hour == today.hour && tomorrow.minute == today.minute && tomorrow.second == today.second
  {
    hide Seconds;
    hide FormulaSeconds;
    hide YearFits;
    today := FromUnixTime(unixTime);
    tomorrow := FromUnixTime(unixTime + SECONDS_PER_DAY);
    DaysApart(unixTime);
    ClockUnique(0, today, 0, tomorrow);
  }

  lemma DaysApart(t: nat)
    ensures (t + SECONDS_PER_DAY) / SECONDS_PER_DAY == t / SECONDS_PER_DAY + 1
    ensures (t + SECONDS_PER_DAY) % SECONDS_PER_DAY == t % SECONDS_PER_DAY
  {
  }

  // ---------------------------------------------------------------- round trips

  /** to_unix_time(from_unix_time(t)) == t exactly for the 64-bit times whose year fits into 32 bits. */
  method UnixTimeRoundTrip(unixTime: nat) returns (date: Date, back: nat)
    requires unixTime < 0x1_0000_0000_0000_0000
    ensures date.year < 0x1_0000_0000
    ensures back == unixTime <==> unixTime / 86400 < YearStart(0x1_0000_0000)
  {
    date := FromUnixTime(unixTime);
    back := ToUnixTime(date);
  }

  /** from_unix_time(to_unix_time(d)) == d, with the weekday filled in, for every valid date. */
  method DateRoundTrip(date: Date) returns (unixTime: nat, back: Date)
    requires Valid(date)
    ensures unixTime == Seconds(date) && unixTime < 0x1_0000_0000_0000_0000
    ensures back == date.(weekDay := back.weekDay)
    ensures var y := date.year - 1;
            back.weekDay == (y + y / 4 - y / 100 + y / 400 + MonthStart(date.year, date.month) + date.day) % 7 + 1
  {
    unixTime := ToUnixTime(date);
    FormulaIsSeconds(date);
    ValidTimeFits(date);
    back := FromUnixTime(unixTime);
    SecondsInjective(back, date);
    WeekDayOfDate(date);
  }

  lemma ValidTimeFits(d: Date)
    requires Valid(d)
    ensures 0 <= DayNumber(d) == Seconds(d) / SECONDS_PER_DAY
    ensures Seconds(d) >= 0 && YearFits(Seconds(d))
  {
    DayInYear(d);
    YearStartMonotone(d.year + 1, YEAR_LIMIT);
  }
}

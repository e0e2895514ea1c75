/** Day numbers to proleptic Gregorian dates by eras of 400 years, against counting days one at a time. */
module CivilDates {
  const MILLIS_PER_SECOND: int := 1000
  const MILLIS_PER_MINUTE: int := 60_000
  const MILLIS_PER_HOUR: int := 3_600_000
  const MILLIS_PER_DAY: int := 86_400_000

  datatype Date = Date(year: int, month: int, day: int)

  datatype CivilDateTime = CivilDateTime(
    date: Date, weekday: int, hour: int, minute: int, second: int, millisecond: int)

  // ----- The conversion -----

  /** Division that truncates toward zero. */
  function Quotient(a: int, b: int): int
    requires b > 0
  {
    if a >= 0 then a / b else -((-a) / b)
  }

  function Era(shifted: int): int {
    Quotient(if shifted >= 0 then shifted else shifted - 146_096, 146_097)
  }

  function YearOfEra(dayOfEra: int): int {
    Quotient(dayOfEra - Quotient(dayOfEra, 1_460) + Quotient(dayOfEra, 36_524) - Quotient(dayOfEra, 146_096), 365)
  }

  function CivilFromDays(days: int): Date {
    var shifted := days + 719_468;
    var era := Era(shifted);
    var dayOfEra := shifted - era * 146_097;
    var yearOfEra := YearOfEra(dayOfEra);
    var dayOfYear := dayOfEra - (365 * yearOfEra + Quotient(yearOfEra, 4) - Quotient(yearOfEra, 100));
    DateInYear(yearOfEra + era * 400, dayOfYear)
  }

  /** The date `dayOfYear` days after the first of March of `year`. */
  function DateInYear(year: int, dayOfYear: int): Date {
    var monthPrime := Quotient(5 * dayOfYear + 2, 153);
    var day := dayOfYear - Quotient(153 * monthPrime + 2, 5) + 1;
    var month := monthPrime + if monthPrime < 10 then 3 else -9;
    Date(year + (if month <= 2 then 1 else 0), month, day)
  }

  function CivilFromMilliseconds(milliseconds: int): CivilDateTime {
    var days := milliseconds / MILLIS_PER_DAY;
    var dayMillis := milliseconds % MILLIS_PER_DAY;
    CivilDateTime(
      CivilFromDays(days),
      (days + 4) % 7,
      dayMillis / MILLIS_PER_HOUR,
      dayMillis % MILLIS_PER_HOUR / MILLIS_PER_MINUTE,
      dayMillis % MILLIS_PER_MINUTE / MILLIS_PER_SECOND,
      dayMillis % MILLIS_PER_SECOND)
  }

  // ----- The calendar -----

  predicate IsLeap(year: int) { year % 4 == 0 && (year % 100 != 0 || year % 400 == 0) }

  function DaysInMonth(year: int, month: int): int {
    match month
    case 2 => if IsLeap(year) then 29 else 28
    case 4 => 30
    case 6 => 30
    case 9 => 30
    case 11 => 30
    case _ => 31
  }

  predicate IsDate(d: Date) { 1 <= d.month <= 12 && 1 <= d.day <= DaysInMonth(d.year, d.month) }

  /** The next date on the calendar. */
  function Tomorrow(d: Date): Date {
    if d.day < DaysInMonth(d.year, d.month) then Date(d.year, d.month, d.day + 1)
    else if d.month < 12 then Date(d.year, d.month + 1, 1)
    else Date(d.year + 1, 1, 1)
  }

  const EPOCH := Date(1970, 1, 1)

  function DaysInYear(year: int): int { if IsLeap(year) then 366 else 365 }

  /** Days from the epoch to the first of January, one year at a time. */
  function DaysBeforeYear(year: int): int
    decreases if year >= 1970 then year - 1970 else 1970 - year
  {
    if year == 1970 then 0
    else if year > 1970 then DaysBeforeYear(year - 1) + DaysInYear(year - 1)
    else DaysBeforeYear(year + 1) - DaysInYear(year)
  }

  function DaysBeforeMonth(year: int, month: int): int
    requires month >= 1
    decreases month
  {
    if month == 1 then 0 else DaysBeforeMonth(year, month - 1) + DaysInMonth(year, month - 1)
  }

  /** Days from the epoch, by counting whole years, whole months and days. */
  function DayCount(d: Date): int
    requires d.month >= 1
  {
    DaysBeforeYear(d.year) + DaysBeforeMonth(d.year, d.month) + d.day - 1
  }

  // ----- Years of an era -----

  /** Whether the year that starts in March of year `y` of an era ends with a leap day. */
  predicate EndsLeap(y: int) { y % 4 == 3 && (y % 100 != 99 || y == 399) }

  /** Day `doe` of an era is day `doy` of its March-based year `y`. */
  predicate InYear(doe: int, y: int, doy: int) {
    && 0 <= y < 400 && 0 <= doy < (if EndsLeap(y) then 366 else 365)
    && doe == 365 * y + y / 4 - y / 100 + doy
  }

  lemma YearDigits(a: int, b: int, c: int)
    requires 0 <= a < 4 && 0 <= b < 25 && 0 <= c < 4
    ensures var y := 100 * a + 4 * b + c; y / 100 == a && y / 4 == 25 * a + b && y % 4 == c && y % 100 == 4 * b + c
  {
  }

  lemma CycleQuotients(a: int, b: int, r: int, century: int, doe: int)
    requires 0 <= a < 4 && 0 <= b < 25 && 0 <= r < 2 * 1_460 && 0 <= century <= 36_524
    requires doe == 1_460 * (25 * a + b) + r && doe == 36_524 * a + century
    requires century == 36_524 ==> a == 3
    ensures doe / 1_460 == 25 * a + b + (if r >= 1_460 then 1 else 0)
    ensures doe / 36_524 == a + (if century == 36_524 then 1 else 0)
    ensures doe / 146_096 == (if century == 36_524 then 1 else 0)
  {
  }

  /** The era formula counts exactly the completed years. */
  lemma YearFound(doe: int, a: int, b: int, c: int, doy: int)
    requires 0 <= a < 4 && 0 <= b < 25 && 0 <= c < 4
    requires InYear(doe, 100 * a + 4 * b + c, doy)
    ensures YearOfEra(doe) == 100 * a + 4 * b + c
  {
    YearDigits(a, b, c);
    assert doe == 36_524 * a + 1_461 * b + 365 * c + doy;
    var r := 24 * a + b + 365 * c + doy;
    var century := 1_461 * b + 365 * c + doy;
    CycleQuotients(a, b, r, century, doe);
    var carried := if r >= 1_460 then 1 else 0;
    YearQuotient(100 * a + 4 * b + c, doy - carried);
  }

  lemma YearQuotient(y: int, rest: int)
    requires 0 <= y && 0 <= rest < 365
    ensures Quotient(365 * y + rest, 365) == y
  {
  }

  /** Every day of an era has its year, and the formula finds it. */
  lemma DayOfEraSplits(doe: int)
    requires 0 <= doe < 146_097
    ensures InYear(doe, YearOfEra(doe), doe - (365 * YearOfEra(doe) + YearOfEra(doe) / 4 - YearOfEra(doe) / 100))
  {
    hide YearOfEra;
    var a := if doe == 146_096 then 3 else doe / 36_524;
    var inCentury := doe - 36_524 * a;
    var b := inCentury / 1_461;
    var inCycle := inCentury - 1_461 * b;
    var c := if inCycle == 1_460 then 3 else inCycle / 365;
    var doy := inCycle - 365 * c;
    YearDigits(a, b, c);
    var y := 100 * a + 4 * b + c;
    assert 0 <= b < 25 && (b == 24 && a < 3 ==> inCycle < 1_460);
    assert InYear(doe, y, doy);
    YearFound(doe, a, b, c, doy);
  }

  lemma YearUnique(doe: int, y: int, doy: int)
    requires InYear(doe, y, doy)
    ensures YearOfEra(doe) == y
  {
    var a, b, c := y / 100, y % 100 / 4, y % 4;
    assert y == 100 * a + 4 * b + c;
    YearFound(doe, a, b, c, doy);
  }

  // ----- Months of a March-based year -----

  /** First day of month `mp` of a year that starts in March. */
  function MonthStart(mp: int): int {
    Quotient(153 * mp + 2, 5)
  }

  /** Day `doy` is day `day` of month `mp`. */
  predicate InMonth(doy: int, mp: int, day: int) {
    && 0 <= mp < 12 && 1 <= day && doy == MonthStart(mp) + day - 1
    && (mp < 11 ==> doy < MonthStart(mp + 1)) && doy < 366
  }

  lemma MonthFound(doy: int, mp: int, day: int)
    requires InMonth(doy, mp, day)
    ensures Quotient(5 * doy + 2, 153) == mp
  {
  }

  lemma DayOfYearSplits(doy: int)
    requires 0 <= doy < 366
    ensures InMonth(doy, Quotient(5 * doy + 2, 153), doy - MonthStart(Quotient(5 * doy + 2, 153)) + 1)
  {
  }

  // ----- The conversion, decomposed -----

  /** `d` is day `day` of month `mp` of year `y` of era `era`. */
  predicate Decomposed(days: int, d: Date, era: int, y: int, doy: int, mp: int) {
    && InYear(days + 719_468 - era * 146_097, y, doy)
    && InMonth(doy, mp, d.day)
    && d.month == (if mp < 10 then mp + 3 else mp - 9)
    && d.year == y + era * 400 + (if d.month <= 2 then 1 else 0)
  }

  lemma EraFloors(shifted: int)
    ensures 0 <= shifted - Era(shifted) * 146_097 < 146_097
  {
  }

  lemma EraUnique(shifted: int, era: int)
    requires 0 <= shifted - era * 146_097 < 146_097
    ensures Era(shifted) == era
  {
  }

  lemma InYearBounds(doe: int, y: int, doy: int)
    requires InYear(doe, y, doy)
    ensures 0 <= doe < 146_097
  {
  }

  /** Any decomposition is the one the conversion computes. */
  lemma DecompositionFound(days: int, d: Date, era: int, y: int, doy: int, mp: int)
    requires Decomposed(days, d, era, y, doy, mp)
    ensures CivilFromDays(days) == d
  {
    hide YearOfEra, Era, InMonth, Quotient, DateInYear;
    var doe := days + 719_468 - era * 146_097;
    InYearBounds(doe, y, doy);
    EraUnique(days + 719_468, era);
    YearUnique(doe, y, doy);
    QuotientFloors(y);
    DateFound(d, y + era * 400, doy, mp);
  }

  lemma QuotientFloors(y: int)
    requires y >= 0
    ensures Quotient(y, 4) == y / 4 && Quotient(y, 100) == y / 100
  {
  }

  lemma DateFound(d: Date, year: int, doy: int, mp: int)
    requires InMonth(doy, mp, d.day) && d.month == (if mp < 10 then mp + 3 else mp - 9)
    requires d.year == year + (if d.month <= 2 then 1 else 0)
    ensures DateInYear(year, doy) == d
  {
    MonthFound(doy, mp, d.day);
  }

  lemma DecompositionExists(days: int)
    ensures exists era, y, doy, mp :: Decomposed(days, CivilFromDays(days), era, y, doy, mp)
  {
    hide YearOfEra, Era, InYear, InMonth;
    var shifted := days + 719_468;
    var era := Era(shifted);
    EraFloors(shifted);
    var doe := shifted - era * 146_097;
    DayOfEraSplits(doe);
    var y := YearOfEra(doe);
    var doy := doe - (365 * y + y / 4 - y / 100);
    assert InYear(doe, y, doy);
    DayInYear(doe, y, doy);
    DayOfYearSplits(doy);
    var mp := Quotient(5 * doy + 2, 153);
    MonthRange(doy, mp, doy - MonthStart(mp) + 1);
    assert Decomposed(days, CivilFromDays(days), era, y, doy, mp);
  }

  lemma DayInYear(doe: int, y: int, doy: int)
    requires InYear(doe, y, doy)
    ensures 0 <= doy < 366 && 0 <= y < 400
  {
  }

  lemma MonthRange(doy: int, mp: int, day: int)
    requires InMonth(doy, mp, day)
    ensures 0 <= mp < 12
  {
  }

  lemma RemainderOf4(n: int, q: int, r: int)
    requires 0 <= r < 4 && n == 4 * q + r
    ensures n % 4 == r
  {
  }

  lemma RemainderOf100(n: int, q: int, r: int)
    requires 0 <= r < 100 && n == 100 * q + r
    ensures n % 100 == r
  {
  }

  lemma RemainderOf400(n: int, q: int, r: int)
    requires 0 <= r < 400 && n == 400 * q + r
    ensures n % 400 == r
  {
  }

  lemma LeapMatches(y: int, era: int)
    requires 0 <= y < 400
    ensures EndsLeap(y) <==> IsLeap(y + 1 + era * 400)
  {
    var n := y + 1;
    var full := n + era * 400;
    RemainderOf4(full, n / 4 + 100 * era, n % 4);
    RemainderOf100(full, n / 100 + 4 * era, n % 100);
    RemainderOf400(full, n / 400 + era, n % 400);
  }

  /** Last day of month `mp` of March-based year `y` of era `era`. */
  lemma MonthLength(y: int, era: int, mp: int)
    requires 0 <= y < 400 && 0 <= mp < 12
    ensures var month := if mp < 10 then mp + 3 else mp - 9;
            var year := y + era * 400 + (if month <= 2 then 1 else 0);
            var next := if mp < 11 then MonthStart(mp + 1) else if EndsLeap(y) then 366 else 365;
            DaysInMonth(year, month) == next - MonthStart(mp)
  {
    hide IsLeap, EndsLeap;
    LeapMatches(y, era);
  }

  lemma DecomposedIsDate(days: int, d: Date, era: int, y: int, doy: int, mp: int)
    requires Decomposed(days, d, era, y, doy, mp)
    ensures IsDate(d)
  {
    hide IsLeap, EndsLeap, MonthStart, DaysInMonth;
    MonthLength(y, era, mp);
  }

  lemma YearStep(doe: int, y: int, doy: int)
    requires InYear(doe, y, doy)
    ensures if doy + 1 < (if EndsLeap(y) then 366 else 365) then InYear(doe + 1, y, doy + 1)
            else if y < 399 then InYear(doe + 1, y + 1, 0)
            else doe == 146_096 && InYear(0, 0, 0)
  {
    if y < 399 && doy + 1 >= (if EndsLeap(y) then 366 else 365) {
      YearLengths(y);
    }
  }

  lemma YearLengths(y: int)
    requires 0 <= y < 399
    ensures 365 * (y + 1) + (y + 1) / 4 - (y + 1) / 100
            == 365 * y + y / 4 - y / 100 + (if EndsLeap(y) then 366 else 365)
  {
  }

  lemma {:induction false} DecomposedTomorrow(days: int, d: Date, era: int, y: int, doy: int, mp: int)
    requires Decomposed(days, d, era, y, doy, mp)
    ensures CivilFromDays(days + 1) == Tomorrow(d)
  {
    hide IsLeap, EndsLeap, DaysInMonth, InYear, CivilFromDays, MonthStart;
    var doe := days + 719_468 - era * 146_097;
    var next := Tomorrow(d);
    DayInYear(doe, y, doy);
    YearStep(doe, y, doy);
    MonthLength(y, era, mp);
    YearEnd(doe, y, doy);
    MonthStartsOrdered(mp);
    MonthStartsOrdered(0);
    if d.day < DaysInMonth(d.year, d.month) {
      DecompositionFound(days + 1, next, era, y, doy + 1, mp);
    } else if mp < 11 {
      DecompositionFound(days + 1, next, era, y, doy + 1, mp + 1);
    } else if y < 399 {
      DecompositionFound(days + 1, next, era, y + 1, 0, 0);
    } else {
      DecompositionFound(days + 1, next, era + 1, 0, 0, 0);
    }
  }

  lemma YearEnd(doe: int, y: int, doy: int)
    requires InYear(doe, y, doy)
    ensures doy < if EndsLeap(y) then 366 else 365
  {
  }

  lemma MonthStartsOrdered(mp: int)
    requires 0 <= mp < 12
    ensures MonthStart(0) == 0 && MonthStart(mp) + 28 <= MonthStart(mp + 1) && (mp < 11 ==> MonthStart(mp + 1) <= 337)
    ensures mp < 10 ==> MonthStart(mp + 1) + 28 <= MonthStart(mp + 2)
  {
  }

  // ----- What the conversion means -----

  /** Every day number is a date of the proleptic Gregorian calendar. */
  lemma CivilIsDate(days: int)
    ensures IsDate(CivilFromDays(days))
  {
    hide CivilFromDays, Decomposed, IsDate;
    DecompositionExists(days);
    var era, y, doy, mp :| Decomposed(days, CivilFromDays(days), era, y, doy, mp);
    DecomposedIsDate(days, CivilFromDays(days), era, y, doy, mp);
  }

  /** The next day number is the next date. */
  lemma CivilTomorrow(days: int)
    ensures CivilFromDays(days + 1) == Tomorrow(CivilFromDays(days))
  {
    hide CivilFromDays, Decomposed, Tomorrow;
    DecompositionExists(days);
    var era, y, doy, mp :| Decomposed(days, CivilFromDays(days), era, y, doy, mp);
    DecomposedTomorrow(days, CivilFromDays(days), era, y, doy, mp);
  }

  lemma CivilEpoch()
    ensures CivilFromDays(0) == EPOCH
  {
  }

  // ----- Counting days -----

  /** Twelve months make a year. */
  lemma MonthsCounted(year: int, month: int)
    requires 1 <= month <= 12
    ensures 0 <= DaysBeforeMonth(year, month)
    ensures DaysBeforeMonth(year, month) + DaysInMonth(year, month) <= DaysInYear(year)
    ensures month == 12 ==> DaysBeforeMonth(year, month) + DaysInMonth(year, month) == DaysInYear(year)
  {
    hide IsLeap;
    FirstMonths(year);
    LaterMonths(year);
  }

  lemma FirstMonths(year: int)
    ensures var feb := if IsLeap(year) then 29 else 28;
            && DaysBeforeMonth(year, 1) == 0 && DaysBeforeMonth(year, 2) == 31
            && DaysBeforeMonth(year, 3) == 31 + feb && DaysBeforeMonth(year, 4) == 62 + feb
            && DaysBeforeMonth(year, 5) == 92 + feb && DaysBeforeMonth(year, 6) == 123 + feb
  {
    hide IsLeap;
  }

  lemma LaterMonths(year: int)
    ensures var feb := if IsLeap(year) then 29 else 28;
            && DaysBeforeMonth(year, 7) == 153 + feb && DaysBeforeMonth(year, 8) == 184 + feb
            && DaysBeforeMonth(year, 9) == 215 + feb && DaysBeforeMonth(year, 10) == 245 + feb
            && DaysBeforeMonth(year, 11) == 276 + feb && DaysBeforeMonth(year, 12) == 306 + feb
  {
    hide IsLeap;
    FirstMonths(year);
  }

  lemma YearCounted(year: int)
    ensures DaysBeforeYear(year + 1) == DaysBeforeYear(year) + DaysInYear(year)
  {
  }

  lemma CountTomorrow(d: Date)
    requires IsDate(d)
    ensures IsDate(Tomorrow(d)) && DayCount(Tomorrow(d)) == DayCount(d) + 1
  {
    hide IsLeap, DaysBeforeYear, DaysInYear;
    YearCounted(d.year);
    MonthsCounted(d.year, d.month);
  }

  /** The conversion inverts counting days from the epoch. */
  lemma {:induction false} CountCivil(days: int)
    ensures CivilFromDays(days).month >= 1 && DayCount(CivilFromDays(days)) == days
    decreases if days >= 0 then days else -days
  {
    hide CivilFromDays, DayCount, Tomorrow;
    CivilIsDate(days);
    if days == 0 {
      CivilEpoch();
      CountEpoch();
    } else if days > 0 {
      CountCivil(days - 1);
      CivilIsDate(days - 1);
      CivilTomorrow(days - 1);
      CountTomorrow(CivilFromDays(days - 1));
    } else {
      CountCivil(days + 1);
      CivilTomorrow(days);
      CountTomorrow(CivilFromDays(days));
    }
  }

  lemma CountEpoch()
    ensures DayCount(EPOCH) == 0
  {
  }

  predicate Before(a: Date, b: Date) {
    || a.year < b.year
    || (a.year == b.year && (a.month < b.month || (a.month == b.month && a.day < b.day)))
  }

  lemma {:induction false} YearsOrdered(y: int, z: int)
    requires y <= z
    ensures DaysBeforeYear(y) <= DaysBeforeYear(z)
    decreases z - y
  {
    hide DaysBeforeYear;
    if y < z {
      YearsOrdered(y, z - 1);
      YearCounted(z - 1);
    }
  }

  lemma {:induction false} MonthsOrdered(year: int, m: int, n: int)
    requires 1 <= m < n <= 12
    ensures DaysBeforeMonth(year, m) + DaysInMonth(year, m) <= DaysBeforeMonth(year, n)
  {
    hide DaysInMonth;
    if m + 1 < n {
      MonthsOrdered(year, m, n - 1);
      MonthPositive(year, n - 1);
    }
  }

  lemma MonthPositive(year: int, month: int)
    ensures DaysInMonth(year, month) > 0
  {
  }

  /** Later dates have larger counts. */
  lemma CountOrdered(a: Date, b: Date)
    requires IsDate(a) && IsDate(b) && Before(a, b)
    ensures DayCount(a) < DayCount(b)
  {
    hide DaysBeforeYear, DaysBeforeMonth, DaysInMonth, DaysInYear;
    MonthsCounted(a.year, a.month);
    MonthsCounted(b.year, b.month);
    if a.year < b.year {
      YearCounted(a.year);
      YearsOrdered(a.year + 1, b.year);
    } else if a.month < b.month {
      MonthsOrdered(a.year, a.month, b.month);
    }
  }

  /** Counting days inverts the conversion, so the two are inverse bijections. */
  lemma CivilCount(d: Date)
    requires IsDate(d)
    ensures CivilFromDays(DayCount(d)) == d
  {
    hide CivilFromDays, DayCount;
    var e := CivilFromDays(DayCount(d));
    CivilIsDate(DayCount(d));
    CountCivil(DayCount(d));
    if Before(d, e) {
      CountOrdered(d, e);
    } else if Before(e, d) {
      CountOrdered(e, d);
    }
  }

  // ----- Time of day -----

  predicate TimeInRange(t: CivilDateTime) {
    && 0 <= t.hour < 24 && 0 <= t.minute < 60 && 0 <= t.second < 60 && 0 <= t.millisecond < 1000
    && 0 <= t.weekday < 7
  }

  /** The instant the fields spell out. */
  function Instant(t: CivilDateTime): int
    requires t.date.month >= 1
  {
    DayCount(t.date) * MILLIS_PER_DAY + t.hour * MILLIS_PER_HOUR + t.minute * MILLIS_PER_MINUTE
    + t.second * MILLIS_PER_SECOND + t.millisecond
  }

  lemma HoursSplit(m: int)
    requires 0 <= m < MILLIS_PER_DAY
    ensures m == m / MILLIS_PER_HOUR * MILLIS_PER_HOUR + m % MILLIS_PER_HOUR && 0 <= m / MILLIS_PER_HOUR < 24
  {
  }

  lemma MinutesSplit(h: int)
    requires 0 <= h < MILLIS_PER_HOUR
    ensures h == h / MILLIS_PER_MINUTE * MILLIS_PER_MINUTE + h % MILLIS_PER_MINUTE && 0 <= h / MILLIS_PER_MINUTE < 60
  {
  }

  lemma SecondsSplit(n: int)
    requires 0 <= n < MILLIS_PER_MINUTE
    ensures n == n / MILLIS_PER_SECOND * MILLIS_PER_SECOND + n % MILLIS_PER_SECOND && 0 <= n / MILLIS_PER_SECOND < 60
  {
  }

  /** Whole minutes and seconds of the day are those of the hour. */
  lemma SmallerUnits(m: int, q: int, h: int)
    requires m == q * MILLIS_PER_HOUR + h && 0 <= h < MILLIS_PER_HOUR
    ensures m % MILLIS_PER_MINUTE == h % MILLIS_PER_MINUTE
  {
    RemainderOfMinute(m, 60 * q + h / MILLIS_PER_MINUTE, h % MILLIS_PER_MINUTE);
  }

  lemma RemainderOfMinute(m: int, q: int, r: int)
    requires 0 <= r < MILLIS_PER_MINUTE && m == MILLIS_PER_MINUTE * q + r
    ensures m % MILLIS_PER_MINUTE == r
  {
  }

  lemma RemainderOfSecond(m: int, q: int, r: int)
    requires 0 <= r < MILLIS_PER_SECOND && m == MILLIS_PER_SECOND * q + r
    ensures m % MILLIS_PER_SECOND == r
  {
  }

  lemma TimeSplits(m: int)
    requires 0 <= m < MILLIS_PER_DAY
    ensures m == m / MILLIS_PER_HOUR * MILLIS_PER_HOUR + m % MILLIS_PER_HOUR / MILLIS_PER_MINUTE * MILLIS_PER_MINUTE
                 + m % MILLIS_PER_MINUTE / MILLIS_PER_SECOND * MILLIS_PER_SECOND + m % MILLIS_PER_SECOND
    ensures 0 <= m / MILLIS_PER_HOUR < 24 && 0 <= m % MILLIS_PER_HOUR / MILLIS_PER_MINUTE < 60
    ensures 0 <= m % MILLIS_PER_MINUTE / MILLIS_PER_SECOND < 60 && 0 <= m % MILLIS_PER_SECOND < 1000
  {
    HoursSplit(m);
    var q, h := m / MILLIS_PER_HOUR, m % MILLIS_PER_HOUR;
    MinutesSplit(h);
    SmallerUnits(m, q, h);
    var n := h % MILLIS_PER_MINUTE;
    SecondsSplit(n);
    RemainderOfSecond(m, 3600 * q + 60 * (h / MILLIS_PER_MINUTE) + n / MILLIS_PER_SECOND, n % MILLIS_PER_SECOND);
  }

  /** The fields are a valid date and time and spell out the input. */
  lemma CivilRoundTrip(milliseconds: int)
    ensures var t := CivilFromMilliseconds(milliseconds);
            IsDate(t.date) && TimeInRange(t) && Instant(t) == milliseconds
  {
    hide CivilFromDays, DayCount, IsDate;
    var days, m := milliseconds / MILLIS_PER_DAY, milliseconds % MILLIS_PER_DAY;
    CivilIsDate(days);
    CountCivil(days);
    TimeSplits(m);
  }

  /** 1 January 1970 was a Thursday and weekdays follow one another. */
  lemma WeekdayOfCount(milliseconds: int)
    ensures var t := CivilFromMilliseconds(milliseconds);
            t.date.month >= 1 && t.weekday == (DayCount(t.date) + 4) % 7
  {
    hide CivilFromDays, DayCount;
    CountCivil(milliseconds / MILLIS_PER_DAY);
  }
}

/** ngx_gmtime of src/core/ngx_times.c and the day count of src/core/ngx_parse_time.c against the
    Gregorian calendar. */
module Calendar {

  datatype Date = Date(year: int, month: int, day: int)
  datatype Tm = Tm(date: Date, hour: int, min: int, sec: int, wday: int)

  // ---- the calendar ----

  predicate Leap(y: int) { y % 4 == 0 && (y % 100 != 0 || y % 400 == 0) }

  function DaysIn(year: int, month: int): int {
    if month == 2 then (if Leap(year) then 29 else 28)
    else if month == 4 || month == 6 || month == 9 || month == 11 then 30
    else 31
  }

  predicate Valid(d: Date) { 1 <= d.month <= 12 && 1 <= d.day <= DaysIn(d.year, d.month) }

  function NextDay(d: Date): Date {
    if d.day < DaysIn(d.year, d.month) then d.(day := d.day + 1)
    else if d.month < 12 then Date(d.year, d.month + 1, 1)
    else Date(d.year + 1, 1, 1)
  }

  // The date n days after January 1, 1970, and its day of the week, one day at a time.
  function Nth(n: nat): Date {
    if n == 0 then Date(1970, 1, 1) else NextDay(Nth(n - 1))
  }

  function Weekday(n: nat): int {
    if n == 0 then 4 else (Weekday(n - 1) + 1) % 7
  }

  // ---- years from March to February ----

  // Days before March 1 of year y, counted from March 1 of year 0.
  function YearDays(y: int): int { 365 * y + y / 4 - y / 100 + y / 400 }

  // Days before month m, where March is 1 and February 12.
  function MonthDays(m: int): int { 367 * m / 12 - 30 }

  const EPOCH := 719527 - 59

  // The Gauss formula of ngx_parse_http_time: days since January 1, 1970. Months are 1 to 12.
  function DayNumber(d: Date): int {
    var month, year := if d.month <= 2 then d.month + 10 else d.month - 2, if d.month <= 2 then d.year - 1 else d.year;
    YearDays(year) + MonthDays(month) + d.day - 1 - EPOCH
  }

  lemma YearLength(y: int)
    ensures YearDays(y + 1) - YearDays(y) == if Leap(y + 1) then 366 else 365
  {
    StepDiv(y, 4);
    StepDiv(y, 100);
    StepDiv(y, 400);
    LeapDivides(y + 1);
  }

  lemma StepDiv(y: int, k: int)
    requires k > 1
    ensures (y + 1) / k - y / k == if (y + 1) % k == 0 then 1 else 0
  {
    var q, r := y / k, y % k;
    assert y == q * k + r;
    if r + 1 < k {
      Quotient(y + 1, k, q, r + 1);
    } else {
      Quotient(y + 1, k, q + 1, 0);
    }
  }

  lemma Quotient(x: int, k: int, q: int, r: int)
    requires k > 0 && x == q * k + r && 0 <= r < k
    ensures x / k == q && x % k == r
  {
    var e := x / k - q;
    assert e * k == r - x % k;
    assert e >= 1 ==> e * k >= k;
    assert e <= -1 ==> e * k <= -k;
  }

  lemma LeapDivides(y: int)
    ensures y % 400 == 0 ==> y % 100 == 0
    ensures y % 100 == 0 ==> y % 4 == 0
  {
  }

  lemma MonthTable()
    ensures MonthDays(1) == 0 && MonthDays(2) == 31 && MonthDays(3) == 61 && MonthDays(4) == 92 && MonthDays(5) == 122
    ensures MonthDays(6) == 153 && MonthDays(7) == 184 && MonthDays(8) == 214 && MonthDays(9) == 245 && MonthDays(10) == 275
    ensures MonthDays(11) == 306 && MonthDays(12) == 337
  {
  }

  // The formula counts one day more for the next day.
  lemma NextDayNumber(d: Date)
    requires Valid(d)
    ensures Valid(NextDay(d)) && DayNumber(NextDay(d)) == DayNumber(d) + 1
  {
    MonthTable();
    YearLength(d.year - 1);
  }

  // ---- ngx_gmtime ----

  // The estimate of the year, from the days since March 1 of year 0.
  function YearGuess(days: int): int { (days + 2) * 400 / 146097 }

  // The year from March, and the day in it.
  function YearOf(days: int): (r: (int, int)) {
    var year := YearGuess(days);
    var yday := days - YearDays(year);
    if yday < 0 then (year - 1, 365 + (if Leap(year) then 1 else 0) + yday) else (year, yday)
  }

  function DateOf(year: int, yday: int): Date {
    var mon := (yday + 31) * 10 / 306;
    var mday := yday - MonthDays(mon) + 1;
    if yday >= 306 then Date(year + 1, mon - 10, mday) else Date(year, mon + 2, mday)
  }

  function Gmtime(t: nat): Tm {
    var days := t / 86400;
    var n := t % 86400;
    var (year, yday) := YearOf(days + EPOCH);
    Tm(DateOf(year, yday), n / 3600, n % 3600 / 60, n % 3600 % 60, (4 + days) % 7)
  }

  // 400 times the days of y years, against the mean length of a year.
  lemma MeanYear(y: int)
    ensures 146097 * y - 699 <= 400 * YearDays(y) <= 146097 * y + 396
  {
  }

  // The estimate is right or one too large.
  lemma GuessIsClose(days: int)
    requires days >= 0
    ensures var e := YearGuess(days); YearDays(e - 1) <= days < YearDays(e + 1)
  {
    var e := YearGuess(days);
    MeanYear(e - 1);
    MeanYear(e + 1);
  }

  lemma YearOfIs(days: int)
    requires days >= 0
    ensures var (y, d) := YearOf(days); days == YearDays(y) + d && 0 <= d < YearDays(y + 1) - YearDays(y)
  {
    GuessIsClose(days);
    YearLength(YearGuess(days) - 1);
  }

  // The month formula inverts the table of days before the months.
  lemma MonthOf(yday: int)
    requires 0 <= yday <= 365
    ensures var m := (yday + 31) * 10 / 306; 1 <= m <= 12 && MonthDays(m) <= yday && (m < 12 ==> yday < MonthDays(m + 1)) && (m >= 11 <==> yday >= 306)
  {
    var m := (yday + 31) * 10 / 306;
    assert 306 * m <= (yday + 31) * 10 < 306 * (m + 1);
    MonthTable();
  }

  lemma DateIs(y: int, yday: int)
    requires 0 <= yday < YearDays(y + 1) - YearDays(y)
    ensures Valid(DateOf(y, yday)) && DayNumber(DateOf(y, yday)) == YearDays(y) + yday - EPOCH
  {
    YearLength(y);
    MonthOf(yday);
    MonthTable();
  }

  // The formula counts the days of the date again.
  lemma DaysComeBack(n: nat)
    ensures var (y, d) := YearOf(n + EPOCH); Valid(DateOf(y, d)) && DayNumber(DateOf(y, d)) == n
  {
    YearOfIs(n + EPOCH);
    var (y, d) := YearOf(n + EPOCH);
    DateIs(y, d);
  }

  // ---- the formula determines the date ----

  function FromMarch(d: Date): (int, int) { (if d.month <= 2 then d.year - 1 else d.year, if d.month <= 2 then d.month + 10 else d.month - 2) }

  // The day in the year from March.
  function DayOfYear(d: Date): int { MonthDays(FromMarch(d).1) + d.day - 1 }

  lemma DayOfYearRange(d: Date)
    requires Valid(d)
    ensures var (y, m) := FromMarch(d);
      && DayNumber(d) == YearDays(y) + DayOfYear(d) - EPOCH
      && 0 <= DayOfYear(d) < YearDays(y + 1) - YearDays(y)
      && 1 <= m <= 12 && MonthDays(m) <= DayOfYear(d) && (m < 12 ==> DayOfYear(d) < MonthDays(m + 1))
  {
    MonthTable();
    YearLength(FromMarch(d).0);
  }

  lemma YearsGrow(a: int, b: int)
    requires a < b
    ensures YearDays(a + 1) <= YearDays(b)
  {
    MeanYear(a + 1);
    MeanYear(b);
  }

  lemma MonthUnique(m: int, n: int, yday: int)
    requires 1 <= m <= 12 && MonthDays(m) <= yday && (m < 12 ==> yday < MonthDays(m + 1))
    requires 1 <= n <= 12 && MonthDays(n) <= yday && (n < 12 ==> yday < MonthDays(n + 1))
    ensures m == n
  {
    MonthTable();
  }

  lemma DateUnique(d: Date, e: Date)
    requires Valid(d) && Valid(e) && DayNumber(d) == DayNumber(e)
    ensures d == e
  {
    DayOfYearRange(d);
    DayOfYearRange(e);
    YearUnique(FromMarch(d).0, FromMarch(e).0, DayOfYear(d), DayOfYear(e));
    MonthUnique(FromMarch(d).1, FromMarch(e).1, DayOfYear(d));
  }

  lemma YearUnique(y: int, z: int, i: int, j: int)
    requires 0 <= i < YearDays(y + 1) - YearDays(y) && 0 <= j < YearDays(z + 1) - YearDays(z) && YearDays(y) + i == YearDays(z) + j
    ensures y == z && i == j
  {
    if y < z { YearsGrow(y, z); }
    if z < y { YearsGrow(z, y); }
  }

  lemma {:induction false} NthNumber(n: nat)
    ensures Valid(Nth(n)) && DayNumber(Nth(n)) == n
  {
    if n > 0 {
      NthNumber(n - 1);
      NextDayNumber(Nth(n - 1));
    }
  }

  lemma {:induction false} WeekdayIs(n: nat)
    ensures Weekday(n) == (4 + n) % 7
  {
    if n > 0 {
      WeekdayIs(n - 1);
      NextMod7(4 + (n - 1));
    }
  }

  lemma NextMod7(x: nat)
    ensures (x % 7 + 1) % 7 == (x + 1) % 7
  {
  }

  // ngx_gmtime gives the date that the calendar gives, and its parts make up the time again.
  lemma GmtimeIsRight(t: nat)
    ensures var tm := Gmtime(t);
      && tm.date == Nth(t / 86400) && Valid(tm.date) && tm.wday == Weekday(t / 86400)
      && 0 <= tm.hour < 24 && 0 <= tm.min < 60 && 0 <= tm.sec < 60
      && t == DayNumber(tm.date) * 86400 + tm.hour * 3600 + tm.min * 60 + tm.sec
  {
    DateIsNth(t / 86400);
    WeekdayIs(t / 86400);
    ClockParts(t % 86400);
  }

  lemma DateIsNth(n: nat)
    ensures var (y, d) := YearOf(n + EPOCH); DateOf(y, d) == Nth(n) && Valid(Nth(n)) && DayNumber(Nth(n)) == n
  {
    DaysComeBack(n);
    NthNumber(n);
    var (y, d) := YearOf(n + EPOCH);
    DateUnique(DateOf(y, d), Nth(n));
  }

  lemma ClockParts(n: nat)
    requires n < 86400
    ensures 0 <= n / 3600 < 24 && 0 <= n % 3600 / 60 < 60 && 0 <= n % 3600 % 60 < 60
    ensures n == n / 3600 * 3600 + n % 3600 / 60 * 60 + n % 3600 % 60
  {
  }

  // From 1970 on.
  lemma {:induction false} YearFrom1970(n: nat)
    ensures Nth(n).year >= 1970
  {
    if n > 0 { YearFrom1970(n - 1); }
  }
}

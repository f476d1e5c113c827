/** ngx_http_time of src/core/ngx_times.c and ngx_parse_http_time of src/core/ngx_parse_time.c. */
module HttpTime {
  import opened Calendar
  import InetText

  const WORD := 0x1_0000_0000_0000_0000

  const WEEK: seq<string> := ["Sun", "Mon", "Tue", "Wed", "Thu", "Fri", "Sat"]
  const MONTHS: seq<string> := ["Jan", "Feb", "Mar", "Apr", "May", "Jun", "Jul", "Aug", "Sep", "Oct", "Nov", "Dec"]
  const MDAY: seq<int> := [31, 28, 31, 30, 31, 30, 31, 31, 30, 31, 30, 31]

  // ---- printing ----

  // %02d
  function Two(n: int): (s: string)
    requires 0 <= n < 100
    ensures |s| == 2
  {
    [InetText.Digit(n / 10), InetText.Digit(n % 10)]
  }

  // %4d, from year 1970 on
  function Year(n: int): (s: string)
    requires n >= 1000
    ensures n < 10000 ==> |s| == 4
  {
    if n < 10000 then [InetText.Digit(n / 1000), InetText.Digit(n / 100 % 10), InetText.Digit(n / 10 % 10), InetText.Digit(n % 10)] else InetText.Number(n, 10)
  }

  ghost predicate Printable(tm: Tm) {
    0 <= tm.wday < 7 && Valid(tm.date) && tm.date.year >= 1000 && 0 <= tm.hour < 24 && 0 <= tm.min < 60 && 0 <= tm.sec < 60
  }

  function DateText(tm: Tm): string
    requires Printable(tm)
  {
    WEEK[tm.wday] + ", " + Two(tm.date.day) + " " + MONTHS[tm.date.month - 1] + " " + Year(tm.date.year)
  }

  function ClockText(tm: Tm): string
    requires Printable(tm)
  {
    " " + Two(tm.hour) + ":" + Two(tm.min) + ":" + Two(tm.sec) + " GMT"
  }

  function Text(tm: Tm): string
    requires Printable(tm)
  {
    DateText(tm) + ClockText(tm)
  }

  // ---- reading ----

  datatype Time = NoTime | At(t: int)
  datatype Format = Rfc822 | Rfc850 | Isoc

  function Value(c: char): int { if '0' <= c <= '9' then c as int - '0' as int else -1 }

  function ReadTwo(s: string, p: int): int
    requires 0 <= p && p + 1 < |s|
  {
    if Value(s[p]) < 0 || Value(s[p + 1]) < 0 then -1 else Value(s[p]) * 10 + Value(s[p + 1])
  }

  function ReadFour(s: string, p: int): int
    requires 0 <= p && p + 3 < |s|
  {
    if ReadTwo(s, p) < 0 || ReadTwo(s, p + 2) < 0 then -1 else ReadTwo(s, p) * 100 + ReadTwo(s, p + 2)
  }

  // The month from 0, by the letters that tell it from the others.
  function ReadMonth(s: string, p: int): (m: int)
    requires 0 <= p && p + 2 < |s|
    ensures -1 <= m < 12
  {
    match s[p]
    case 'J' => if s[p + 1] == 'a' then 0 else if s[p + 2] == 'n' then 5 else 6
    case 'F' => 1
    case 'M' => if s[p + 2] == 'r' then 2 else 4
    case 'A' => if s[p + 1] == 'p' then 3 else 7
    case 'S' => 8
    case 'O' => 9
    case 'N' => 10
    case 'D' => 11
    case _ => -1
  }

  // The time of a date and a time of day, in 64-bit arithmetic; the month is from 0.
  function Seconds(day: int, month: int, year: int, hour: int, min: int, sec: int): Time
    requires 0 <= month < 12
  {
    if hour > 23 || min > 59 || sec > 59 then NoTime
    else if day == 29 && month == 1 then (if Leap(year) then At(Gauss(day, month, year, hour, min, sec)) else NoTime)
    else if day > MDAY[month] then NoTime
    else At(Gauss(day, month, year, hour, min, sec))
  }

  function Gauss(day: int, month: int, year: int, hour: int, min: int, sec: int): int {
    var m, y := if month <= 1 then month + 11 else month - 1, if month <= 1 then (year - 1) % WORD else year;
    Signed((YearDays(y) + MonthDays(m) + day - 1 - EPOCH) * 86400 + hour * 3600 + min * 60 + sec)
  }

  function Signed(n: int): int {
    if n % WORD < WORD / 2 then n % WORD else n % WORD - WORD
  }

  // " hh:mm:ss", and the year behind it in the format of asctime
  function Clock(s: string, p: int, fmt: Format, day: int, month: int, year0: int): Time
    requires 0 <= p && 0 <= month < 12 && p + (if fmt == Isoc then 14 else 9) <= |s|
  {
    if s[p] != ' ' || ReadTwo(s, p + 1) < 0 || s[p + 3] != ':' || ReadTwo(s, p + 4) < 0 || s[p + 6] != ':' || ReadTwo(s, p + 7) < 0 then NoTime
    else if fmt == Isoc && (s[p + 9] != ' ' || ReadFour(s, p + 10) < 0) then NoTime
    else
      var year := if fmt == Isoc then ReadFour(s, p + 10) else year0;
      Seconds(day, month, year, ReadTwo(s, p + 1), ReadTwo(s, p + 4), ReadTwo(s, p + 7))
  }

  // From the month on
  function FromMonth(s: string, p: int, fmt: Format, day: int): Time
    requires 0 <= p && p + (match fmt case Rfc822 => 17 case Rfc850 => 15 case Isoc => 18) <= |s|
  {
    var month := ReadMonth(s, p);
    if month < 0 then NoTime
    else
      match fmt
      case Rfc822 =>
        if s[p + 3] != ' ' || ReadFour(s, p + 4) < 0 then NoTime
        else Clock(s, p + 8, fmt, day, month, ReadFour(s, p + 4))
      case Rfc850 =>
        var yy := ReadTwo(s, p + 4);
        if s[p + 3] != '-' || yy < 0 then NoTime
        else Clock(s, p + 6, fmt, day, month, yy + (if yy < 70 then 2000 else 1900))
      case Isoc =>
        var q := if s[p + 4] == ' ' then p + 5 else p + 4;
        if Value(s[q]) < 0 then NoTime
        else if s[q + 1] == ' ' then (if |s| - (q + 1) < 14 then NoTime else Clock(s, q + 1, fmt, Value(s[q]), month, 0))
        else if Value(s[q + 1]) < 0 then NoTime
        else if |s| - (q + 2) < 14 then NoTime
        else Clock(s, q + 2, fmt, Value(s[q]) * 10 + Value(s[q + 1]), month, 0)
  }

  // Behind the day of the week
  function FromDay(s: string, p: int, isoc: bool): Time
    requires 0 <= p
  {
    if |s| - p < 18 then NoTime
    else if isoc then FromMonth(s, p, Isoc, 0)
    else
      var day := ReadTwo(s, p);
      if day < 0 then NoTime
      else if s[p + 2] == ' ' then (if |s| - (p + 2) < 18 then NoTime else FromMonth(s, p + 3, Rfc822, day))
      else if s[p + 2] == '-' then FromMonth(s, p + 3, Rfc850, day)
      else NoTime
  }

  // Where the day of the week ends: a comma or a space.
  function Stop(s: string, p: nat): (q: nat)
    decreases |s| - p
    ensures p <= |s| ==> p <= q <= |s|
    ensures forall i :: p <= i < q && i < |s| ==> s[i] != ',' && s[i] != ' '
    ensures q < |s| ==> s[q] == ',' || s[q] == ' '
  {
    if p >= |s| then p else if s[p] == ',' || s[p] == ' ' then p else Stop(s, p + 1)
  }

  function Skip(s: string, p: nat): (q: nat)
    decreases |s| - p
    ensures p <= q && forall i :: p <= i < q && i < |s| ==> s[i] == ' '
    ensures q < |s| ==> s[q] != ' '
  {
    if p >= |s| then p else if s[p] == ' ' then Skip(s, p + 1) else p
  }

  function Parse(s: string): Time {
    var q := Stop(s, 0);
    FromDay(s, Skip(s, q + 1), q < |s| && s[q] == ' ')
  }

  method ParseHttpTime(s: string) returns (r: Time)
    ensures r == Parse(s)
  {
    var isoc := false;
    var p := 0;
    while p < |s|
      invariant 0 <= p <= |s| && Stop(s, p) == Stop(s, 0)
    {
      if s[p] == ',' {
        break;
      }
      if s[p] == ' ' {
        isoc := true;
        break;
      }
      p := p + 1;
    }
    ghost var q := p;
    p := p + 1;
    while p < |s|
      invariant q + 1 <= p && Skip(s, p) == Skip(s, q + 1)
    {
      if s[p] != ' ' {
        break;
      }
      p := p + 1;
    }
    r := FromDay(s, p, isoc);
  }

  // ---- the round trip ----

  lemma TwoComesBack(s: string, p: int, n: int)
    requires 0 <= n < 100 && 0 <= p && p + 1 < |s| && s[p] == Two(n)[0] && s[p + 1] == Two(n)[1]
    ensures ReadTwo(s, p) == n
  {
  }

  lemma YearComesBack(s: string, p: int, n: int)
    requires 1000 <= n < 10000 && 0 <= p && p + 3 < |s| && forall i {:trigger Year(n)[i]} :: 0 <= i < 4 ==> s[p + i] == Year(n)[i]
    ensures ReadFour(s, p) == n
  {
    assert s[p + 0] == Year(n)[0] && s[p + 1] == Year(n)[1] && s[p + 2] == Year(n)[2] && s[p + 3] == Year(n)[3];
    assert Value(InetText.Digit(n / 1000)) == n / 1000 && Value(InetText.Digit(n / 100 % 10)) == n / 100 % 10;
  }

  lemma MonthComesBack(s: string, p: int, m: int)
    requires 0 <= m < 12 && 0 <= p && p + 2 < |s| && s[p] == MONTHS[m][0] && s[p + 1] == MONTHS[m][1] && s[p + 2] == MONTHS[m][2]
    ensures ReadMonth(s, p) == m
  {
  }

  lemma SmallSigned(n: int)
    requires 0 <= n < WORD / 2
    ensures Signed(n) == n
  {
  }

  // A date of the calendar passes the checks.
  lemma DatePasses(d: Date, hour: int, min: int, sec: int)
    requires Valid(d) && 0 <= hour < 24 && 0 <= min < 60 && 0 <= sec < 60
    ensures Seconds(d.day, d.month - 1, d.year, hour, min, sec) == At(Gauss(d.day, d.month - 1, d.year, hour, min, sec))
  {
  }

  lemma DayBound(d: Date)
    requires Valid(d) && d.year <= 9999
    ensures DayNumber(d) < 10000 * 366
  {
    MeanYear(if d.month <= 2 then d.year - 1 else d.year);
    MonthTable();
  }

  // The formula of the reader is the day count of the calendar.
  lemma GaussIsDays(d: Date, hour: int, min: int, sec: int)
    requires Valid(d) && 1970 <= d.year <= 9999 && 0 <= hour < 24 && 0 <= min < 60 && 0 <= sec < 60 && DayNumber(d) >= 0
    ensures Gauss(d.day, d.month - 1, d.year, hour, min, sec) == DayNumber(d) * 86400 + hour * 3600 + min * 60 + sec
  {
    DayBound(d);
    SmallSigned(DayNumber(d) * 86400 + hour * 3600 + min * 60 + sec);
    PreviousYear(d.year);
  }

  lemma PreviousYear(y: int)
    requires 1 <= y < 10000
    ensures (y - 1) % WORD == y - 1
  {
  }

  lemma DateShape(tm: Tm)
    requires Printable(tm) && tm.date.year < 10000
    ensures var s := DateText(tm);
      && |s| == 16 && s[0] == WEEK[tm.wday][0] && s[1] == WEEK[tm.wday][1] && s[2] == WEEK[tm.wday][2] && s[3] == ',' && s[4] == ' '
      && s[5] == Two(tm.date.day)[0] && s[6] == Two(tm.date.day)[1] && s[7] == ' ' && |MONTHS[tm.date.month - 1]| == 3
      && s[8] == MONTHS[tm.date.month - 1][0] && s[9] == MONTHS[tm.date.month - 1][1] && s[10] == MONTHS[tm.date.month - 1][2] && s[11] == ' '
      && forall i {:trigger Year(tm.date.year)[i]} :: 0 <= i < 4 ==> s[12 + i] == Year(tm.date.year)[i]
  {
    assert |WEEK[tm.wday]| == 3 && |MONTHS[tm.date.month - 1]| == 3;
  }

  lemma ClockShape(tm: Tm)
    requires Printable(tm)
    ensures var s := ClockText(tm);
      && |s| == 13 && s[0] == ' ' && s[1] == Two(tm.hour)[0] && s[2] == Two(tm.hour)[1] && s[3] == ':'
      && s[4] == Two(tm.min)[0] && s[5] == Two(tm.min)[1] && s[6] == ':' && s[7] == Two(tm.sec)[0] && s[8] == Two(tm.sec)[1]
  {
  }

  lemma ClockComesBack(s: string, tm: Tm, day: int, month: int, year: int)
    requires Printable(tm) && 0 <= month < 12 && |s| == 29 && s[16..] == ClockText(tm)
    ensures Clock(s, 16, Rfc822, day, month, year) == Seconds(day, month, year, tm.hour, tm.min, tm.sec)
  {
    ClockShape(tm);
    var c := ClockText(tm);
    assert forall i :: 0 <= i < 13 ==> s[16 + i] == c[i];
    assert s[16] == c[0] && s[17] == c[1] && s[18] == c[2] && s[19] == c[3] && s[20] == c[4] && s[21] == c[5] && s[22] == c[6] && s[23] == c[7] && s[24] == c[8];
    TwoComesBack(s, 17, tm.hour);
    TwoComesBack(s, 20, tm.min);
    TwoComesBack(s, 23, tm.sec);
  }

  lemma DateComesBack(s: string, tm: Tm)
    requires Printable(tm) && tm.date.year < 10000 && |s| == 29 && s[..16] == DateText(tm)
    ensures Parse(s) == Clock(s, 16, Rfc822, tm.date.day, tm.date.month - 1, tm.date.year)
  {
    DateShape(tm);
    var d := DateText(tm);
    assert forall i :: 0 <= i < 16 ==> s[i] == d[i];
    Opening(s, tm);
    TwoComesBack(s, 5, tm.date.day);
    MonthComesBack(s, 8, tm.date.month - 1);
    YearComesBack(s, 12, tm.date.year);
  }

  // The reader finds the day behind the comma and the space.
  lemma Opening(s: string, tm: Tm)
    requires 0 <= tm.wday < 7 && |s| >= 29 && s[0] == WEEK[tm.wday][0] && s[1] == WEEK[tm.wday][1] && s[2] == WEEK[tm.wday][2] && s[3] == ',' && s[4] == ' ' && s[5] != ' '
    ensures Stop(s, 0) == 3 && Skip(s, 4) == 5
  {
    assert Stop(s, 2) == 3;
    assert Stop(s, 1) == 3;
    assert Skip(s, 5) == 5;
  }

  lemma TextIsRead(tm: Tm)
    requires Printable(tm) && tm.date.year < 10000
    ensures Parse(Text(tm)) == Seconds(tm.date.day, tm.date.month - 1, tm.date.year, tm.hour, tm.min, tm.sec)
  {
    var s := Text(tm);
    DateShape(tm);
    ClockShape(tm);
    Parts(DateText(tm), ClockText(tm));
    DateComesBack(s, tm);
    ClockComesBack(s, tm, tm.date.day, tm.date.month - 1, tm.date.year);
  }

  lemma Parts(a: string, b: string)
    ensures (a + b)[..|a|] == a && (a + b)[|a|..] == b
  {
  }

  lemma SecondsAreTime(d: Date, hour: int, min: int, sec: int)
    requires Valid(d) && 1970 <= d.year <= 9999 && 0 <= hour < 24 && 0 <= min < 60 && 0 <= sec < 60 && DayNumber(d) >= 0
    ensures Seconds(d.day, d.month - 1, d.year, hour, min, sec) == At(DayNumber(d) * 86400 + hour * 3600 + min * 60 + sec)
  {
    DatePasses(d, hour, min, sec);
    GaussIsDays(d, hour, min, sec);
  }

  // A time that was printed is read as it was exactly in the years that have four digits.
  lemma RoundTrip(t: nat)
    ensures Printable(Gmtime(t)) && (Parse(Text(Gmtime(t))) == At(t) <==> Gmtime(t).date.year <= 9999)
    ensures Gmtime(t).date.year > 9999 ==> Parse(Text(Gmtime(t))) == NoTime
  {
    GmtimeIsRight(t);
    YearFrom1970(t / 86400);
    NthNumber(t / 86400);
    if Gmtime(t).date.year <= 9999 { TripOf(Gmtime(t), t); } else { LongYear(Gmtime(t)); }
  }

  lemma {:induction false} NoSpace(n: nat, i: int)
    requires 0 <= i < |InetText.Number(n, 10)|
    ensures InetText.Number(n, 10)[i] != ' '
  {
    if n >= 10 && i < |InetText.Number(n / 10, 10)| { NoSpace(n / 10, i); }
  }

  lemma FiveDigits(n: nat)
    requires n >= 10000
    ensures |InetText.Number(n, 10)| >= 5
  {
    InetText.OneMoreDigit(n, 10);
    InetText.OneMoreDigit(n / 10, 10);
    InetText.OneMoreDigit(n / 10 / 10, 10);
    InetText.OneMoreDigit(n / 10 / 10 / 10, 10);
  }

  // The fifth digit of a year is where the reader expects a space.
  lemma LongYear(tm: Tm)
    requires Printable(tm) && tm.date.year > 9999
    ensures Parse(Text(tm)) == NoTime
  {
    var y := InetText.Number(tm.date.year, 10);
    FiveDigits(tm.date.year);
    NoSpace(tm.date.year, 4);
    LongShape(tm, y);
    var s := Text(tm);
    Opening(s, tm);
    TwoComesBack(s, 5, tm.date.day);
    MonthComesBack(s, 8, tm.date.month - 1);
  }

  lemma LongShape(tm: Tm, y: string)
    requires Printable(tm) && tm.date.year > 9999 && y == InetText.Number(tm.date.year, 10) && |y| >= 5
    ensures var s := Text(tm);
      && |s| >= 30 && s[0] == WEEK[tm.wday][0] && s[1] == WEEK[tm.wday][1] && s[2] == WEEK[tm.wday][2] && s[3] == ',' && s[4] == ' '
      && s[5] == Two(tm.date.day)[0] && s[6] == Two(tm.date.day)[1] && s[7] == ' ' && |MONTHS[tm.date.month - 1]| == 3
      && s[8] == MONTHS[tm.date.month - 1][0] && s[9] == MONTHS[tm.date.month - 1][1] && s[10] == MONTHS[tm.date.month - 1][2] && s[11] == ' '
      && s[16] == y[4]
  {
    ClockShape(tm);
    var a := WEEK[tm.wday] + ", " + Two(tm.date.day) + " " + MONTHS[tm.date.month - 1] + " ";
    assert |WEEK[tm.wday]| == 3 && |MONTHS[tm.date.month - 1]| == 3 && |a| == 12;
    assert Text(tm) == a + y + ClockText(tm);
    assert forall i :: 0 <= i < 12 ==> Text(tm)[i] == a[i];
  }

  // ---- the dates that are read ----

  // What passes the checks is a date of the calendar, or one with day 0, which stands for the day
  // before the month.
  lemma AcceptedDates(day: nat, month: int, year: nat, hour: nat, min: nat, sec: nat)
    requires 0 <= month < 12
    ensures Seconds(day, month, year, hour, min, sec) != NoTime <==>
      hour < 24 && min < 60 && sec < 60 && (day == 0 || Valid(Date(year, month + 1, day)))
  {
  }

  // The time that is read for a date and a time of day.
  lemma ReadTime(d: Date, hour: int, min: int, sec: int)
    requires Valid(d) && 1970 <= d.year <= 9999 && 0 <= hour < 24 && 0 <= min < 60 && 0 <= sec < 60
    ensures Seconds(d.day, d.month - 1, d.year, hour, min, sec) == At(DayNumber(d) * 86400 + hour * 3600 + min * 60 + sec)
  {
    NotBefore1970(d);
    SecondsAreTime(d, hour, min, sec);
  }

  lemma NotBefore1970(d: Date)
    requires Valid(d) && d.year >= 1970
    ensures DayNumber(d) >= 0
  {
    var e := Date(1970, 1, 1);
    DayOfYearRange(d);
    if FromMarch(d).0 >= 1970 {
      if FromMarch(d).0 > 1970 { YearsGrow(1970, FromMarch(d).0); }
      assert YearDays(1970) >= EPOCH;
    } else {
      MonthTable();
      assert YearDays(1969) + 306 == EPOCH;
    }
  }

  lemma TripOf(tm: Tm, t: nat)
    requires Printable(tm) && 1970 <= tm.date.year <= 9999 && DayNumber(tm.date) >= 0
    requires t == DayNumber(tm.date) * 86400 + tm.hour * 3600 + tm.min * 60 + tm.sec
    ensures Parse(Text(tm)) == At(t)
  {
    TextIsRead(tm);
    SecondsAreTime(tm.date, tm.hour, tm.min, tm.sec);
  }
}

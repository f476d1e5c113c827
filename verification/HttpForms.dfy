/** The other two formats that ngx_parse_http_time of src/core/ngx_parse_time.c reads: those of
    RFC 850 and of asctime. */
module HttpForms {
  import opened Calendar
  import opened HttpTime
  import InetText

  const WEEKDAYS: seq<string> := ["Sunday", "Monday", "Tuesday", "Wednesday", "Thursday", "Friday", "Saturday"]

  function ClockPart(tm: Tm): (s: string)
    requires Printable(tm)
    ensures |s| == 9
  {
    " " + Two(tm.hour) + ":" + Two(tm.min) + ":" + Two(tm.sec)
  }

  // Tuesday, 10-Dec-02 23:50:13 GMT
  function Text850(tm: Tm): string
    requires Printable(tm)
  {
    WEEKDAYS[tm.wday] + (", " + (Two(tm.date.day) + "-" + MONTHS[tm.date.month - 1] + "-" + Two(tm.date.year % 100)) + (ClockPart(tm) + " GMT"))
  }

  // %2d
  function Padded(n: int): (s: string)
    requires 0 <= n < 100
    ensures |s| == 2
  {
    [if n < 10 then ' ' else InetText.Digit(n / 10), InetText.Digit(n % 10)]
  }

  // Tue Dec 10 23:50:13 2002
  function TextIsoc(tm: Tm): string
    requires Printable(tm)
  {
    WEEK[tm.wday] + (" " + (MONTHS[tm.date.month - 1] + " " + Padded(tm.date.day)) + (ClockPart(tm) + " " + Year(tm.date.year)))
  }

  // " hh:mm:ss" from position p on.
  ghost predicate ClockAt(s: string, p: int, tm: Tm)
    requires Printable(tm)
  {
    0 <= p && p + 9 <= |s| && s[p..p + 9] == ClockPart(tm)
  }

  lemma ClockChars(s: string, p: int, tm: Tm)
    requires Printable(tm) && ClockAt(s, p, tm)
    ensures s[p] == ' ' && s[p + 3] == ':' && s[p + 6] == ':'
    ensures ReadTwo(s, p + 1) == tm.hour && ReadTwo(s, p + 4) == tm.min && ReadTwo(s, p + 7) == tm.sec
  {
    var c := ClockPart(tm);
    assert forall i {:trigger c[i]} :: 0 <= i < 9 ==> s[p + i] == c[i] by {
      forall i | 0 <= i < 9 ensures s[p + i] == c[i] { assert s[p..p + 9][i] == s[p + i]; }
    }
    assert c[0] == ' ' && c[3] == ':' && c[6] == ':';
    assert c[1] == Two(tm.hour)[0] && c[2] == Two(tm.hour)[1] && c[4] == Two(tm.min)[0] && c[5] == Two(tm.min)[1];
    assert c[7] == Two(tm.sec)[0] && c[8] == Two(tm.sec)[1];
    TwoComesBack(s, p + 1, tm.hour);
    TwoComesBack(s, p + 4, tm.min);
    TwoComesBack(s, p + 7, tm.sec);
  }

  // The name of the day is passed over.
  lemma NameEnds(name: string, rest: string)
    requires (forall i :: 0 <= i < |name| ==> name[i] != ',' && name[i] != ' ') && |rest| >= 1 && (rest[0] == ',' || rest[0] == ' ')
    ensures Stop(name + rest, 0) == |name|
  {
    var s := name + rest;
    assert s[|name|] == rest[0];
    forall i | 0 <= i < |name| ensures s[i] != ',' && s[i] != ' ' { assert s[i] == name[i]; }
  }

  lemma SkipOne(s: string, p: int)
    requires 0 <= p && p + 1 < |s| && s[p] == ' ' && s[p + 1] != ' '
    ensures Skip(s, p) == p + 1
  {
    assert Skip(s, p + 1) == p + 1;
  }

  lemma SkipNone(s: string, p: int)
    requires 0 <= p < |s| && s[p] != ' '
    ensures Skip(s, p) == p
  {
  }

  // ---- RFC 850 ----

  lemma DayNames(w: int)
    requires 0 <= w < 7
    ensures forall i :: 0 <= i < |WEEKDAYS[w]| ==> WEEKDAYS[w][i] != ',' && WEEKDAYS[w][i] != ' '
    ensures |WEEK[w]| == 3 && forall i :: 0 <= i < |WEEK[w]| ==> WEEK[w][i] != ',' && WEEK[w][i] != ' '
  {
  }

  // The characters behind the name of the day.
  lemma Shape850(tm: Tm)
    requires Printable(tm)
    ensures var r := ", " + (Two(tm.date.day) + "-" + MONTHS[tm.date.month - 1] + "-" + Two(tm.date.year % 100)) + (ClockPart(tm) + " GMT");
      && |r| == 24 && r[0] == ',' && r[1] == ' ' && r[2] == Two(tm.date.day)[0] && r[3] == Two(tm.date.day)[1] && r[4] == '-'
      && |MONTHS[tm.date.month - 1]| == 3 && r[5] == MONTHS[tm.date.month - 1][0] && r[6] == MONTHS[tm.date.month - 1][1] && r[7] == MONTHS[tm.date.month - 1][2]
      && r[8] == '-' && r[9] == Two(tm.date.year % 100)[0] && r[10] == Two(tm.date.year % 100)[1] && r[11..20] == ClockPart(tm)
  {
    var m := MONTHS[tm.date.month - 1];
    assert |m| == 3;
    var d := Two(tm.date.day) + "-" + m + "-" + Two(tm.date.year % 100);
    assert |d| == 9 && d[0] == Two(tm.date.day)[0] && d[1] == Two(tm.date.day)[1] && d[2] == '-' && d[3] == m[0] && d[4] == m[1] && d[5] == m[2];
    assert d[6] == '-' && d[7] == Two(tm.date.year % 100)[0] && d[8] == Two(tm.date.year % 100)[1];
    var r := ", " + d + (ClockPart(tm) + " GMT");
    assert forall i :: 0 <= i < 9 ==> r[2 + i] == d[i];
    assert r[11..20] == ClockPart(tm);
  }

  lemma Read850(tm: Tm)
    requires Printable(tm) && 1970 <= tm.date.year < 2070
    ensures Parse(Text850(tm)) == Seconds(tm.date.day, tm.date.month - 1, tm.date.year, tm.hour, tm.min, tm.sec)
  {
    var name, s := WEEKDAYS[tm.wday], Text850(tm);
    var r := ", " + (Two(tm.date.day) + "-" + MONTHS[tm.date.month - 1] + "-" + Two(tm.date.year % 100)) + (ClockPart(tm) + " GMT");
    Shape850(tm);
    DayNames(tm.wday);
    NameEnds(name, r);
    var n := |name|;
    Behind(name, r);
    SkipOne(s, n + 1);
    assert s[n + 11..n + 20] == ClockPart(tm);
    From850(s, n + 2, tm);
  }

  lemma Behind(a: string, r: string)
    ensures forall i {:trigger r[i]} :: 0 <= i < |r| ==> (a + r)[|a| + i] == r[i]
    ensures forall i, j {:trigger r[i..j]} :: 0 <= i <= j <= |r| ==> (a + r)[|a| + i..|a| + j] == r[i..j]
  {
  }

  lemma From850(s: string, p: int, tm: Tm)
    requires Printable(tm) && 1970 <= tm.date.year < 2070 && 0 <= p && p + 22 <= |s|
    requires s[p] == Two(tm.date.day)[0] && s[p + 1] == Two(tm.date.day)[1] && s[p + 2] == '-'
    requires |MONTHS[tm.date.month - 1]| == 3 && s[p + 3] == MONTHS[tm.date.month - 1][0] && s[p + 4] == MONTHS[tm.date.month - 1][1] && s[p + 5] == MONTHS[tm.date.month - 1][2]
    requires s[p + 6] == '-' && s[p + 7] == Two(tm.date.year % 100)[0] && s[p + 8] == Two(tm.date.year % 100)[1] && ClockAt(s, p + 9, tm)
    ensures FromDay(s, p, false) == Seconds(tm.date.day, tm.date.month - 1, tm.date.year, tm.hour, tm.min, tm.sec)
  {
    TwoComesBack(s, p, tm.date.day);
    MonthComesBack(s, p + 3, tm.date.month - 1);
    TwoComesBack(s, p + 7, tm.date.year % 100);
    ClockChars(s, p + 9, tm);
    Century(tm.date.year);
  }

  // Two digits of the year stand for the years 1970 to 2069.
  lemma Century(year: int)
    requires 1970 <= year < 2070
    ensures var yy := year % 100; yy + (if yy < 70 then 2000 else 1900) == year
  {
  }

  // ---- asctime ----

  lemma ShapeIsoc(tm: Tm)
    requires Printable(tm) && tm.date.year < 10000
    ensures var r := " " + (MONTHS[tm.date.month - 1] + " " + Padded(tm.date.day)) + (ClockPart(tm) + " " + Year(tm.date.year));
      && |r| == 21 && r[0] == ' ' && |MONTHS[tm.date.month - 1]| == 3 && r[1] == MONTHS[tm.date.month - 1][0] && r[2] == MONTHS[tm.date.month - 1][1]
      && r[3] == MONTHS[tm.date.month - 1][2] && r[4] == ' ' && r[5] == Padded(tm.date.day)[0] && r[6] == Padded(tm.date.day)[1]
      && r[7..16] == ClockPart(tm) && r[16] == ' ' && r[17..21] == Year(tm.date.year)
  {
    var m := MONTHS[tm.date.month - 1];
    assert |m| == 3;
    var d := m + " " + Padded(tm.date.day);
    assert |d| == 6 && d[0] == m[0] && d[1] == m[1] && d[2] == m[2] && d[3] == ' ' && d[4] == Padded(tm.date.day)[0] && d[5] == Padded(tm.date.day)[1];
    var r := " " + d + (ClockPart(tm) + " " + Year(tm.date.year));
    assert forall i :: 0 <= i < 6 ==> r[1 + i] == d[i];
    assert r[7..16] == ClockPart(tm);
    assert r[17..21] == Year(tm.date.year);
  }

  lemma ReadIsoc(tm: Tm)
    requires Printable(tm) && tm.date.year < 10000
    ensures Parse(TextIsoc(tm)) == Seconds(tm.date.day, tm.date.month - 1, tm.date.year, tm.hour, tm.min, tm.sec)
  {
    var name, s := WEEK[tm.wday], TextIsoc(tm);
    var r := " " + (MONTHS[tm.date.month - 1] + " " + Padded(tm.date.day)) + (ClockPart(tm) + " " + Year(tm.date.year));
    ShapeIsoc(tm);
    DayNames(tm.wday);
    NameEnds(name, r);
    Behind(name, r);
    assert s[4] == r[1] && r[1] != ' ' by { MonthLetter(tm.date.month - 1); }
    SkipNone(s, 4);
    assert s[10..19] == r[7..16] && s[20..24] == r[17..21];
    FromIsoc(s, 4, tm);
  }

  lemma MonthLetter(m: int)
    requires 0 <= m < 12
    ensures |MONTHS[m]| == 3 && MONTHS[m][0] != ' '
  {
  }

  lemma YearAt(s: string, p: int, n: int)
    requires 1000 <= n < 10000 && 0 <= p && p + 4 <= |s| && s[p..p + 4] == Year(n)
    ensures ReadFour(s, p) == n
  {
    forall i | 0 <= i < 4 ensures s[p + i] == Year(n)[i] { assert s[p..p + 4][i] == s[p + i]; }
    YearComesBack(s, p, n);
  }

  lemma FromIsoc(s: string, p: int, tm: Tm)
    requires Printable(tm) && tm.date.year < 10000 && 0 <= p && p + 20 == |s|
    requires |MONTHS[tm.date.month - 1]| == 3 && s[p] == MONTHS[tm.date.month - 1][0] && s[p + 1] == MONTHS[tm.date.month - 1][1] && s[p + 2] == MONTHS[tm.date.month - 1][2]
    requires s[p + 3] == ' ' && s[p + 4] == Padded(tm.date.day)[0] && s[p + 5] == Padded(tm.date.day)[1]
    requires ClockAt(s, p + 6, tm) && s[p + 15] == ' ' && s[p + 16..p + 20] == Year(tm.date.year)
    ensures FromDay(s, p, true) == Seconds(tm.date.day, tm.date.month - 1, tm.date.year, tm.hour, tm.min, tm.sec)
  {
    MonthComesBack(s, p, tm.date.month - 1);
    ClockIsoc(s, p + 6, tm, tm.date.day, tm.date.month - 1);
    assert s[p + 6] == ' ' by { ClockChars(s, p + 6, tm); }
    PaddedBack(s, p + 4, tm.date.day);
    DayIsoc(s, p, tm.date.day, tm.date.month - 1);
  }

  // The day is read up to the clock.
  lemma DayIsoc(s: string, p: int, day: int, month: int)
    requires 0 <= p && p + 20 == |s| && ReadMonth(s, p) == month && 0 <= month && 0 <= day < 100 && s[p + 6] == ' '
    requires day < 10 ==> s[p + 4] == ' ' && Value(s[p + 5]) == day
    requires day >= 10 ==> s[p + 4] != ' ' && s[p + 5] != ' ' && Value(s[p + 4]) >= 0 && Value(s[p + 5]) >= 0 && Value(s[p + 4]) * 10 + Value(s[p + 5]) == day
    ensures FromDay(s, p, true) == Clock(s, p + 6, Isoc, day, month, 0)
  {
  }

  lemma ClockIsoc(s: string, p: int, tm: Tm, day: int, month: int)
    requires Printable(tm) && tm.date.year < 10000 && 0 <= month < 12
    requires ClockAt(s, p, tm) && p + 14 <= |s| && s[p + 9] == ' ' && s[p + 10..p + 14] == Year(tm.date.year)
    ensures Clock(s, p, Isoc, day, month, 0) == Seconds(day, month, tm.date.year, tm.hour, tm.min, tm.sec)
  {
    ClockChars(s, p, tm);
    YearAt(s, p + 10, tm.date.year);
  }

  // A day of one digit has a space before it.
  lemma PaddedBack(s: string, p: int, n: int)
    requires 0 <= n < 100 && 0 <= p && p + 1 < |s| && s[p] == Padded(n)[0] && s[p + 1] == Padded(n)[1]
    ensures n < 10 ==> s[p] == ' ' && Value(s[p + 1]) == n
    ensures n >= 10 ==> s[p] != ' ' && s[p + 1] != ' ' && Value(s[p]) >= 0 && Value(s[p + 1]) >= 0 && Value(s[p]) * 10 + Value(s[p + 1]) == n
  {
  }

  // ---- the round trips ----

  lemma Trip850(tm: Tm)
    requires Printable(tm) && 1970 <= tm.date.year < 2070
    ensures Parse(Text850(tm)) == At(DayNumber(tm.date) * 86400 + tm.hour * 3600 + tm.min * 60 + tm.sec)
  {
    Read850(tm);
    ReadTime(tm.date, tm.hour, tm.min, tm.sec);
  }

  lemma TripIsoc(tm: Tm)
    requires Printable(tm) && 1970 <= tm.date.year < 10000
    ensures Parse(TextIsoc(tm)) == At(DayNumber(tm.date) * 86400 + tm.hour * 3600 + tm.min * 60 + tm.sec)
  {
    ReadIsoc(tm);
    ReadTime(tm.date, tm.hour, tm.min, tm.sec);
  }
}

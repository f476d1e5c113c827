/** Which texts ngx_parse_http_time of src/core/ngx_parse_time.c reads, by their shapes. */
module HttpShape {
  import opened HttpTime

  predicate Digit(c: char) { '0' <= c <= '9' }

  ghost predicate Digits(s: string, p: int, n: nat) {
    0 <= p && p + n <= |s| && forall i :: p <= i < p + n ==> Digit(s[i])
  }

  // The number that n digits stand for.
  ghost function Num(s: string, p: int, n: nat): int {
    if n == 0 || !(0 <= p && p + n <= |s|) then 0 else Num(s, p, n - 1) * 10 + (s[p + n - 1] as int - '0' as int)
  }

  // " hh:mm:ss"
  ghost predicate ClockAt(s: string, p: int) {
    && 0 <= p && p + 9 <= |s| && s[p] == ' ' && Digits(s, p + 1, 2) && s[p + 3] == ':' && Digits(s, p + 4, 2) && s[p + 6] == ':' && Digits(s, p + 7, 2)
  }

  // The month is told by letters that no other one has in their place.
  ghost predicate MonthAt(s: string, p: int) { 0 <= p && p + 3 <= |s| && s[p] in "JFMASOND" }

  // "dd Mon yyyy hh:mm:ss"
  ghost predicate Rfc822At(s: string, p: int) {
    Digits(s, p, 2) && p + 20 <= |s| && s[p + 2] == ' ' && MonthAt(s, p + 3) && s[p + 6] == ' ' && Digits(s, p + 7, 4) && ClockAt(s, p + 11)
  }

  // "dd-Mon-yy hh:mm:ss"
  ghost predicate Rfc850At(s: string, p: int) {
    Digits(s, p, 2) && p + 18 <= |s| && s[p + 2] == '-' && MonthAt(s, p + 3) && s[p + 6] == '-' && Digits(s, p + 7, 2) && ClockAt(s, p + 9)
  }

  // "d hh:mm:ss yyyy" with a day of n digits
  ghost predicate IsocFrom(s: string, q: int, n: nat) {
    Digits(s, q, n) && ClockAt(s, q + n) && q + n + 14 <= |s| && s[q + n + 9] == ' ' && Digits(s, q + n + 10, 4)
  }

  ghost function Timed(s: string, day: int, month: int, year: int, clock: int): Time
    requires 0 <= month && month + 2 < |s|
  {
    if ReadMonth(s, month) < 0 then NoTime
    else Seconds(day, ReadMonth(s, month), year, Num(s, clock + 1, 2), Num(s, clock + 4, 2), Num(s, clock + 7, 2))
  }

  // "Mon ", perhaps one more space, and the rest; what follows the three letters is not looked at.
  ghost function IsocTime(s: string, p: int): Time
    requires 0 <= p
  {
    if !MonthAt(s, p) || p + 5 > |s| then NoTime
    else
      var q := if s[p + 4] == ' ' then p + 5 else p + 4;
      if IsocFrom(s, q, 1) then Timed(s, Num(s, q, 1), p, Num(s, q + 11, 4), q + 1)
      else if IsocFrom(s, q, 2) then Timed(s, Num(s, q, 2), p, Num(s, q + 12, 4), q + 2)
      else NoTime
  }

  // The time that a text stands for, by what is behind its first word and the blanks.
  ghost function Meant(s: string, p: int, isoc: bool): Time
    requires 0 <= p
  {
    if isoc then IsocTime(s, p)
    else if Rfc822At(s, p) then Timed(s, Num(s, p, 2), p + 3, Num(s, p + 7, 4), p + 11)
    else if Rfc850At(s, p) then
      var yy := Num(s, p + 7, 2);
      Timed(s, Num(s, p, 2), p + 3, if yy < 70 then 2000 + yy else 1900 + yy, p + 9)
    else NoTime
  }

  // ---- numbers ----

  lemma TwoIs(s: string, p: int)
    requires 0 <= p && p + 1 < |s|
    ensures ReadTwo(s, p) == if Digits(s, p, 2) then Num(s, p, 2) else -1
    ensures Digits(s, p, 2) <==> Digit(s[p]) && Digit(s[p + 1])
    ensures Digits(s, p, 2) ==> 0 <= Num(s, p, 2) < 100
  {
    assert Num(s, p, 1) == Num(s, p, 0) * 10 + (s[p] as int - '0' as int);
    assert Num(s, p, 2) == Num(s, p, 1) * 10 + (s[p + 1] as int - '0' as int);
  }

  lemma FourIs(s: string, p: int)
    requires 0 <= p && p + 3 < |s|
    ensures ReadFour(s, p) == if Digits(s, p, 4) then Num(s, p, 4) else -1
    ensures Digits(s, p, 4) ==> 0 <= Num(s, p, 4)
  {
    TwoIs(s, p);
    TwoIs(s, p + 2);
    assert Digits(s, p, 4) <==> Digits(s, p, 2) && Digits(s, p + 2, 2);
    assert Num(s, p, 3) == Num(s, p, 2) * 10 + (s[p + 2] as int - '0' as int);
    assert Num(s, p, 4) == Num(s, p, 3) * 10 + (s[p + 3] as int - '0' as int);
    assert Num(s, p + 2, 1) == s[p + 2] as int - '0' as int;
  }

  lemma MonthIs(s: string, p: int)
    requires 0 <= p && p + 2 < |s|
    ensures ReadMonth(s, p) >= 0 <==> MonthAt(s, p)
  {
  }

  // ---- the reader ----

  lemma ClockIs(s: string, p: int, fmt: Format, day: int, month: int, year: int)
    requires 0 <= p && 0 <= month < 12 && p + 9 <= |s| && fmt != Isoc
    ensures Clock(s, p, fmt, day, month, year) ==
      if ClockAt(s, p) then Seconds(day, month, year, Num(s, p + 1, 2), Num(s, p + 4, 2), Num(s, p + 7, 2)) else NoTime
  {
    TwoIs(s, p + 1);
    TwoIs(s, p + 4);
    TwoIs(s, p + 7);
  }

  lemma IsocClockIs(s: string, p: int, day: int, month: int)
    requires 0 <= p && 0 <= month < 12 && p + 14 <= |s|
    ensures Clock(s, p, Isoc, day, month, 0) ==
      if ClockAt(s, p) && s[p + 9] == ' ' && Digits(s, p + 10, 4) then Seconds(day, month, Num(s, p + 10, 4), Num(s, p + 1, 2), Num(s, p + 4, 2), Num(s, p + 7, 2)) else NoTime
  {
    TwoIs(s, p + 1);
    TwoIs(s, p + 4);
    TwoIs(s, p + 7);
    FourIs(s, p + 10);
  }

  lemma Rfc822Is(s: string, p: int)
    requires 0 <= p && p + 20 <= |s| && Digits(s, p, 2) && s[p + 2] == ' '
    ensures FromMonth(s, p + 3, Rfc822, Num(s, p, 2)) == if Rfc822At(s, p) then Timed(s, Num(s, p, 2), p + 3, Num(s, p + 7, 4), p + 11) else NoTime
  {
    MonthIs(s, p + 3);
    FourIs(s, p + 7);
    if ReadMonth(s, p + 3) >= 0 { ClockIs(s, p + 11, Rfc822, Num(s, p, 2), ReadMonth(s, p + 3), Num(s, p + 7, 4)); }
  }

  lemma Rfc850Is(s: string, p: int)
    requires 0 <= p && p + 18 <= |s| && Digits(s, p, 2) && s[p + 2] == '-'
    ensures FromMonth(s, p + 3, Rfc850, Num(s, p, 2)) ==
      if Rfc850At(s, p) then var yy := Num(s, p + 7, 2); Timed(s, Num(s, p, 2), p + 3, if yy < 70 then 2000 + yy else 1900 + yy, p + 9) else NoTime
  {
    MonthIs(s, p + 3);
    TwoIs(s, p + 7);
    var yy := Num(s, p + 7, 2);
    if ReadMonth(s, p + 3) >= 0 { ClockIs(s, p + 9, Rfc850, Num(s, p, 2), ReadMonth(s, p + 3), yy + if yy < 70 then 2000 else 1900); }
  }

  // A day of one digit, or of two, at offset q.
  lemma IsocDay1(s: string, p: int, q: int)
    requires 0 <= p < q && q + 1 < |s| && p + 2 < |s| && ReadMonth(s, p) >= 0 && Digit(s[q]) && s[q + 1] == ' '
    ensures (if |s| - (q + 1) < 14 then NoTime else Clock(s, q + 1, Isoc, Value(s[q]), ReadMonth(s, p), 0)) ==
      if IsocFrom(s, q, 1) then Timed(s, Num(s, q, 1), p, Num(s, q + 11, 4), q + 1) else NoTime
  {
    assert Num(s, q, 1) == Num(s, q, 0) * 10 + (s[q] as int - '0' as int);
    if |s| - (q + 1) >= 14 { IsocClockIs(s, q + 1, Value(s[q]), ReadMonth(s, p)); }
  }

  lemma IsocDay2(s: string, p: int, q: int)
    requires 0 <= p < q && q + 1 < |s| && p + 2 < |s| && ReadMonth(s, p) >= 0 && Digits(s, q, 2)
    ensures (if |s| - (q + 2) < 14 then NoTime else Clock(s, q + 2, Isoc, Value(s[q]) * 10 + Value(s[q + 1]), ReadMonth(s, p), 0)) ==
      if IsocFrom(s, q, 2) then Timed(s, Num(s, q, 2), p, Num(s, q + 12, 4), q + 2) else NoTime
  {
    TwoIs(s, q);
    if |s| - (q + 2) >= 14 { IsocClockIs(s, q + 2, Num(s, q, 2), ReadMonth(s, p)); }
  }

  lemma IsocIs(s: string, p: int)
    requires 0 <= p && p + 18 <= |s|
    ensures FromMonth(s, p, Isoc, 0) == IsocTime(s, p)
  {
    MonthIs(s, p);
    var q := if s[p + 4] == ' ' then p + 5 else p + 4;
    if ReadMonth(s, p) >= 0 && Digit(s[q]) {
      if s[q + 1] == ' ' {
        IsocDay1(s, p, q);
      } else if Digit(s[q + 1]) {
        IsocDay2(s, p, q);
      }
    }
  }

  lemma DayIs(s: string, p: int)
    requires 0 <= p && p + 18 <= |s|
    ensures FromDay(s, p, false) == Meant(s, p, false)
  {
    TwoIs(s, p);
    if Digits(s, p, 2) {
      if s[p + 2] == ' ' && p + 20 <= |s| {
        Rfc822Is(s, p);
      } else if s[p + 2] == '-' {
        Rfc850Is(s, p);
      }
    }
  }

  lemma FromDayIs(s: string, p: int, isoc: bool)
    requires 0 <= p
    ensures FromDay(s, p, isoc) == Meant(s, p, isoc)
  {
    if p + 18 <= |s| {
      if isoc { IsocIs(s, p); } else { DayIs(s, p); }
    }
  }

  // Exactly the texts of one of the three shapes are read, and as the times they stand for.
  lemma ReadsExactly(s: string)
    ensures var q := Stop(s, 0); Parse(s) == Meant(s, Skip(s, q + 1), q < |s| && s[q] == ' ')
  {
    var q := Stop(s, 0);
    FromDayIs(s, Skip(s, q + 1), q < |s| && s[q] == ' ');
  }
}

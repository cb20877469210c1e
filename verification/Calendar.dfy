/** The civil-from-days arithmetic (src/backup_export.rs) against day-by-day counting
    under the Gregorian calendar. */
module Calendar {
  datatype Date = Date(year: int, month: int, day: int)

  // ------------------------------------------- the calendar, day after day

  /** The leap rule of Appendix C of RFC 3339. */
  predicate Leap(year: int)
  {
    year % 4 == 0 && (year % 100 != 0 || year % 400 == 0)
  }

  /** The month lengths of section 5.7 of RFC 3339. */
  function DaysInMonth(year: int, month: int): int
  {
    if month == 2 then (if Leap(year) then 29 else 28)
    else if month in {4, 6, 9, 11} then 30
    else 31
  }

  predicate Proper(d: Date)
  {
    1 <= d.month <= 12 && 1 <= d.day <= DaysInMonth(d.year, d.month)
  }

  function NextDay(d: Date): Date
  {
    if d.day < DaysInMonth(d.year, d.month) then d.(day := d.day + 1)
    else if d.month < 12 then Date(d.year, d.month + 1, 1)
    else Date(d.year + 1, 1, 1)
  }

  /** The date `n` days after 1970-01-01, counted one day at a time. */
  function NthDay(n: nat): Date
  {
    if n == 0 then Date(1970, 1, 1) else NextDay(NthDay(n - 1))
  }

  // ------------------------------------------------- the arithmetic, as coded

  function YearOfEra(doe: int): int
  {
    (doe - doe / 1460 + doe / 36524 - doe / 146096) / 365
  }

  /** The date of day `doy` of the year that starts on the first of March of `year`. */
  function FromMarch(year: int, doy: int): Date
  {
    var mp := (5 * doy + 2) / 153;
    var day := doy - (153 * mp + 2) / 5 + 1;
    var month := if mp < 10 then mp + 3 else mp - 9;
    Date(if month <= 2 then year + 1 else year, month, day)
  }

  function CivilFromDays(days: int): Date
  {
    var z := days + 719468;
    var era := z / 146097;
    var doe := z % 146097;
    var yoe := YearOfEra(doe);
    var doy := doe - (365 * yoe + yoe / 4 - yoe / 100);
    FromMarch(yoe + era * 400, doy)
  }

  // -------------------------------------------------- the arithmetic is right

  /** Days before March year `y` of an era. */
  function YearStart(y: int): int
  {
    365 * y + y / 4 - y / 100
  }

  /** A March year is long when the February at its end is. */
  function YearLength(y: int): int
  {
    if Leap(y + 1) then 366 else 365
  }

  lemma YearStartStep(y: int)
    requires 0 <= y < 400
    ensures YearStart(y) + YearLength(y) == if y == 399 then 146097 else YearStart(y + 1)
  {
    var a, q, r := y / 100, y % 100 / 4, y % 4;
    SplitYear(y, a, q, r);
    if r < 3 {
      NextSplit(y, a, q, r + 1);
    } else if q < 24 {
      NextSplit(y, a, q + 1, 0);
    } else if a < 3 {
      NextSplit(y, a + 1, 0, 0);
    }
  }

  lemma Multiple(d: int, e: int)
    requires d > 0
    ensures e >= 1 ==> d * e >= d
    ensures e <= -1 ==> d * e <= -d
  {
  }

  lemma Quotient(x: int, d: int, q: int)
    requires d > 0 && d * q <= x < d * q + d
    ensures x / d == q && x % d == x - d * q
  {
    var p, m := x / d, x % d;
    assert x == d * p + m && 0 <= m < d;
    assert d * (p - q) == d * p - d * q;
    Multiple(d, p - q);
  }

  /** The closed form recovers the year from any day of it. */
  lemma YearOfEraRight(y: int, doy: int)
    requires 0 <= y < 400 && 0 <= doy < YearLength(y)
    ensures YearOfEra(YearStart(y) + doy) == y
  {
    var a, q, r := y / 100, y % 100 / 4, y % 4;
    SplitYear(y, a, q, r);
    YearOfSplit(a, q, r, doy);
  }

  lemma YearOfSplit(a: int, q: int, r: int, doy: int)
    requires 0 <= a <= 3 && 0 <= q <= 24 && 0 <= r <= 3
    requires 0 <= doy < if r == 3 && (q < 24 || a == 3) then 366 else 365
    ensures YearOfEra(36524 * a + 1461 * q + 365 * r + doy) == 100 * a + 4 * q + r
  {
    var doe := 36524 * a + 1461 * q + 365 * r + doy;
    var last := if a == 3 && q == 24 && r == 3 && doy == 365 then 1 else 0;
    var carry := if 24 * a + q + 365 * r + doy >= 1460 then 1 else 0;
    var d1 := 25 * a + q + carry;
    assert doe / 1460 == d1 by { Quotient(doe, 1460, d1); }
    assert doe / 36524 == a + last by { Quotient(doe, 36524, a + last); }
    assert doe / 146096 == last by { Quotient(doe, 146096, last); }
    assert (doe - d1 + a) / 365 == 100 * a + 4 * q + r by { Quotient(doe - d1 + a, 365, 100 * a + 4 * q + r); }
  }

  /** A year of the era by centuries, four-year spans and the rest. */
  lemma SplitYear(y: int, a: int, q: int, r: int)
    requires 0 <= y < 400 && a == y / 100 && q == y % 100 / 4 && r == y % 4
    ensures 0 <= a <= 3 && 0 <= q <= 24 && 0 <= r <= 3 && y == 100 * a + 4 * q + r
    ensures YearStart(y) == 36524 * a + 1461 * q + 365 * r
    ensures YearLength(y) == if r == 3 && (q < 24 || a == 3) then 366 else 365
  {
    assert y / 4 == 25 * a + q;
  }

  lemma NextSplit(y: int, a: int, q: int, r: int)
    requires 0 <= y < 399 && y + 1 == 100 * a + 4 * q + r && 0 <= a <= 3 && 0 <= q <= 24 && 0 <= r <= 3
    ensures YearStart(y + 1) == 36524 * a + 1461 * q + 365 * r
  {
    Quotient(y + 1, 100, a);
    Quotient(y + 1, 4, 25 * a + q);
  }

  lemma YearStartBound(y: int, doy: int)
    requires 0 <= y < 400 && 0 <= doy < YearLength(y)
    ensures 0 <= YearStart(y) + doy < 146097
  {
  }

  lemma CivilInEra(era: int, y: int, doy: int)
    requires 0 <= y < 400 && 0 <= doy < YearLength(y)
    ensures CivilFromDays(146097 * era + YearStart(y) + doy - 719468) == FromMarch(400 * era + y, doy)
  {
    hide FromMarch, YearOfEra;
    YearOfEraRight(y, doy);
    YearStartBound(y, doy);
    Quotient(146097 * era + YearStart(y) + doy, 146097, era);
  }

  lemma LeapPeriod(era: int, y: int)
    ensures Leap(400 * era + y) <==> Leap(y)
  {
    Quotient(400 * era + y, 4, 100 * era + y / 4);
    Quotient(400 * era + y, 100, 4 * era + y / 100);
    Quotient(400 * era + y, 400, era + y / 400);
  }

  /** Inside a March year the formula steps day by day, over every month end. */
  lemma FromMarchStep(year: int, doy: int)
    requires 0 <= doy < YearLength(year)
    ensures Proper(FromMarch(year, doy))
    ensures NextDay(FromMarch(year, doy))
         == if doy + 1 < YearLength(year) then FromMarch(year, doy + 1) else FromMarch(year + 1, 0)
  {
    var mp := (5 * doy + 2) / 153;
    assert 0 <= mp <= 11;
    var mp' := (5 * (doy + 1) + 2) / 153;
    assert mp' == mp || mp' == mp + 1;
  }

  /** Day number `n` is day `doy` of March year `y` of era `era`. */
  predicate At(n: int, era: int, y: int, doy: int)
  {
    0 <= y < 400 && 0 <= doy < YearLength(y) && n + 719468 == 146097 * era + YearStart(y) + doy
  }

  /** One day on: the same year, the next one, or the next era. */
  lemma Advance(n: int, era: int, y: int, doy: int) returns (era': int, y': int, doy': int)
    requires At(n, era, y, doy)
    ensures At(n + 1, era', y', doy')
    ensures doy + 1 < YearLength(y) ==> 400 * era' + y' == 400 * era + y && doy' == doy + 1
    ensures doy + 1 >= YearLength(y) ==> 400 * era' + y' == 400 * era + y + 1 && doy' == 0
  {
    YearStartStep(y);
    if doy + 1 < YearLength(y) {
      era', y', doy' := era, y, doy + 1;
    } else if y < 399 {
      era', y', doy' := era, y + 1, 0;
    } else {
      era', y', doy' := era + 1, 0, 0;
    }
  }

  lemma FirstDay()
    ensures At(0, 4, 369, 306) && FromMarch(1969, 306) == Date(1970, 1, 1)
  {
  }

  /** The day after a day of a March year of an era. */
  lemma DayAfter(era: int, y: int, doy: int)
    requires 0 <= y < 400 && 0 <= doy < YearLength(y)
    ensures Proper(FromMarch(400 * era + y, doy))
    ensures NextDay(FromMarch(400 * era + y, doy))
         == if doy + 1 < YearLength(y) then FromMarch(400 * era + y, doy + 1) else FromMarch(400 * era + y + 1, 0)
  {
    hide FromMarch, NextDay, Proper;
    LeapPeriod(era, y + 1);
    FromMarchStep(400 * era + y, doy);
  }

  lemma {:induction false} Count(n: nat) returns (era: int, y: int, doy: int)
    ensures At(n, era, y, doy)
    ensures NthDay(n) == FromMarch(400 * era + y, doy) && Proper(NthDay(n))
  {
    hide FromMarch, NextDay, Proper, YearLength, YearStart;
    if n == 0 {
      era, y, doy := 4, 369, 306;
      FirstDay();
    } else {
      era, y, doy := Count(n - 1);
      DayAfter(era, y, doy);
      era, y, doy := Advance(n - 1, era, y, doy);
    }
    DayAfter(era, y, doy);
  }

  /** For every day count the arithmetic names the day that counting arrives at. */
  lemma CivilIsNthDay(n: nat)
    ensures CivilFromDays(n) == NthDay(n) && Proper(CivilFromDays(n))
  {
    hide CivilFromDays, FromMarch, Proper, YearLength, YearStart;
    var era, y, doy := Count(n);
    CivilInEra(era, y, doy);
  }
}

/** The English calendar, day by day: Julian years up to 1752, eleven days dropped in September 1752, then
    Gregorian years (the comment at the head of cmd/bbh/dconv.c). */
module Calendar {
  import opened Division

  datatype Date = Date(month: int, day: int, year: int)

  predicate Leap(y: int) {
    if y <= 1752 then y % 4 == 0 else y % 4 == 0 && (y % 100 != 0 || y % 400 == 0)
  }

  /** The last day of a month. */
  function LastDay(m: int, y: int): int {
    if m == 2 then (if Leap(y) then 29 else 28)
    else if m == 4 || m == 6 || m == 9 || m == 11 then 30
    else 31
  }

  predicate Dropped(t: Date) { t.year == 1752 && t.month == 9 && 3 <= t.day <= 13 }

  predicate Real(t: Date) {
    t.year >= 1 && 1 <= t.month <= 12 && 1 <= t.day <= LastDay(t.month, t.year) && !Dropped(t)
  }

  /** The day after. */
  function NextDay(t: Date): Date {
    if t == Date(9, 2, 1752) then Date(9, 14, 1752)
    else if t.day < LastDay(t.month, t.year) then t.(day := t.day + 1)
    else if t.month < 12 then Date(t.month + 1, 1, t.year)
    else Date(1, 1, t.year + 1)
  }

  /** The n-th day, counting from January 1 of the year 1. */
  function Nth(n: int): Date
    decreases n
  {
    if n <= 1 then Date(1, 1, 1) else NextDay(Nth(n - 1))
  }

  // --- in plain numbers ---

  /** The dates there are: months of 31 and 30 days, a February of 28 or, in every fourth year but from 1800 on
      not in the centuries that 400 does not divide, 29; and 3 to 13 September 1752 left out. */
  lemma RealIff(m: int, d: int, y: int)
    ensures Real(Date(m, d, y)) <==>
            && y >= 1 && d >= 1
            && (|| (m in {1, 3, 5, 7, 8, 10, 12} && d <= 31)
                || (m in {4, 6, 9, 11} && d <= 30)
                || (m == 2 && d <= 28)
                || (m == 2 && d == 29 && y % 4 == 0 && (y < 1800 || y % 100 != 0 || y % 400 == 0)))
            && !(y == 1752 && m == 9 && 3 <= d <= 13)
  {
    CommonCentury(y);
  }

  predicate Before(t: Date, u: Date) {
    t.year < u.year || (t.year == u.year && (t.month < u.month || (t.month == u.month && t.day < u.day)))
  }

  /** The day after is the first real date that comes later. */
  lemma NextIsFirst(t: Date, u: Date)
    requires Real(t) && Real(u)
    ensures Real(NextDay(t)) && Before(t, NextDay(t))
    ensures Before(t, u) ==> NextDay(t) == u || Before(NextDay(t), u)
  {
    hide Leap;
  }

  // --- a closed form ---

  /** The days before the month in its year. */
  function Upto(m: int, y: int): int {
    if y == 1752 then
      (match m
       case 1 => 0 case 2 => 31 case 3 => 60 case 4 => 91 case 5 => 121 case 6 => 152 case 7 => 182
       case 8 => 213 case 9 => 244 case 10 => 263 case 11 => 294 case 12 => 324 case _ => 355)
    else if Leap(y) then
      (match m
       case 1 => 0 case 2 => 31 case 3 => 60 case 4 => 91 case 5 => 121 case 6 => 152 case 7 => 182
       case 8 => 213 case 9 => 244 case 10 => 274 case 11 => 305 case 12 => 335 case _ => 366)
    else
      (match m
       case 1 => 0 case 2 => 31 case 3 => 59 case 4 => 90 case 5 => 120 case 6 => 151 case 7 => 181
       case 8 => 212 case 9 => 243 case 10 => 273 case 11 => 304 case 12 => 334 case _ => 365)
  }

  function YearLength(y: int): int { Upto(13, y) }

  /** The days before the year. */
  function Base(y: int): int {
    (y - 1) * 365 + (y - 1) / 4
    + (if y > 1800 then (y - 1601) / 400 - (y - 1701) / 100 else 0)
    - (if y > 1752 then 11 else 0)
  }

  function InMonth(t: Date): int {
    if t.year == 1752 && t.month == 9 && t.day >= 14 then t.day - 11 else t.day
  }

  function DayNumber(t: Date): int { Base(t.year) + Upto(t.month, t.year) + InMonth(t) }

  /** The leap years of the Julian calendar up to `y`, and what the Gregorian one adds after 1800. */
  function Fourths(y: int): int { y / 4 }

  function Centuries(y: int): int { (y - 1600) / 400 - (y - 1700) / 100 }

  lemma BaseIs(y: int)
    ensures Base(y) == (y - 1) * 365 + Fourths(y - 1) + (if y > 1800 then Centuries(y - 1) else 0)
                       - (if y > 1752 then 11 else 0)
  {
  }

  lemma FourthsStep(y: int)
    ensures Fourths(y) == Fourths(y - 1) + (if y % 4 == 0 then 1 else 0)
  {
    DivNext(y - 1, 4);
  }

  lemma CenturiesStep(y: int)
    ensures Centuries(y) == Centuries(y - 1) + (if y % 400 == 0 then 1 else 0) - (if y % 100 == 0 then 1 else 0)
  {
    DivNext(y - 1701, 100);
    DivNext(y - 1601, 400);
    DivShift(100, 17, y - 1700);
    DivShift(400, 4, y - 1600);
  }

  lemma FirstCentury()
    ensures Centuries(1799) == 0
  {
  }

  lemma YearLengthIs(y: int)
    ensures YearLength(y) == (if Leap(y) then 366 else 365) - (if y == 1752 then 11 else 0)
  {
  }

  lemma CommonCentury(y: int)
    ensures y % 400 == 0 ==> y % 100 == 0
    ensures y % 100 == 0 ==> y % 4 == 0
    ensures 1752 < y < 1800 ==> y % 100 != 0
  {
    if y % 400 == 0 { DivShift(100, 4 * (y / 400), 0); }
    if y % 100 == 0 { DivShift(4, 25 * (y / 100), 0); }
    if 1752 < y < 1800 { DivMod(y, 100, 17, y - 1700); }
  }

  lemma BaseStep(y: int)
    requires y >= 1
    ensures Base(y + 1) == Base(y) + YearLength(y)
  {
    hide Base, Fourths, Centuries, YearLength;
    BaseIs(y);
    BaseIs(y + 1);
    FourthsStep(y);
    CenturiesStep(y);
    FirstCentury();
    YearLengthIs(y);
    CommonCentury(y);
  }

  lemma MonthStep(m: int, y: int)
    requires 1 <= m <= 12
    ensures Upto(m + 1, y) == Upto(m, y) + LastDay(m, y) - (if y == 1752 && m == 9 then 11 else 0)
  {
  }

  lemma NumberOfNext(t: Date)
    requires Real(t)
    ensures Real(NextDay(t)) && DayNumber(NextDay(t)) == DayNumber(t) + 1
  {
    hide Base, Upto;
    MonthStep(t.month, t.year);
    BaseStep(t.year);
    FirstOfYear(t.year + 1);
  }

  lemma FirstOfYear(y: int)
    ensures Upto(1, y) == 0
  {
  }

  /** The n-th day is a real date, and n is its number. */
  lemma {:induction false} NthNumber(n: int)
    requires n >= 1
    ensures Real(Nth(n)) && DayNumber(Nth(n)) == n
    decreases n
  {
    if n > 1 {
      NthNumber(n - 1);
      NumberOfNext(Nth(n - 1));
    }
  }

  // --- a number names one day ---

  lemma {:induction false} BaseMonotone(y: int, z: int)
    requires 1 <= y < z
    ensures Base(y) + YearLength(y) <= Base(z)
    decreases z
  {
    hide Base, YearLength;
    BaseStep(z - 1);
    if y < z - 1 {
      BaseMonotone(y, z - 1);
      LongYear(z - 1);
    }
  }

  lemma LongYear(y: int)
    ensures YearLength(y) > 0
  {
  }

  lemma {:induction false} UptoMonotone(m: int, n: int, y: int)
    requires 1 <= m < n <= 13
    ensures Upto(m + 1, y) <= Upto(n, y)
    decreases n
  {
    if m + 1 < n {
      UptoMonotone(m, n - 1, y);
      MonthStep(n - 1, y);
    }
  }

  /** The place of a day in its month: the dropped days do not count. */
  lemma InMonthRange(t: Date)
    requires Real(t)
    ensures 1 <= InMonth(t) <= Upto(t.month + 1, t.year) - Upto(t.month, t.year)
  {
    MonthStep(t.month, t.year);
  }

  lemma InYearRange(t: Date)
    requires Real(t)
    ensures Base(t.year) < DayNumber(t) <= Base(t.year) + YearLength(t.year)
  {
    hide Upto, Base, InMonth;
    InMonthRange(t);
    UptoMonotone(t.month, 13, t.year);
    if t.month > 1 { UptoMonotone(1, t.month, t.year); }
    FirstOfYear(t.year);
    MonthStep(1, t.year);
  }

  lemma NumberInjective(t: Date, u: Date)
    requires Real(t) && Real(u) && DayNumber(t) == DayNumber(u)
    ensures t == u
  {
    hide Upto, Base, YearLength, InMonth;
    InYearRange(t);
    InYearRange(u);
    if t.year < u.year { BaseMonotone(t.year, u.year); }
    if u.year < t.year { BaseMonotone(u.year, t.year); }
    InMonthRange(t);
    InMonthRange(u);
    if t.month < u.month { UptoMonotone(t.month, u.month, t.year); }
    if u.month < t.month { UptoMonotone(u.month, t.month, t.year); }
    InMonthInjective(t, u);
  }

  lemma InMonthInjective(t: Date, u: Date)
    requires Real(t) && Real(u) && t.year == u.year && t.month == u.month && InMonth(t) == InMonth(u)
    ensures t == u
  {
  }

  lemma {:induction false} NumberPositive(t: Date)
    requires Real(t)
    ensures DayNumber(t) >= 1
  {
    InYearRange(t);
    FirstYear();
    if t.year > 1 {
      BaseMonotone(1, t.year);
      LongYear(1);
    }
  }

  lemma FirstYear()
    ensures Base(1) == 0
  {
  }

  /** The closed form and the succession of days agree: the numbers are the positive integers, and a real
      date has the number n exactly when it is the n-th day. */
  lemma NthIff(t: Date, n: int)
    requires Real(t)
    ensures DayNumber(t) == n <==> n >= 1 && Nth(n) == t
  {
    hide Nth, DayNumber, Real;
    NumberPositive(t);
    if n >= 1 {
      NthNumber(n);
      if DayNumber(t) == n { NumberInjective(t, Nth(n)); }
    }
  }
}

/** cmd/bbh/dconv.c: from a date to its ordinal day and back. */
module DateConversion {
  import opened Division
  import opened Calendar

  const NORM_UPTO: seq<int> := [0, 0, 31, 59, 90, 120, 151, 181, 212, 243, 273, 304, 334, 365]
  const LEAP_UPTO: seq<int> := [0, 0, 31, 60, 91, 121, 152, 182, 213, 244, 274, 305, 335, 366]
  const Y1752_UPTO: seq<int> := [0, 0, 31, 60, 91, 121, 152, 182, 213, 244, 263, 294, 324, 355]

  /** The table of a year. */
  function Table(y: int): seq<int> {
    if y == 1752 then Y1752_UPTO else if Leap(y) then LEAP_UPTO else NORM_UPTO
  }

  lemma TableUpto(y: int, m: int)
    requires 1 <= m <= 13
    ensures |Table(y)| == 14 && Table(y)[m] == Upto(m, y)
  {
  }

  /** to_day: the number of a real date up to the year 9999, -1 for anything else. */
  method ToDay(m: int, d: int, y: int) returns (r: int)
    ensures if Real(Date(m, d, y)) && y <= 9999 then r >= 1 && Nth(r) == Date(m, d, y) else r == -1
  {
    hide Nth;
    if y < 1 || y > 9999 || m < 1 || m > 12 || d < 1 || d > 31 {
      return -1;
    }
    var upto := NORM_UPTO;
    var day := (y - 1) * 365;
    day := day + (y - 1) / 4;
    if y > 1800 {
      day := day - (y - 1701) / 100;
      day := day + (y - 1601) / 400;
    }
    var dd := d;
    if y < 1752 {
      if y % 4 == 0 {
        upto := LEAP_UPTO;
      }
    } else if y > 1752 {
      if y % 4 == 0 && (y % 100 != 0 || y % 400 == 0) {
        upto := LEAP_UPTO;
      }
      day := day - 11;
    } else {
      upto := Y1752_UPTO;
      if m == 9 {
        if d > 2 && d < 14 {
          return -1;
        } else if d >= 14 {
          dd := d - 11;
        }
      }
    }
    assert upto == Table(y) && day == Base(y);
    TableUpto(y, m);
    TableUpto(y, m + 1);
    MonthStep(m, y);
    if dd > upto[m + 1] - upto[m] {
      return -1;
    }
    NthIff(Date(m, d, y), day + upto[m] + dd);
    return day + upto[m] + dd;
  }

  // --- relative years ---

  /** The leap years among the first `k`, when the first leap year is year `f` and then every fourth. */
  function Leaps(k: int, f: int): int { if k <= f then 0 else (k - f + 3) / 4 }

  predicate LeapAt(k: int, f: int) { k >= f && (k - f) % 4 == 0 }

  /** doleap */
  method DoLeap(days: int, year: int, firstleap: int) returns (d: int, y: int)
    requires days >= 0 && firstleap >= 0
    ensures y >= year && days == 365 * (y - year) + Leaps(y - year, firstleap) + d
    ensures 0 <= d < (if LeapAt(y - year, firstleap) then 366 else 365)
  {
    if days < firstleap * 365 {
      y := year + days / 365;
      d := days % 365;
      return;
    }
    y := year + firstleap;
    d := days - 365 * firstleap;
    var nquad := d / (365 * 4 + 1);
    var nrem := d % (365 * 4 + 1);
    var nyear := 0;
    if nrem > 366 - 1 {
      nyear := (nrem - 366) / 365 + 1;
    }
    y := y + nquad * 4 + nyear;
    d := nrem - 365 * nyear - (if nyear == 0 then 0 else 1);
  }

  /** The leap years among the first `k` after a century year that is none. */
  function Leaps100(k: int): int { (k - 1) / 4 - (k - 1) / 100 }

  predicate LeapAt100(k: int) { k % 4 == 0 && k % 100 != 0 }

  lemma Leaps100At(c: int, r: int)
    requires 0 <= r < 100
    ensures Leaps100(100 * c + r) == 24 * c + Leaps(r, 4)
    ensures LeapAt100(100 * c + r) <==> LeapAt(r, 4)
  {
    DivShift(4, 25 * c, r - 1);
    DivShift(100, c, r - 1);
    DivShift(4, 25 * c, r);
    DivShift(100, c, r);
  }

  /** do100 */
  method Do100(days: int, year: int) returns (d: int, y: int)
    requires days >= 0
    ensures y >= year && days == 365 * (y - year) + Leaps100(y - year) + d
    ensures 0 <= d < (if LeapAt100(y - year) then 366 else 365)
  {
    hide Leaps100, LeapAt100;
    var ncentury := days / (100 * 365 + 100 / 4 - 1);
    var rest := days % (100 * 365 + 100 / 4 - 1);
    var y1 := year + 100 * ncentury;
    d, y := DoLeap(rest, y1, 4);
    Leaps100At(ncentury, y - y1);
  }

  /** The leap years among the first `k` after a year divisible by 400, with that year. */
  function Leaps400(k: int): int { (k - 1) / 4 - (k - 1) / 100 + (k - 1) / 400 + 1 }

  predicate LeapAt400(k: int) { k % 4 == 0 && (k % 100 != 0 || k % 400 == 0) }

  lemma Leaps400At(q: int, c: int, r: int)
    requires 0 <= c <= 3 && 0 <= r <= 100 && (c > 0 ==> r < 100)
    ensures Leaps400(400 * q + 100 * c + r) == 97 * q + (if c == 0 then Leaps(r, 0) else 24 * c + 1 + Leaps(r, 4))
    ensures LeapAt400(400 * q + 100 * c + r) <==> if c == 0 && r < 100 then LeapAt(r, 0) else r < 100 && LeapAt(r, 4)
  {
    hide LeapAt400, LeapAt, Leaps;
    Years400(q, c, r - 1);
    if c == 0 { FirstCentury(r); } else { LaterCentury(c, r); }
    LeapAt400At(q, c, r);
  }

  lemma FirstCentury(r: int)
    requires 0 <= r <= 100
    ensures (r - 1) / 4 - (r - 1) / 100 + (r - 1) / 400 + 1 == Leaps(r, 0)
  {
  }

  lemma LaterCentury(c: int, r: int)
    requires 1 <= c <= 3 && 0 <= r < 100
    ensures (r - 1) / 4 - (r - 1) / 100 == Leaps(r, 4) && (100 * c + r - 1) / 400 == 0
  {
  }

  lemma LeapAt400At(q: int, c: int, r: int)
    requires 0 <= c <= 3 && 0 <= r <= 100 && (c > 0 ==> r < 100)
    ensures LeapAt400(400 * q + 100 * c + r) <==> if c == 0 && r < 100 then LeapAt(r, 0) else r < 100 && LeapAt(r, 4)
  {
    Years400(q, c, r);
  }

  lemma Years400(q: int, c: int, x: int)
    requires 0 <= c <= 3
    ensures var k := 400 * q + 100 * c + x;
            && k / 4 == 100 * q + 25 * c + x / 4 && k % 4 == x % 4
            && k / 100 == 4 * q + c + x / 100 && k % 100 == x % 100
            && k / 400 == q + (100 * c + x) / 400 && k % 400 == (100 * c + x) % 400
  {
    DivShift(4, 100 * q + 25 * c, x);
    DivShift(100, 4 * q + c, x);
    DivShift(400, q, 100 * c + x);
  }

  lemma CenturyOf(rest: int)
    requires 36525 < rest < 146097
    ensures var c := (rest - 36525) / 36524 + 1; 1 <= c <= 3 && 0 <= rest - (c * 36524 + 1) < 36524
  {
  }

  lemma NotCentury(r: int)
    ensures r == 100 ==> LeapAt(r, 0) && LeapAt(r, 4) && Leaps(r, 0) == 25
  {
  }

  lemma LeapsBound(r: int, c: int)
    requires r >= 0 && (365 * r + Leaps(r, if c == 0 then 0 else 4) <= if c == 0 then 36525 else 36523)
    ensures r <= 100 && (c > 0 ==> r < 100)
  {
  }

  /** do400 */
  method Do400(days: int, year: int) returns (d: int, y: int)
    requires days >= 0
    ensures y >= year && days == 365 * (y - year) + Leaps400(y - year) + d
    ensures 0 <= d < (if LeapAt400(y - year) then 366 else 365)
  {
    hide Leaps400, LeapAt400, Leaps, LeapAt;
    var n100 := 0;
    var n400 := days / (400 * 365 + 400 / 4 - 4 + 1);
    var rest := days % (400 * 365 + 400 / 4 - 4 + 1);
    if rest > 100 * 365 + 100 / 4 {
      CenturyOf(rest);
      n100 := (rest - (100 * 365 + 100 / 4)) / (100 * 365 + 100 / 4 - 1) + 1;
      rest := rest - (n100 * (100 * 365 + 100 / 4 - 1) + 1);
    }
    var y1 := year + 100 * n100 + 400 * n400;
    d, y := DoLeap(rest, y1, if n100 == 0 then 0 else 4);
    InCycle(n400, n100, y - y1, rest, d);
    assert days == 146097 * n400 + (if n100 == 0 then rest else 36524 * n100 + 1 + rest);
    assert 400 * n400 + 100 * n100 + (y - y1) == y - year;
  }

  /** A day of a year of the `c`-th century of a cycle of 400 years, with `q` cycles before it. */
  lemma InCycle(q: int, c: int, r: int, rest: int, d: int)
    requires 0 <= c <= 3 && r >= 0 && 0 <= rest <= (if c == 0 then 36525 else 36523)
    requires rest == 365 * r + Leaps(r, if c == 0 then 0 else 4) + d
    requires 0 <= d < (if LeapAt(r, if c == 0 then 0 else 4) then 366 else 365)
    ensures var k := 400 * q + 100 * c + r;
            && 146097 * q + (if c == 0 then rest else 36524 * c + 1 + rest) == 365 * k + Leaps400(k) + d
            && 0 <= d < (if LeapAt400(k) then 366 else 365)
  {
    hide Leaps400, LeapAt400, Leaps, LeapAt;
    LeapsBound(r, c);
    Leaps400At(q, c, r);
    NotCentury(r);
  }

  // --- which year it is ---

  /** Day `d` of the year `year + 1`, both counted from 0, is day `n` counted from 0. */
  predicate InYear(n: int, year: int, d: int) {
    year >= 0 && 0 <= d < YearLength(year + 1) && n == Base(year + 1) + d
  }

  /** Before 1752 every fourth year is a leap year. */
  lemma JulianYear(n: int, year: int, d: int)
    requires 0 <= n < 1751 * 365 + 437 && year >= 0 && n == 365 * year + Leaps(year, 3) + d
    requires 0 <= d < (if LeapAt(year, 3) then 366 else 365)
    ensures InYear(n, year, d) && Table(year + 1) == if year % 4 == 3 then LEAP_UPTO else NORM_UPTO
  {
    assert year < 1751;
  }

  lemma Year1752(n: int)
    requires 1751 * 365 + 437 <= n < 1752 * 365 + 427
    ensures InYear(n, 1751, n - (1751 * 365 + 437))
  {
  }

  /** From 1753 to 1799 too, eleven days later. */
  lemma Before1800(n: int, year: int, d: int)
    requires 1752 * 365 + 427 <= n < 1799 * 365 + 438 && year >= 0 && n + 11 == 365 * year + Leaps(year, 3) + d
    requires 0 <= d < (if LeapAt(year, 3) then 366 else 365)
    ensures InYear(n, year, d) && Table(year + 1) == if year % 4 == 3 then LEAP_UPTO else NORM_UPTO
  {
    assert 1752 <= year < 1799;
  }

  /** From 1800 to 1999 without the century years. */
  lemma Before2000(n: int, year: int, d: int)
    requires 1799 * 365 + 438 <= n < 1999 * 365 + 486 && year >= 1799
    requires n - (1799 * 365 + 438) == 365 * (year - 1799) + Leaps100(year - 1799) + d
    requires 0 <= d < (if LeapAt100(year - 1799) then 366 else 365)
    ensures InYear(n, year, d)
    ensures Table(year + 1) == if year % 4 == 3 && year % 100 != 99 then LEAP_UPTO else NORM_UPTO
  {
    var k := year - 1799;
    Base1800(k);
    YearsAfter1800(k);
    assert 365 * k + Leaps100(k) >= 365 * k;
  }

  lemma Base1800(k: int)
    requires k >= 0
    ensures k <= 200 ==> Base(k + 1800) == 1799 * 365 + 438 + 365 * k + Leaps100(k)
    ensures k > 200 ==> 365 * k + Leaps100(k) >= 200 * 365 + 48
    ensures k == 200 ==> Leaps100(k) == 48
    ensures Leaps100(k) >= 0
  {
    DivShift(4, 450, k - 1);
    DivShift(100, 1, k - 1);
    DivShift(4, 0, k - 1);
  }

  lemma YearsAfter1800(k: int)
    ensures (k + 1800) % 4 == k % 4 && (k + 1800) % 100 == k % 100
    ensures (k + 1799) % 4 == 3 <==> k % 4 == 0
    ensures (k + 1799) % 100 == 99 <==> k % 100 == 0
    ensures 0 <= k < 200 && (k + 1800) % 400 == 0 ==> k % 100 != 0
  {
    ModShift(k, 4, 450);
    ModShift(k, 100, 18);
    NoFourthCentury(k);
  }

  lemma NoFourthCentury(k: int)
    ensures 0 <= k < 200 && (k + 1800) % 400 == 0 ==> k % 100 != 0
  {
  }

  /** Years that are whole cycles apart have the same place in the cycle. */
  lemma ModShift(k: int, n: int, q: int)
    requires n > 1
    ensures (k + n * q) % n == k % n
    ensures (k + n * q - 1) % n == n - 1 <==> k % n == 0
  {
    DivShift(n, q, k);
    DivNext(k + n * q - 1, n);
  }

  /** From 2000 on by the Gregorian rule. */
  lemma From2000(n: int, year: int, d: int)
    requires 1999 * 365 + 486 <= n && year >= 1999
    requires n - (1999 * 365 + 486) == 365 * (year - 1999) + Leaps400(year - 1999) + d
    requires 0 <= d < (if LeapAt400(year - 1999) then 366 else 365)
    ensures InYear(n, year, d)
    ensures Table(year + 1) == if year % 4 == 3 && (year % 100 != 99 || year % 400 == 399) then LEAP_UPTO else NORM_UPTO
  {
    var k := year - 1999;
    Base2000(k);
    YearsAfter2000(k);
  }

  lemma Base2000(k: int)
    requires k >= 0
    ensures Base(k + 2000) == 1999 * 365 + 486 + 365 * k + Leaps400(k)
  {
    DivShift(4, 500, k - 1);
    DivShift(100, 3, k - 1);
    DivShift(400, 1, k - 1);
  }

  lemma YearsAfter2000(k: int)
    ensures (k + 2000) % 4 == k % 4 && (k + 2000) % 100 == k % 100 && (k + 2000) % 400 == k % 400
    ensures (k + 1999) % 4 == 3 <==> k % 4 == 0
    ensures (k + 1999) % 100 == 99 <==> k % 100 == 0
    ensures (k + 1999) % 400 == 399 <==> k % 400 == 0
  {
    ModShift(k, 4, 500);
    ModShift(k, 100, 20);
    ModShift(k, 400, 5);
  }

  /** to_date: the n-th day. */
  method ToDate(n: int) returns (month: int, day: int, year: int)
    requires n >= 1
    ensures Date(month, day, year) == Nth(n)
  {
    hide Nth, Base, Upto, YearLength, Leaps, LeapAt, Leaps100, LeapAt100, Leaps400, LeapAt400, Table, InYear;
    var upto := NORM_UPTO;
    var d := n - 1;
    year := 0;
    if d < (1752 - 1) * 365 + (1752 - 1) / 4 {
      d, year := DoLeap(d, 0, 3);
      if year % 4 == 3 {
        upto := LEAP_UPTO;
      }
      JulianYear(n - 1, year, d);
    } else if d < (1753 - 1) * 365 + (1753 - 1) / 4 - 11 {
      d := d - ((1752 - 1) * 365 + (1752 - 1) / 4);
      year := 1752 - 1;
      upto := Y1752_UPTO;
      Year1752(n - 1);
      Tables();
    } else if d < (1800 - 1) * 365 + (1800 - 1) / 4 - 11 {
      d := d + 11;
      d, year := DoLeap(d, 0, 1756 - 1753);
      if year % 4 == 3 {
        upto := LEAP_UPTO;
      }
      Before1800(n - 1, year, d);
    } else if d < (2000 - 1) * 365 + (2000 - 1) / 4 - 2 - 11 {
      d := d - ((1800 - 1) * 365 + (1800 - 1) / 4 - 11);
      year := 1799;
      d, year := Do100(d, year);
      if year % 4 == 3 && year % 100 != 99 {
        upto := LEAP_UPTO;
      }
      Before2000(n - 1, year, d);
    } else {
      d := d - ((2000 - 1) * 365 + (2000 - 1) / 4 - 2 - 11);
      year := 1999;
      d, year := Do400(d, year);
      if year % 4 == 3 && (year % 100 != 99 || year % 400 == 399) {
        upto := LEAP_UPTO;
      }
      From2000(n - 1, year, d);
    }
    month, day, year := FindMonth(n, d, year, upto);
  }

  lemma Tables()
    ensures Table(1752) == Y1752_UPTO
  {
  }

  /** The end of to_date: the month from the table, and one more for year and day. */
  method FindMonth(n: int, d: int, year: int, upto: seq<int>) returns (month: int, day: int, pyear: int)
    requires n >= 1 && InYear(n - 1, year, d) && upto == Table(year + 1)
    ensures Date(month, day, pyear) == Nth(n)
  {
    hide Nth, Base, Upto, Table;
    month := 2;
    TableUpto(year + 1, 13);
    FirstOfYear(year + 1);
    TableUpto(year + 1, 1);
    while d >= upto[month]
      invariant 2 <= month <= 13 && d >= upto[month - 1]
      decreases 13 - month
    {
      month := month + 1;
    }
    month := month - 1;
    TableUpto(year + 1, month);
    TableUpto(year + 1, month + 1);
    MonthStep(month, year + 1);
    day := d - upto[month] + 1;
    if year == 1751 && month == 9 && day > 2 {
      day := day + 11;
    }
    pyear := year + 1;
    NthIff(Date(month, day, pyear), n);
  }

  /** weekday: 0 is a Sunday, and day 1 is a Saturday. */
  function Weekday(day: int): int { (day + 5) % 7 }
}

/** cmd/cal.c: the same calendar computed independently, and the grid a month is printed in. */
module Cal {
  import opened Calendar
  import opened DateConversion
  import opened Division

  /** jan1: the day of the week of January 1. */
  method Jan1(yr: int) returns (r: int)
    requires yr >= 1
    ensures r == Weekday(DayNumber(Date(1, 1, yr)))
  {
    var y := yr;
    var d := 4 + y + (y + 3) / 4;
    if y > 1800 {
      d := d - (y - 1701) / 100;
      d := d + (y - 1601) / 400;
    }
    if y > 1752 {
      d := d + 3;
    }
    r := d % 7;
    SameWeekday(y, d);
  }

  lemma SameWeekday(y: int, d: int)
    requires y >= 1
    requires d == 4 + y + (y + 3) / 4 + (if y > 1800 then (y - 1601) / 400 - (y - 1701) / 100 else 0)
                  + (if y > 1752 then 3 else 0)
    ensures d % 7 == Weekday(DayNumber(Date(1, 1, y)))
  {
    DivShift(4, 1, y - 1);
    var n := DayNumber(Date(1, 1, y)) + 5;
    assert n == d + 7 * (52 * (y - 1) - (if y > 1752 then 2 else 0));
    DivShift(7, 52 * (y - 1) - (if y > 1752 then 2 else 0), d);
  }

  /** The days a month has. */
  function Days(m: int, y: int): int { Upto(m + 1, y) - Upto(m, y) }

  /** The k-th of them, counting from 0. */
  function DayAt(k: int, m: int, y: int): int {
    if m == 9 && y == 1752 && k >= 2 then k + 12 else k + 1
  }

  lemma DayAtReal(k: int, m: int, y: int)
    requires y >= 1 && 1 <= m <= 12 && 0 <= k < Days(m, y)
    ensures Real(Date(m, DayAt(k, m, y), y)) && DayNumber(Date(m, DayAt(k, m, y), y)) == DayNumber(Date(m, 1, y)) + k
  {
  }

  /** The column a day is printed in is its day of the week. */
  lemma DayColumn(k: int, m: int, y: int)
    requires y >= 1 && 1 <= m <= 12 && 0 <= k < Days(m, y)
    ensures (Weekday(DayNumber(Date(m, 1, y))) + k) % 7 == Weekday(DayNumber(Date(m, DayAt(k, m, y), y)))
  {
    hide Days, DayNumber;
    DayAtReal(k, m, y);
    SameRemainder(Weekday(DayNumber(Date(m, 1, y))), DayNumber(Date(m, 1, y)) + 5, k);
  }

  /** cal tells the kind of a year by how far January 1 moves on. */
  lemma YearKind(y: int)
    requires y >= 1
    ensures var a, b := Weekday(DayNumber(Date(1, 1, y))), Weekday(DayNumber(Date(1, 1, y + 1)));
            (b + 7 - a) % 7 == if y == 1752 then 5 else if Leap(y) then 2 else 1
  {
    hide Base, Leap;
    BaseStep(y);
    var n, m := DayNumber(Date(1, 1, y)) + 5, DayNumber(Date(1, 1, y + 1)) + 5;
    assert m == n + YearLength(y);
    Moved(n, m - n);
    LengthOf(y);
  }

  lemma LengthOf(y: int)
    ensures YearLength(y) == if y == 1752 then 355 else if Leap(y) then 366 else 365
  {
  }

  lemma Moved(n: int, k: int)
    ensures ((n + k) % 7 + 7 - n % 7) % 7 == k % 7
  {
    var q := (n + k) / 7 - n / 7 - 1;
    assert (n + k) % 7 + 7 - n % 7 == k - 7 * q;
    DivShift(7, q, (n + k) % 7 + 7 - n % 7);
  }

  /** The days of the week follow one another without a break, from 1 January 1, a Saturday, on; Sunday is 0. */
  lemma WeekdayAfter(t: Date)
    requires Real(t)
    ensures Weekday(DayNumber(NextDay(t))) == if Weekday(DayNumber(t)) == 6 then 0 else Weekday(DayNumber(t)) + 1
    ensures Weekday(DayNumber(Date(1, 1, 1))) == 6
  {
    hide DayNumber;
    NumberOfNext(t);
    DivNext(DayNumber(t) + 5, 7);
    FirstDay();
  }

  lemma FirstDay()
    ensures DayNumber(Date(1, 1, 1)) == 1
  {
  }

  // --- the grid ---

  /** Where the k-th day of a month goes: three characters a column, `w` a row; `first` is the column of
      the first day. */
  function Cell(p: int, w: int, first: int, k: int): int {
    RowOf(p, w, first, k) + 3 * Column(first, k)
  }

  function RowOf(p: int, w: int, first: int, k: int): int { p + (first + k) / 7 * w }

  function Column(first: int, k: int): int { (first + k) % 7 }

  /** The days from a Sunday to a Saturday stand in one row, each three characters after the other. */
  lemma CellAt(p: int, w: int, first: int, k: int, row: int, column: int)
    requires first + k == 7 * row + column && 0 <= column < 7
    ensures Cell(p, w, first, k) == p + row * w + 3 * column
  {
    DivMod(first + k, 7, row, column);
  }

  lemma NextCell(p: int, w: int, first: int, k: int)
    requires 0 <= first < 7 && k >= 0
    ensures 0 <= Column(first, k) < 7
    ensures Column(first, k + 1) == (if Column(first, k) == 6 then 0 else Column(first, k) + 1)
    ensures RowOf(p, w, first, k + 1) == RowOf(p, w, first, k) + (if Column(first, k) == 6 then w else 0)
    ensures Cell(p, w, first, k) == RowOf(p, w, first, k) + 3 * Column(first, k)
    ensures Cell(p, w, first, k + 1) == RowOf(p, w, first, k + 1) + 3 * Column(first, k + 1)
  {
    var q := (first + k) / 7;
    DivNext(first + k, 7);
    assert first + (k + 1) == first + k + 1;
    assert (q + 1) * w == q * w + w;
  }

  lemma {:induction false} CellsApart(p: int, w: int, first: int, j: int, k: int)
    requires 0 <= first < 7 && 0 <= j < k && w >= 21
    ensures Cell(p, w, first, j) + 3 <= Cell(p, w, first, k)
    decreases k
  {
    hide Cell, RowOf, Column;
    NextCell(p, w, first, k - 1);
    if j < k - 1 { CellsApart(p, w, first, j, k - 1); }
  }

  /** The month's days are in the grid up to the k-th, and nothing else has changed. */
  ghost predicate Filled(now: seq<int>, was: seq<int>, p: int, w: int, first: int, m: int, y: int, k: int) {
    && |now| == |was|
    && (forall j :: 0 <= j < k ==>
          var c := Cell(p, w, first, j);
          && 0 <= c && c + 1 < |now|
          && now[c + 1] == DayAt(j, m, y) % 10 + 48
          && now[c] == if DayAt(j, m, y) > 9 then DayAt(j, m, y) / 10 + 48 else was[c])
    && (forall q ::
          0 <= q < |now| && (forall j :: 0 <= j < k ==> q != Cell(p, w, first, j) && q != Cell(p, w, first, j) + 1)
          ==> now[q] == was[q])
  }

  lemma FillCell(a: seq<int>, b: seq<int>, was: seq<int>, p: int, w: int, first: int, m: int, y: int, k: int)
    requires 0 <= first < 7 && 0 <= k && w >= 21 && Filled(a, was, p, w, first, m, y, k)
    requires var c, d := Cell(p, w, first, k), DayAt(k, m, y);
             && 0 <= c && c + 1 < |a|
             && b == if d > 9 then a[c := d / 10 + 48][c + 1 := d % 10 + 48] else a[c + 1 := d % 10 + 48]
    ensures Filled(b, was, p, w, first, m, y, k + 1)
  {
    hide Cell, DayAt;
    var c := Cell(p, w, first, k);
    forall j | 0 <= j < k ensures Cell(p, w, first, j) + 3 <= c { CellsApart(p, w, first, j, k); }
    assert a[c] == was[c];
  }

  /** Each day of a filled month stands in its row and column: its figures, a blank place before a single one
      left as it was; and it is the real date that comes `k` days after the first. */
  lemma DayShown(now: seq<int>, was: seq<int>, p: int, w: int, first: int, m: int, y: int, k: int, row: int,
      column: int)
    returns (d: int)
    requires y >= 1 && 1 <= m <= 12 && 0 <= k < Days(m, y) && Filled(now, was, p, w, first, m, y, Days(m, y))
    requires first + k == 7 * row + column && 0 <= column < 7
    ensures Real(Date(m, d, y)) && DayNumber(Date(m, d, y)) == DayNumber(Date(m, 1, y)) + k
    ensures var c := p + row * w + 3 * column;
            && 0 <= c && c + 1 < |now| && now[c + 1] == '0' as int + d % 10
            && now[c] == if d >= 10 then '0' as int + d / 10 else was[c]
  {
    hide Cell, DayAt, Days;
    d := DayAt(k, m, y);
    DayAtReal(k, m, y);
    CellAt(p, w, first, k, row, column);
  }

  class Printer {
    const mon: array<int>

    constructor ()
      ensures mon.Length == 13 && fresh(mon) && Lengths()
      ensures mon[..] == [0, 31, 29, 31, 30, 31, 30, 31, 31, 30, 31, 30, 31]
    {
      mon := new int[] [0, 31, 29, 31, 30, 31, 30, 31, 31, 30, 31, 30, 31];
    }

    /** What stays in the table from one month to the next. */
    ghost predicate Lengths()
      reads mon
    {
      && mon.Length == 13
      && mon[1] == 31 && mon[3] == 31 && mon[4] == 30 && mon[5] == 31 && mon[6] == 30 && mon[7] == 31
      && mon[8] == 31 && mon[10] == 31 && mon[11] == 30 && mon[12] == 31
    }

    /** The table is set for a year. */
    method SetYear(y: int)
      requires Lengths() && y >= 1
      modifies mon
      ensures Lengths() && forall m :: 1 <= m <= 12 ==> mon[m] == Days(m, y)
    {
      var d := Jan1(y);
      mon[2] := 29;
      mon[9] := 30;
      var e := Jan1(y + 1);
      YearKind(y);
      var kind := (e + 7 - d) % 7;
      if kind == 1 {
        mon[2] := 28;
      } else if kind != 2 {
        mon[9] := 19;
      }
      assert forall m :: 1 <= m <= 12 ==> Days(m, y) == LastDay(m, y) - (if y == 1752 && m == 9 then 11 else 0) by {
        forall m | 1 <= m <= 12 ensures Days(m, y) == LastDay(m, y) - (if y == 1752 && m == 9 then 11 else 0) {
          MonthStep(m, y);
        }
      }
    }

    /** cal: every day of the month stands in the column of its day of the week. */
    method Month(m: int, y: int, grid: array<int>, p: int, w: int)
      requires Lengths() && mon != grid && y >= 1 && 1 <= m <= 12 && w >= 21 && p >= 0 && p + 5 * w + 20 <= grid.Length
      modifies mon, grid
      ensures Lengths()
      ensures Filled(grid[..], old(grid[..]), p, w, Weekday(DayNumber(Date(m, 1, y))), m, y, Days(m, y))
    {
      hide Filled, Days, DayNumber, Weekday;
      SetYear(y);
      var d := Jan1(y);
      SmallRemainder(DayNumber(Date(1, 1, y)));
      var i := 1;
      while i < m
        invariant 1 <= i <= m && d % 7 == Weekday(DayNumber(Date(i, 1, y)))
        invariant Lengths() && forall k :: 1 <= k <= 12 ==> mon[k] == Days(k, y)
        invariant grid[..] == old(grid[..])
      {
        NextMonth(i, y, d);
        d := d + mon[i];
        i := i + 1;
      }
      d := d % 7;
      Fill(m, y, grid, p, w, d);
    }

    /** The loop over the days, which skips from the second to the fourteenth in September 1752. */
    method Fill(m: int, y: int, grid: array<int>, p: int, w: int, first: int)
      requires mon.Length == 13 && mon != grid && 1 <= m <= 12 && mon[m] == Days(m, y) && 0 <= first < 7
      requires w >= 21 && p >= 0 && p + 5 * w + 20 <= grid.Length
      modifies mon, grid
      ensures forall j :: 0 <= j < 13 && j != 9 ==> mon[j] == old(mon[j])
      ensures Filled(grid[..], old(grid[..]), p, w, first, m, y, Days(m, y))
    {
      hide Filled, Cell, RowOf, Column, Days;
      ghost var k, was := 0, grid[..];
      DayCount(m, y);
      var row, s, d, i := p, p + 3 * first, first, 1;
      FirstCell(p, w, first, m, y, grid[..]);
      while i <= mon[m]
        invariant 0 <= k <= Days(m, y) && d == Column(first, k) && s == Cell(p, w, first, k)
            && row == RowOf(p, w, first, k)
        invariant if m == 9 && y == 1752 && k > 2 then i == k + 12 && mon[m] == 30
                  else i == k + 1 && mon[m] == Days(m, y)
        invariant forall j :: 0 <= j < 13 && j != 9 ==> mon[j] == old(mon[j])
        invariant Filled(grid[..], was, p, w, first, m, y, k)
        decreases Days(m, y) - k
      {
        if i == 3 && mon[m] == 19 {
          i := i + 11;
          mon[m] := mon[m] + 11;
        }
        CellFits(p, w, first, k);
        ghost var a := grid[..];
        if i > 9 {
          grid[s] := i / 10 + 48;
        }
        s := s + 1;
        grid[s] := i % 10 + 48;
        s := s + 2;
        FillCell(a, grid[..], was, p, w, first, m, y, k);
        NextCell(p, w, first, k);
        k := k + 1;
        i := i + 1;
        d := d + 1;
        if d == 7 {
          d := 0;
          s := row + w;
          row := s;
        }
      }
    }
  }

  lemma SmallRemainder(n: int)
    ensures 0 <= Weekday(n) < 7 && Weekday(n) % 7 == Weekday(n)
  {
  }

  lemma DayCount(m: int, y: int)
    requires 1 <= m <= 12
    ensures 19 <= Days(m, y) <= 31 && (Days(m, y) == 19 <==> m == 9 && y == 1752)
  {
  }

  lemma FirstCell(p: int, w: int, first: int, m: int, y: int, was: seq<int>)
    requires 0 <= first < 7
    ensures Cell(p, w, first, 0) == p + 3 * first && RowOf(p, w, first, 0) == p && Column(first, 0) == first
    ensures Filled(was, was, p, w, first, m, y, 0)
  {
  }

  lemma CellFits(p: int, w: int, first: int, k: int)
    requires 0 <= first < 7 && 0 <= k < 31 && w >= 21
    ensures p <= Cell(p, w, first, k) < p + 5 * w + 19
  {
    var r := (first + k) / 7;
    assert 0 <= r <= 5;
    assert (5 - r) * w >= 0;
    assert r * w >= 0;
  }

  lemma NextMonth(m: int, y: int, d: int)
    requires 1 <= m <= 12 && d % 7 == Weekday(DayNumber(Date(m, 1, y)))
    ensures (d + Days(m, y)) % 7 == Weekday(DayNumber(Date(m + 1, 1, y)))
  {
    hide Base, Upto;
    var n := DayNumber(Date(m, 1, y)) + 5;
    assert DayNumber(Date(m + 1, 1, y)) + 5 == n + Days(m, y);
    SameRemainder(d, n, Days(m, y));
  }

  lemma SameRemainder(a: int, b: int, k: int)
    requires a % 7 == b % 7
    ensures (a + k) % 7 == (b + k) % 7
  {
    var q := a / 7 - b / 7;
    assert a + k == 7 * q + (b + k);
    DivShift(7, q, b + k);
  }
}

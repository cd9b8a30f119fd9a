/** The civil calendar Expr.Next walks over. */
module Calendar {
  // Proleptic Gregorian days, counted from 1 January of year 1, which was a Monday.

  predicate IsLeap(y: int) { y % 4 == 0 && (y % 100 != 0 || y % 400 == 0) }

  function YearLength(y: int): int { if IsLeap(y) then 366 else 365 }

  /** The day number of 1 January. */
  function YearStart(y: int): int
  {
    var p := y - 1;
    365 * p + p / 4 - p / 100 + p / 400
  }

  lemma YearStartNext(y: int)
    ensures YearStart(y + 1) == YearStart(y) + YearLength(y)
  {
    var p := y - 1;
    assert (p + 1) / 4 == p / 4 + if (p + 1) % 4 == 0 then 1 else 0;
    assert (p + 1) / 100 == p / 100 + if (p + 1) % 100 == 0 then 1 else 0;
    assert (p + 1) / 400 == p / 400 + if (p + 1) % 400 == 0 then 1 else 0;
  }

  lemma {:induction false} YearStartMonotone(y: int, z: int)
    requires y <= z
    ensures YearStart(y) + 365 * (z - y) <= YearStart(z)
    decreases z - y
  {
    if y < z {
      YearStartMonotone(y, z - 1);
      YearStartNext(z - 1);
    }
  }

  function MonthLength(y: int, m: int): int
    requires 1 <= m <= 12
  {
    if m == 2 then (if IsLeap(y) then 29 else 28)
    else if m == 4 || m == 6 || m == 9 || m == 11 then 30
    else 31
  }

  /** The days of the year before the first of month `m`. */
  function MonthStart(y: int, m: int): int
    requires 1 <= m <= 13
  {
    if m == 1 then 0 else MonthStart(y, m - 1) + MonthLength(y, m - 1)
  }

  /** The leap day shifts the months after February, and nothing else. */
  lemma MonthStartByTable(y: int, m: int)
    requires 1 <= m <= 13
    ensures MonthStart(y, m) == [0, 31, 59, 90, 120, 151, 181, 212, 243, 273, 304, 334, 365][m - 1]
                                + if m > 2 && IsLeap(y) then 1 else 0
  {
    if m > 1 {
      MonthStartByTable(y, m - 1);
    }
  }

  datatype Date = Date(year: int, month: int, day: int)

  predicate IsDate(d: Date)
  {
    1 <= d.month <= 12 && 1 <= d.day <= MonthLength(d.year, d.month)
  }

  function DayNumber(d: Date): int
    requires IsDate(d)
  {
    YearStart(d.year) + MonthStart(d.year, d.month) + d.day - 1
  }

  // -------------------------------------------------- from days to dates

  function YearFrom(n: int, y: int): (z: int)
    requires YearStart(y) <= n
    ensures YearStart(z) <= n < YearStart(z + 1)
    decreases n - YearStart(y)
  {
    YearStartNext(y);
    if n < YearStart(y + 1) then y else YearFrom(n, y + 1)
  }

  /** The year a day falls in. */
  function YearOf(n: int): (y: int)
    ensures YearStart(y) <= n < YearStart(y + 1)
  {
    var p := if n >= 0 then n / 366 else n / 365;
    YearFrom(n, p + 1)
  }

  function DateFrom(y: int, m: int, rest: int): (d: Date)
    requires 1 <= m <= 12 && 0 <= rest < MonthStart(y, 13) - MonthStart(y, m)
    ensures IsDate(d) && d.year == y
    ensures MonthStart(y, d.month) + d.day - 1 == MonthStart(y, m) + rest
    decreases 12 - m
  {
    if rest < MonthLength(y, m) then Date(y, m, rest + 1) else DateFrom(y, m + 1, rest - MonthLength(y, m))
  }

  /** The date of a day: its inverse is DayNumber. */
  function Civil(n: int): (d: Date)
    ensures IsDate(d) && DayNumber(d) == n
  {
    var y := YearOf(n);
    YearStartNext(y);
    MonthStartByTable(y, 13);
    DateFrom(y, 1, n - YearStart(y))
  }

  lemma YearUnique(n: int, y: int, z: int)
    requires YearStart(y) <= n < YearStart(y + 1) && YearStart(z) <= n < YearStart(z + 1)
    ensures y == z
  {
    if y < z {
      YearStartMonotone(y + 1, z);
    } else if z < y {
      YearStartMonotone(z + 1, y);
    }
  }

  lemma {:induction false} MonthStartMonotone(y: int, m: int, k: int)
    requires 1 <= m < k <= 13
    ensures MonthStart(y, m) + MonthLength(y, m) <= MonthStart(y, k)
    decreases k
  {
    if m < k - 1 {
      MonthStartMonotone(y, m, k - 1);
    }
  }

  /** No two dates share a day. */
  lemma CivilOfDayNumber(d: Date)
    requires IsDate(d)
    ensures Civil(DayNumber(d)) == d
  {
    var n, e := DayNumber(d), Civil(DayNumber(d));
    DayWithinYear(d);
    DayWithinYear(e);
    YearUnique(n, d.year, e.year);
    if d.month < e.month {
      MonthStartMonotone(d.year, d.month, e.month);
    } else if e.month < d.month {
      MonthStartMonotone(d.year, e.month, d.month);
    }
  }

  lemma DayWithinYear(d: Date)
    requires IsDate(d)
    ensures YearStart(d.year) <= DayNumber(d) < YearStart(d.year + 1)
  {
    YearStartNext(d.year);
    MonthStartByTable(d.year, 13);
    MonthStartByTable(d.year, d.month);
    MonthStartMonotone(d.year, d.month, 13);
  }

  /** Sunday is 0, as in Go. */
  function Weekday(n: int): int { (n + 1) % 7 }

  // ------------------------------------------------------- anniversaries

  /** A day and month that occur in every year. */
  predicate EveryYear(month: int, day: int)
  {
    1 <= month <= 12 && 1 <= day <= MonthLength(1, month)
  }

  /** From one anniversary to the next it is 366 days when a leap day lies
      between them, and 365 otherwise. */
  lemma AnniversaryGap(y: int, month: int, day: int)
    requires EveryYear(month, day)
    ensures IsDate(Date(y, month, day)) && IsDate(Date(y + 1, month, day))
    ensures DayNumber(Date(y + 1, month, day)) - DayNumber(Date(y, month, day))
         == if IsLeap(if month <= 2 then y else y + 1) then 366 else 365
  {
    YearStartNext(y);
    MonthStartByTable(y, month);
    MonthStartByTable(y + 1, month);
  }

  /** Such a date comes round within any 366 days. */
  lemma AnniversaryWithin366(month: int, day: int, n: int) returns (y: int)
    requires EveryYear(month, day)
    ensures IsDate(Date(y, month, day)) && n <= DayNumber(Date(y, month, day)) < n + 366
  {
    y := YearOf(n);
    YearStartNext(y);
    AnniversaryGap(y, month, day);
    DayWithinYear(Date(y, month, day));
    if DayNumber(Date(y, month, day)) < n {
      y := y + 1;
    }
  }

  // ------------------------------------------------------ day after day

  function Tomorrow(d: Date): (e: Date)
    requires IsDate(d)
    ensures IsDate(e)
  {
    if d.day < MonthLength(d.year, d.month) then Date(d.year, d.month, d.day + 1)
    else if d.month < 12 then Date(d.year, d.month + 1, 1)
    else Date(d.year + 1, 1, 1)
  }

  lemma TomorrowIsNext(d: Date)
    requires IsDate(d)
    ensures DayNumber(Tomorrow(d)) == DayNumber(d) + 1
  {
    if d.month == 12 {
      YearStartNext(d.year);
      MonthStartByTable(d.year, 12);
      assert MonthStart(d.year + 1, 1) == 0;
    }
  }

  lemma WeekdayAfter(n: int)
    ensures Weekday(n + 1) == if Weekday(n) == 6 then 0 else Weekday(n) + 1
    ensures 0 <= Weekday(n) < 7
  {
  }

  /** The days are numbered one after the other, through all months and years, and the
      weekdays go round with them; 1 January 2000 was a Saturday. */
  lemma DaysFollow(d: Date)
    requires IsDate(d)
    ensures DayNumber(Tomorrow(d)) == DayNumber(d) + 1
    ensures Weekday(DayNumber(Tomorrow(d))) == if Weekday(DayNumber(d)) == 6 then 0 else Weekday(DayNumber(d)) + 1
    ensures Weekday(DayNumber(Date(2000, 1, 1))) == 6
  {
    TomorrowIsNext(d);
    WeekdayAfter(DayNumber(d));
    assert DayNumber(Date(2000, 1, 1)) == 730119;
  }
}

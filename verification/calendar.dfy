/** The proleptic Gregorian calendar in UTC. Day 0 is 1 January of year 1, a Monday. */
module Calendar {

  datatype Date = Date(year: int, month: int, day: int)

  predicate Leap(y: int) {
    y % 4 == 0 && (y % 100 != 0 || y % 400 == 0)
  }

  function YearDays(y: int): (n: int)
    ensures 365 <= n <= 366
  {
    if Leap(y) then 366 else 365
  }

  function MonthDays(y: int, m: int): (n: int)
    ensures 28 <= n <= 31
  {
    if m == 2 then (if Leap(y) then 29 else 28)
    else if m in {4, 6, 9, 11} then 30
    else 31
  }

  /** The number of the first day of a year, counted year by year from year 1. */
  function YearStart(y: int): (n: int)
    decreases if y >= 1 then y else 2 - y
  {
    if y == 1 then 0
    else if y > 1 then YearStart(y - 1) + YearDays(y - 1)
    else YearStart(y + 1) - YearDays(y)
  }

  /** The days of a year before a month; month 13 stands for the whole year. */
  function MonthStart(y: int, m: int): (n: int)
    requires 1 <= m <= 13
    ensures 0 <= n
  {
    if m == 1 then 0 else MonthStart(y, m - 1) + MonthDays(y, m - 1)
  }

  predicate Valid(d: Date) {
    1 <= d.month <= 12 && 1 <= d.day <= MonthDays(d.year, d.month)
  }

  function DayNumber(d: Date): (n: int)
    requires Valid(d)
  {
    YearStart(d.year) + MonthStart(d.year, d.month) + d.day - 1
  }

  /** time.Weekday, 0 for Sunday. */
  function Weekday(n: int): (w: int)
    ensures 0 <= w <= 6
  {
    (n + 1) % 7
  }

  lemma YearStep(y: int)
    ensures YearStart(y + 1) == YearStart(y) + YearDays(y)
  {
  }

  lemma {:induction false} YearsIncrease(y: int, z: int)
    requires y <= z
    ensures YearStart(y) + 365 * (z - y) <= YearStart(z)
    decreases z - y
  {
    if y < z {
      YearsIncrease(y, z - 1);
      YearStep(z - 1);
    }
  }

  lemma MonthsFillYear(y: int)
    ensures MonthStart(y, 13) == YearDays(y)
  {
    var leap := if Leap(y) then 1 else 0;
    assert MonthStart(y, 2) == 31;
    assert MonthStart(y, 3) == 59 + leap;
    assert MonthStart(y, 4) == 90 + leap;
    assert MonthStart(y, 5) == 120 + leap;
    assert MonthStart(y, 6) == 151 + leap;
    assert MonthStart(y, 7) == 181 + leap;
    assert MonthStart(y, 8) == 212 + leap;
    assert MonthStart(y, 9) == 243 + leap;
    assert MonthStart(y, 10) == 273 + leap;
    assert MonthStart(y, 11) == 304 + leap;
    assert MonthStart(y, 12) == 334 + leap;
  }

  lemma {:induction false} MonthsIncrease(y: int, m: int, k: int)
    requires 1 <= m < k <= 13
    ensures MonthStart(y, m) + MonthDays(y, m) <= MonthStart(y, k)
    decreases k
  {
    if m < k - 1 {
      MonthsIncrease(y, m, k - 1);
    }
  }

  /** The year containing day `n`, searched upwards from a year that starts no later. */
  function YearFrom(y: int, n: int): (r: int)
    requires YearStart(y) <= n
    ensures YearStart(r) <= n < YearStart(r + 1)
    decreases n - YearStart(y)
  {
    YearStep(y);
    if n < YearStart(y + 1) then y else YearFrom(y + 1, n)
  }

  function YearOf(n: int): (y: int)
    ensures YearStart(y) <= n < YearStart(y + 1)
  {
    if n >= 0 then YearFrom(1, n)
    else
      YearsIncrease(n, 1);
      YearFrom(n, n)
  }

  function MonthFrom(y: int, m: int, k: int): (r: int)
    requires 1 <= m <= 12 && MonthStart(y, m) <= k < YearDays(y)
    ensures 1 <= r <= 12 && MonthStart(y, r) <= k < MonthStart(y, r + 1)
    decreases 13 - m
  {
    MonthsFillYear(y);
    if k < MonthStart(y, m + 1) then m else MonthFrom(y, m + 1, k)
  }

  /** The civil date of a day. */
  function DateOf(n: int): (d: Date)
    ensures Valid(d) && DayNumber(d) == n
  {
    var y := YearOf(n);
    YearStep(y);
    var k := n - YearStart(y);
    var m := MonthFrom(y, 1, k);
    Date(y, m, k - MonthStart(y, m) + 1)
  }

  /** A day has one date. */
  lemma DateUnique(d: Date, e: Date)
    requires Valid(d) && Valid(e) && DayNumber(d) == DayNumber(e)
    ensures d == e
  {
    DayInYear(d);
    DayInYear(e);
    if d.year < e.year {
      YearsIncrease(d.year + 1, e.year);
    } else if e.year < d.year {
      YearsIncrease(e.year + 1, d.year);
    } else if d.month < e.month {
      MonthsIncrease(d.year, d.month, e.month);
    } else if e.month < d.month {
      MonthsIncrease(d.year, e.month, d.month);
    }
  }

  lemma DayInYear(d: Date)
    requires Valid(d)
    ensures YearStart(d.year) <= DayNumber(d) < YearStart(d.year + 1)
  {
    MonthsIncrease(d.year, d.month, 13);
    MonthsFillYear(d.year);
    YearStep(d.year);
  }

  /** time.Date(year, month + 1, 1, ...): month 13 is January of the next year. */
  function FirstOfNextMonth(n: int): (r: int) {
    var d := DateOf(n);
    if d.month == 12 then DayNumber(Date(d.year + 1, 1, 1)) else DayNumber(Date(d.year, d.month + 1, 1))
  }

  lemma MonthEnd(n: int)
    ensures var d := DateOf(n);
            FirstOfNextMonth(n) == YearStart(d.year) + MonthStart(d.year, d.month) + MonthDays(d.year, d.month)
    ensures n < FirstOfNextMonth(n)
  {
    var d := DateOf(n);
    if d.month == 12 {
      MonthsFillYear(d.year);
      YearStep(d.year);
    }
  }

  /** Every day from `n` up to the first of the next month lies in the month of `n`. */
  lemma SameMonth(n: int, k: int)
    requires n <= k < FirstOfNextMonth(n)
    ensures DateOf(k).year == DateOf(n).year && DateOf(k).month == DateOf(n).month
  {
    MonthEnd(n);
    var d := DateOf(n);
    var e := Date(d.year, d.month, d.day + (k - n));
    DateUnique(e, DateOf(k));
  }

  lemma DivisionStep(x: int)
    ensures (x + 1) / 4 == x / 4 + (if (x + 1) % 4 == 0 then 1 else 0)
    ensures (x + 1) / 100 == x / 100 + (if (x + 1) % 100 == 0 then 1 else 0)
    ensures (x + 1) / 400 == x / 400 + (if (x + 1) % 400 == 0 then 1 else 0)
  {
  }

  lemma Century(y: int)
    ensures y % 400 == 0 ==> y % 100 == 0
    ensures y % 100 == 0 ==> y % 4 == 0
  {
  }

  /** The usual closed form for the start of a year. */
  lemma {:induction false} YearStartClosedForm(y: int)
    requires y >= 1
    ensures YearStart(y) == 365 * (y - 1) + (y - 1) / 4 - (y - 1) / 100 + (y - 1) / 400
  {
    if y > 1 {
      YearStartClosedForm(y - 1);
      DivisionStep(y - 2);
      Century(y - 1);
    }
  }
}

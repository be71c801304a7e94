/** Proleptic Gregorian day arithmetic, as JavaScript's Date.UTC and the getUTC* accessors do it:
    days are counted from 1 January 1970 and months from 0. */
module Calendar {

  datatype Civil = Civil(year: int, month: int, day: int)   // month 1..12, as the source's records hold it

  predicate Leap(y: int) {
    y % 4 == 0 && (y % 100 != 0 || y % 400 == 0)
  }

  /** Leap days in all the years before y, up to a constant. */
  function LeapDays(y: int): int {
    (y - 1) / 4 - (y - 1) / 100 + (y - 1) / 400
  }

  function YearStart(y: int): int {
    365 * (y - 1970) + LeapDays(y) - 477
  }

  /** Length of month m (0..11) of year y. */
  function MonthDays(y: int, m: int): (n: int)
    ensures 28 <= n <= 31
  {
    if m == 1 then (if Leap(y) then 29 else 28)
    else if m == 3 || m == 5 || m == 8 || m == 10 then 30
    else 31
  }

  const MONTH_STARTS: seq<int> := [0, 31, 59, 90, 120, 151, 181, 212, 243, 273, 304, 334, 365]

  /** Days of year y before month m, for m in 0..12. */
  function DaysBefore(y: int, m: int): int
    requires 0 <= m <= 12
  {
    MONTH_STARTS[m] + if m >= 2 && Leap(y) then 1 else 0
  }

  /** First day of the absolute month k, where k counts 12 months to a year. */
  function MonthStart(k: int): int {
    YearStart(k / 12) + DaysBefore(k / 12, k % 12)
  }

  function MonthLength(k: int): (n: int)
    ensures 28 <= n <= 31
  {
    MonthDays(k / 12, k % 12)
  }

  /** Date.UTC maps the two-digit years 0..99 into the twentieth century. */
  function FullYear(y: int): int {
    if 0 <= y <= 99 then 1900 + y else y
  }

  /** Day number of Date.UTC(year, month, day): month (from 0) and day may lie outside their ranges. */
  function UtcDay(year: int, month: int, day: int): int {
    MonthStart(12 * FullYear(year) + month) + day - 1
  }

  /** The absolute month that holds day n, found by walking from k. */
  function MonthFrom(n: int, k: int): (r: int)
    ensures MonthStart(r) <= n < MonthStart(r) + MonthLength(r)
    decreases if n < MonthStart(k) then MonthStart(k) - n + 31 else n - MonthStart(k)
  {
    MonthStep(k - 1);
    MonthStep(k);
    if n < MonthStart(k) then MonthFrom(n, k - 1)
    else if n < MonthStart(k) + MonthLength(k) then k
    else MonthFrom(n, k + 1)
  }

  function MonthOf(n: int): (r: int)
    ensures MonthStart(r) <= n < MonthStart(r) + MonthLength(r)
  {
    MonthFrom(n, 12 * 1970)
  }

  /** getUTCFullYear, getUTCMonth + 1 and getUTCDate of day n. */
  function CivilOf(n: int): (c: Civil)
    ensures ValidCivil(c)
  {
    var k := MonthOf(n);
    Civil(k / 12, k % 12 + 1, n - MonthStart(k) + 1)
  }

  predicate ValidCivil(c: Civil) {
    1 <= c.month <= 12 && 1 <= c.day <= MonthDays(c.year, c.month - 1)
  }

  function DayOf(c: Civil): int {
    MonthStart(12 * c.year + c.month - 1) + c.day - 1
  }

  lemma YearStep(y: int)
    ensures YearStart(y + 1) == YearStart(y) + DaysBefore(y, 12)
  {
    Steps4(y);
    Steps100(y);
    Steps400(y);
  }

  lemma Steps4(y: int)
    ensures y / 4 == (y - 1) / 4 + if y % 4 == 0 then 1 else 0
  {
  }

  lemma Steps100(y: int)
    ensures y / 100 == (y - 1) / 100 + if y % 100 == 0 then 1 else 0
    ensures y % 100 == 0 ==> y % 4 == 0
  {
  }

  lemma Steps400(y: int)
    ensures y / 400 == (y - 1) / 400 + if y % 400 == 0 then 1 else 0
    ensures y % 400 == 0 ==> y % 100 == 0
  {
  }

  /** Months follow each other without gap or overlap, across year ends too. */
  lemma MonthStep(k: int)
    ensures MonthStart(k + 1) == MonthStart(k) + MonthLength(k)
  {
    if k % 12 == 11 {
      assert (k + 1) / 12 == k / 12 + 1 && (k + 1) % 12 == 0;
      YearStep(k / 12);
    } else {
      assert (k + 1) / 12 == k / 12 && (k + 1) % 12 == k % 12 + 1;
    }
  }

  lemma {:induction false} MonthOrder(i: int, j: int)
    requires i < j
    ensures MonthStart(i) + MonthLength(i) <= MonthStart(j)
    decreases j - i
  {
    MonthStep(i);
    if i + 1 < j {
      MonthOrder(i + 1, j);
    }
  }

  lemma MonthUnique(n: int, k: int)
    requires MonthStart(k) <= n < MonthStart(k) + MonthLength(k)
    ensures MonthOf(n) == k
  {
    var r := MonthOf(n);
    if r < k {
      MonthOrder(r, k);
    } else if k < r {
      MonthOrder(k, r);
    }
  }

  lemma MonthIndex(y: int, m: int)
    requires 0 <= m < 12
    ensures (12 * y + m) / 12 == y && (12 * y + m) % 12 == m
  {
  }

  /** Reading a calendar date back from its day number gives the same date ... */
  lemma CivilOfDay(c: Civil)
    requires ValidCivil(c)
    ensures CivilOf(DayOf(c)) == c
  {
    MonthIndex(c.year, c.month - 1);
    MonthUnique(DayOf(c), 12 * c.year + c.month - 1);
  }

  /** ... and every day number is the day of exactly the date it is read as. */
  lemma DayOfCivil(n: int)
    ensures DayOf(CivilOf(n)) == n
  {
    var k := MonthOf(n);
    assert 12 * (k / 12) + k % 12 == k;
  }

  /** The day before a month starts is the last day of the month before it: this is what
      Date.UTC(y, m + 1, 0) relies on. */
  lemma LastDay(k: int)
    ensures CivilOf(MonthStart(k + 1) - 1).day == MonthLength(k)
  {
    MonthStep(k);
    MonthUnique(MonthStart(k + 1) - 1, k);
  }

  predicate Before(a: Civil, b: Civil) {
    a.year < b.year || (a.year == b.year && (a.month < b.month || (a.month == b.month && a.day < b.day)))
  }

  lemma EarlierMonth(a: Civil, b: Civil)
    requires ValidCivil(a) && ValidCivil(b)
    requires 12 * a.year + a.month < 12 * b.year + b.month
    ensures DayOf(a) < DayOf(b)
  {
    MonthIndex(a.year, a.month - 1);
    MonthOrder(12 * a.year + a.month - 1, 12 * b.year + b.month - 1);
  }

  /** Calendar order is day-number order. */
  lemma DayOrder(a: Civil, b: Civil)
    requires ValidCivil(a) && ValidCivil(b)
    ensures DayOf(a) < DayOf(b) <==> Before(a, b)
  {
    if 12 * a.year + a.month < 12 * b.year + b.month {
      EarlierMonth(a, b);
    } else if 12 * b.year + b.month < 12 * a.year + a.month {
      EarlierMonth(b, a);
    } else {
      assert a.year == b.year && a.month == b.month;
    }
  }
}

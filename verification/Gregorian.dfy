/** The proleptic Gregorian calendar: civil dates and their ordinals (day 1 is 0001-01-01). */
module Gregorian {
  datatype Civil = Civil(year: int, month: int, day: int)

  predicate IsLeap(y: int) {
    y % 4 == 0 && (y % 100 != 0 || y % 400 == 0)
  }

  function DaysInMonth(y: int, m: int): (n: int)
    requires 1 <= m <= 12
    ensures 28 <= n <= 31
  {
    if m == 2 then (if IsLeap(y) then 29 else 28)
    else if m == 4 || m == 6 || m == 9 || m == 11 then 30
    else 31
  }

  /** January to December. */
  const MONTHS := [31, 28, 31, 30, 31, 30, 31, 31, 30, 31, 30, 31]

  /** The months have their lengths, February one day more in leap years; of the years divisible by a hundred only
      those divisible by four hundred are leap. */
  lemma MonthLengths(y: int, m: int)
    requires 1 <= m <= 12
    ensures DaysInMonth(y, m) == MONTHS[m - 1] + if m == 2 && IsLeap(y) then 1 else 0
    ensures y % 400 == 0 ==> IsLeap(y)
    ensures y % 100 == 0 && y % 400 != 0 ==> !IsLeap(y)
    ensures y % 4 == 0 && y % 100 != 0 ==> IsLeap(y)
    ensures y % 4 != 0 ==> !IsLeap(y)
  {
    CenturiesAreMultiples(y);
  }

  function DaysBeforeMonth(y: int, m: int): (n: int)
    requires 1 <= m <= 12
    ensures 28 * (m - 1) <= n <= 31 * (m - 1)
    decreases m
  {
    if m == 1 then 0 else DaysBeforeMonth(y, m - 1) + DaysInMonth(y, m - 1)
  }

  function DaysBeforeYear(y: int): int {
    (y - 1) * 365 + (y - 1) / 4 - (y - 1) / 100 + (y - 1) / 400
  }

  predicate IsDate(d: Civil) {
    1 <= d.month <= 12 && 1 <= d.day <= DaysInMonth(d.year, d.month)
  }

  function Ordinal(d: Civil): int
    requires 1 <= d.month <= 12
  {
    DaysBeforeYear(d.year) + DaysBeforeMonth(d.year, d.month) + d.day
  }

  /** The first day of the calendar, and the first of January 1970, which computers count from. */
  lemma OrdinalAnchors()
    ensures Ordinal(Civil(1, 1, 1)) == 1 && Ordinal(Civil(1970, 1, 1)) == 719163
  {
    assert 1969 / 4 == 492 && 1969 / 100 == 19 && 1969 / 400 == 4 && 0 / 4 == 0 / 100 == 0 / 400 == 0;
    assert DaysBeforeYear(1970) == 719162 && DaysBeforeYear(1) == 0;
    FirstOfYear(1);
    FirstOfYear(1970);
  }

  lemma FirstOfYear(y: int)
    ensures Ordinal(Civil(y, 1, 1)) == DaysBeforeYear(y) + 1
  {
  }

  /** Chronological order, field by field. */
  predicate Before(a: Civil, b: Civil) {
    a.year < b.year || (a.year == b.year && (a.month < b.month || (a.month == b.month && a.day < b.day)))
  }

  function NextDay(d: Civil): Civil
    requires 1 <= d.month <= 12
  {
    if d.day < DaysInMonth(d.year, d.month) then Civil(d.year, d.month, d.day + 1)
    else if d.month < 12 then Civil(d.year, d.month + 1, 1)
    else Civil(d.year + 1, 1, 1)
  }

  function YearLength(y: int): int {
    if IsLeap(y) then 366 else 365
  }

  lemma YearStep(y: int)
    ensures DaysBeforeYear(y + 1) == DaysBeforeYear(y) + YearLength(y)
  {
    QuotientStep(y, 4);
    QuotientStep(y, 100);
    QuotientStep(y, 400);
    CenturiesAreMultiples(y);
  }

  lemma QuotientStep(y: int, n: int)
    requires n == 4 || n == 100 || n == 400
    ensures y / n == (y - 1) / n + (if y % n == 0 then 1 else 0)
  {
  }

  lemma CenturiesAreMultiples(y: int)
    ensures y % 400 == 0 ==> y % 100 == 0
    ensures y % 100 == 0 ==> y % 4 == 0
  {
    var q, r := y / 400, y % 400;
    assert y == 100 * (4 * q) + r;
    var q', r' := y / 100, y % 100;
    assert y == 4 * (25 * q') + r';
  }

  lemma MonthsFillYear(y: int)
    ensures DaysBeforeMonth(y, 12) + 31 == YearLength(y)
  {
    assert DaysBeforeMonth(y, 2) == 31;
    assert DaysBeforeMonth(y, 4) == DaysBeforeMonth(y, 2) + DaysInMonth(y, 2) + 31;
    assert DaysBeforeMonth(y, 6) == DaysBeforeMonth(y, 4) + 61;
    assert DaysBeforeMonth(y, 8) == DaysBeforeMonth(y, 6) + 61;
    assert DaysBeforeMonth(y, 10) == DaysBeforeMonth(y, 8) + 61;
    assert DaysBeforeMonth(y, 12) == DaysBeforeMonth(y, 10) + 61;
  }

  lemma NextYear(d: Civil)
    requires d.month == 12 && d.day == 31
    ensures Ordinal(Civil(d.year + 1, 1, 1)) == Ordinal(d) + 1
  {
    YearStep(d.year);
    MonthsFillYear(d.year);
  }

  lemma NextMonth(d: Civil)
    requires 1 <= d.month < 12 && d.day == DaysInMonth(d.year, d.month)
    ensures Ordinal(Civil(d.year, d.month + 1, 1)) == Ordinal(d) + 1
  {
  }

  lemma NextInMonth(d: Civil)
    requires 1 <= d.month <= 12
    ensures Ordinal(Civil(d.year, d.month, d.day + 1)) == Ordinal(d) + 1
  {
  }

  /** The next day is the next ordinal. */
  lemma NextDayIsNextOrdinal(d: Civil)
    requires IsDate(d)
    ensures Ordinal(NextDay(d)) == Ordinal(d) + 1
  {
    if d.day < DaysInMonth(d.year, d.month) {
      NextInMonth(d);
    } else if d.month < 12 {
      NextMonth(d);
    } else {
      NextYear(d);
    }
  }

  /** The date n days later. */
  function Advance(d: Civil, n: nat): (r: Civil)
    requires IsDate(d)
    ensures IsDate(r)
  {
    if n == 0 then d else NextDay(Advance(d, n - 1))
  }

  lemma {:induction false} AdvanceOrdinal(d: Civil, n: nat)
    requires IsDate(d)
    ensures Ordinal(Advance(d, n)) == Ordinal(d) + n
  {
    if n > 0 {
      var before := Advance(d, n - 1);
      AdvanceOrdinal(d, n - 1);
      NextDayIsNextOrdinal(before);
      assert Advance(d, n) == NextDay(before);
    }
  }

  lemma {:induction false} MonthsGrow(y: int, m: int, n: int)
    requires 1 <= m < n <= 12
    ensures DaysBeforeMonth(y, m) + DaysInMonth(y, m) <= DaysBeforeMonth(y, n)
    decreases n
  {
    if m < n - 1 {
      MonthsGrow(y, m, n - 1);
    }
  }

  lemma {:induction false} YearsGrow(y: int, z: int)
    requires y < z
    ensures DaysBeforeYear(y) + YearLength(y) <= DaysBeforeYear(z)
    decreases z - y
  {
    YearStep(y);
    if y + 1 < z {
      YearsGrow(y + 1, z);
    }
  }

  lemma DayOfYear(d: Civil)
    requires IsDate(d)
    ensures 1 <= DaysBeforeMonth(d.year, d.month) + d.day <= YearLength(d.year)
  {
    MonthsFillYear(d.year);
    if d.month < 12 { MonthsGrow(d.year, d.month, 12); }
  }

  /** Dates and ordinals are in the same order; in particular different dates have different ordinals. */
  lemma BeforeIffSmallerOrdinal(a: Civil, b: Civil)
    requires IsDate(a) && IsDate(b)
    ensures Before(a, b) <==> Ordinal(a) < Ordinal(b)
    ensures a == b <==> Ordinal(a) == Ordinal(b)
  {
    EarlierIsSmaller(a, b);
    EarlierIsSmaller(b, a);
  }

  lemma EarlierIsSmaller(a: Civil, b: Civil)
    requires IsDate(a) && IsDate(b)
    ensures Before(a, b) ==> Ordinal(a) < Ordinal(b)
  {
    DayOfYear(a);
    DayOfYear(b);
    if a.year < b.year { YearsGrow(a.year, b.year); }
    if a.year == b.year && a.month < b.month { MonthsGrow(a.year, a.month, b.month); }
  }

  lemma BeforeThrough(a: Civil, b: Civil, c: Civil)
    ensures Before(a, b) && !Before(c, b) ==> Before(a, c)
  {
  }

  /** Advancing is strictly monotonic. */
  lemma AdvanceOrder(d: Civil, i: nat, j: nat)
    requires IsDate(d)
    ensures Before(Advance(d, i), Advance(d, j)) <==> i < j
  {
    AdvanceOrdinal(d, i);
    AdvanceOrdinal(d, j);
    BeforeIffSmallerOrdinal(Advance(d, i), Advance(d, j));
  }

  /** Every later date is reached by advancing. */
  lemma AdvanceReaches(d: Civil, e: Civil) returns (n: nat)
    requires IsDate(d) && IsDate(e) && !Before(e, d)
    ensures Advance(d, n) == e
  {
    BeforeIffSmallerOrdinal(e, d);
    n := Ordinal(e) - Ordinal(d);
    AdvanceOrdinal(d, n);
    BeforeIffSmallerOrdinal(Advance(d, n), e);
  }
}

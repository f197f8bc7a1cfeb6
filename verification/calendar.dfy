/**
  The proleptic Gregorian calendar of Python's `datetime.date`: civil dates,
  their day ordinal, day arithmetic (`timedelta(days=…)`) and the weekday.
  The ordinal counts days from 0001-01-01, which is a Monday, so the
  Monday-first weekday of a date is its ordinal modulo 7.
*/
module Calendar {

  datatype Date = Date(year: int, month: int, day: int)

  predicate IsLeap(y: int)
  {
    y % 4 == 0 && (y % 100 != 0 || y % 400 == 0)
  }

  function DaysInMonth(y: int, m: int): int
    requires 1 <= m <= 12
  {
    if m == 2 then (if IsLeap(y) then 29 else 28)
    else if m == 4 || m == 6 || m == 9 || m == 11 then 30
    else 31
  }

  function DaysInYear(y: int): int
  {
    if IsLeap(y) then 366 else 365
  }

  /** A date Python can represent (the upper bound `MAXYEAR` is not modelled). */
  predicate Valid(d: Date)
  {
    && d.year >= 1
    && 1 <= d.month <= 12
    && 1 <= d.day <= DaysInMonth(d.year, d.month)
  }

  /** Days in the years before `y`. */
  function YearStart(y: int): nat
    requires y >= 1
  {
    if y == 1 then 0 else YearStart(y - 1) + DaysInYear(y - 1)
  }

  /** Days in the months of year `y` before month `m`. */
  function MonthStart(y: int, m: int): nat
    requires 1 <= m <= 12
  {
    if m == 1 then 0 else MonthStart(y, m - 1) + DaysInMonth(y, m - 1)
  }

  /** The day ordinal: 0 for 0001-01-01, counting up one per day. */
  function Ord(d: Date): nat
    requires Valid(d)
  {
    YearStart(d.year) + MonthStart(d.year, d.month) + d.day - 1
  }

  /** Zero-based day of the year (`tm_yday`). */
  function YearDay(d: Date): nat
    requires Valid(d)
  {
    MonthStart(d.year, d.month) + d.day - 1
  }

  /** Monday-first weekday: 0 is Monday, 6 is Sunday (Python's `date.weekday()`). */
  function Weekday(d: Date): nat
    requires Valid(d)
  {
    Ord(d) % 7
  }

  /** Python's `date <= date`. */
  predicate Le(a: Date, b: Date)
  {
    a.year < b.year
    || (a.year == b.year && a.month < b.month)
    || (a.year == b.year && a.month == b.month && a.day <= b.day)
  }

  /** `d + timedelta(days=1)`. */
  function NextDay(d: Date): (r: Date)
    requires Valid(d)
    ensures Valid(r) && Ord(r) == Ord(d) + 1
  {
    if d.day < DaysInMonth(d.year, d.month) then
      Date(d.year, d.month, d.day + 1)
    else if d.month < 12 then
      Date(d.year, d.month + 1, 1)
    else
      YearEnd(d.year);
      Date(d.year + 1, 1, 1)
  }

  /** `d - timedelta(days=1)`; 0001-01-01 has no predecessor. */
  function PrevDay(d: Date): (r: Date)
    requires Valid(d) && Ord(d) > 0
    ensures Valid(r) && Ord(r) + 1 == Ord(d)
  {
    if d.day > 1 then
      Date(d.year, d.month, d.day - 1)
    else if d.month > 1 then
      Date(d.year, d.month - 1, DaysInMonth(d.year, d.month - 1))
    else
      YearEnd(d.year - 1);
      Date(d.year - 1, 12, 31)
  }

  /** `d + timedelta(days=n)`. */
  function AddDays(d: Date, n: nat): (r: Date)
    requires Valid(d)
    ensures Valid(r) && Ord(r) == Ord(d) + n
    decreases n
  {
    if n == 0 then d else AddDays(NextDay(d), n - 1)
  }

  /** `d - timedelta(days=n)`. */
  function SubDays(d: Date, n: nat): (r: Date)
    requires Valid(d) && n <= Ord(d)
    ensures Valid(r) && Ord(r) + n == Ord(d)
    decreases n
  {
    if n == 0 then d else SubDays(PrevDay(d), n - 1)
  }

  /** `d.replace(day=k)`. */
  function ReplaceDay(d: Date, k: int): (r: Date)
    requires Valid(d) && 1 <= k <= DaysInMonth(d.year, d.month)
    ensures Valid(r) && r.year == d.year && r.month == d.month && r.day == k
  {
    Date(d.year, d.month, k)
  }

  /** Months are numbered consecutively across years. */
  function MonthIndex(year: int, month: int): int
  {
    year * 12 + month - 1
  }

  // ----- Facts about the ordinal -----

  /** The twelve months fill the year exactly. */
  lemma YearEnd(y: int)
    ensures MonthStart(y, 12) + 31 == DaysInYear(y)
  {
    assert MonthStart(y, 2) == 31;
    assert MonthStart(y, 3) == 31 + DaysInMonth(y, 2);
    assert MonthStart(y, 4) == MonthStart(y, 3) + 31;
    assert MonthStart(y, 5) == MonthStart(y, 4) + 30;
    assert MonthStart(y, 6) == MonthStart(y, 5) + 31;
    assert MonthStart(y, 7) == MonthStart(y, 6) + 30;
    assert MonthStart(y, 8) == MonthStart(y, 7) + 31;
    assert MonthStart(y, 9) == MonthStart(y, 8) + 31;
    assert MonthStart(y, 10) == MonthStart(y, 9) + 30;
    assert MonthStart(y, 11) == MonthStart(y, 10) + 31;
    assert MonthStart(y, 12) == MonthStart(y, 11) + 30;
  }

  lemma {:induction false} MonthStartBound(y: int, m: int)
    requires 1 <= m <= 12
    ensures MonthStart(y, m) + DaysInMonth(y, m) <= DaysInYear(y)
    decreases 12 - m
  {
    if m == 12 {
      YearEnd(y);
    } else {
      MonthStartBound(y, m + 1);
    }
  }

  lemma {:induction false} MonthStartMono(y: int, m1: int, m2: int)
    requires 1 <= m1 < m2 <= 12
    ensures MonthStart(y, m1) + DaysInMonth(y, m1) <= MonthStart(y, m2)
    decreases m2 - m1
  {
    if m1 + 1 < m2 {
      MonthStartMono(y, m1, m2 - 1);
    }
  }

  lemma {:induction false} YearStartMono(y1: int, y2: int)
    requires 1 <= y1 < y2
    ensures YearStart(y1) + DaysInYear(y1) <= YearStart(y2)
    decreases y2 - y1
  {
    if y1 + 1 < y2 {
      YearStartMono(y1, y2 - 1);
    }
  }

  /** A date lies inside its own year. */
  lemma OrdInYear(d: Date)
    requires Valid(d)
    ensures YearStart(d.year) <= Ord(d) < YearStart(d.year) + DaysInYear(d.year)
  {
    MonthStartBound(d.year, d.month);
  }

  /** Python's date comparison agrees with comparison of ordinals. */
  lemma LeIffOrd(a: Date, b: Date)
    requires Valid(a) && Valid(b)
    ensures Le(a, b) <==> Ord(a) <= Ord(b)
  {
    OrdInYear(a);
    OrdInYear(b);
    if a.year < b.year {
      YearStartMono(a.year, b.year);
    } else if b.year < a.year {
      YearStartMono(b.year, a.year);
    } else if a.month < b.month {
      MonthStartMono(a.year, a.month, b.month);
    } else if b.month < a.month {
      MonthStartMono(a.year, b.month, a.month);
    }
  }

  /** Distinct valid dates have distinct ordinals. */
  lemma OrdInjective(a: Date, b: Date)
    requires Valid(a) && Valid(b) && Ord(a) == Ord(b)
    ensures a == b
  {
    LeIffOrd(a, b);
    LeIffOrd(b, a);
  }

  /** Adding days never leaves the year early: a later date has a year at least as large. */
  lemma YearMono(a: Date, b: Date)
    requires Valid(a) && Valid(b) && Ord(a) <= Ord(b)
    ensures a.year <= b.year
  {
    LeIffOrd(a, b);
  }
}

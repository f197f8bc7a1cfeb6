/**
  Report periods: the period token of the report URL, the column labels that
  `strftime` produces (`%Y-%m-%d`, `%Y-%W`, `%Y-%m`), the bucket a record date
  falls into (`TruncDay`/`TruncWeek`/`TruncMonth` followed by the same
  `strftime`), and `_generate_date_range` (record/views.py:95-113).

  Labels are kept structured instead of as text: a day label is the date, a
  week label is the pair (year, `%W` week number), a month label is (year, month).
  Two labels are equal exactly when the zero-padded strings are.
*/
module Periods {
  import opened Common
  import opened Calendar

  datatype Period = Daily | Weekly | Monthly

  datatype Label = Day(date: Date) | Week(year: int, week: int) | Month(year: int, month: int)

  /** The path parameter of the report endpoints; anything else is rejected. */
  function ParsePeriod(token: string): (p: Option<Period>)
    ensures p == Some(Daily) <==> token == "daily"
    ensures p == Some(Weekly) <==> token == "weekly"
    ensures p == Some(Monthly) <==> token == "monthly"
  {
    if token == "daily" then Some(Daily)
    else if token == "weekly" then Some(Weekly)
    else if token == "monthly" then Some(Monthly)
    else None
  }

  /** `%W`: the Monday-first week of the year; days before the first Monday are week 0. */
  function WeekNumber(d: Date): nat
    requires Valid(d)
  {
    (YearDay(d) + 7 - Weekday(d)) / 7
  }

  /** The label `strftime` gives date `d` for period `p`. */
  function Strf(p: Period, d: Date): Label
    requires Valid(d)
  {
    match p
    case Daily => Day(d)
    case Weekly => Week(d.year, WeekNumber(d))
    case Monthly => Month(d.year, d.month)
  }

  /** The Monday on or before `d`: `TruncWeek`. */
  function MondayOf(d: Date): (r: Date)
    requires Valid(d)
    ensures Valid(r) && Weekday(r) == 0 && Ord(r) <= Ord(d) < Ord(r) + 7
  {
    var r := SubDays(d, Weekday(d));
    MondayArith(Ord(d), Ord(r));
    r
  }

  /** Stepping back by the remainder lands on a multiple of seven. */
  lemma MondayArith(o: nat, m: nat)
    requires m + o % 7 == o
    ensures m % 7 == 0 && m <= o < m + 7
  {
    assert m == 7 * (o / 7);
  }

  /** The date the database truncates `d` to for period `p`. */
  function Trunc(p: Period, d: Date): (r: Date)
    requires Valid(d)
    ensures Valid(r)
  {
    match p
    case Daily => d
    case Weekly => MondayOf(d)
    case Monthly => ReplaceDay(d, 1)
  }

  /** The label of the bucket a record dated `d` is grouped under. */
  function Bucket(p: Period, d: Date): Label
    requires Valid(d)
  {
    Strf(p, Trunc(p, d))
  }

  // ----- The generator -----

  /** `_generate_date_range(start, end, period)`: an unknown period gives no labels. */
  function DateRange(start: Date, end: Date, period: string): seq<Label>
    requires Valid(start) && Valid(end)
  {
    match ParsePeriod(period)
    case Some(Daily) => DailyFrom(start, end)
    case Some(Weekly) => WeeklyFrom(start, end)
    case Some(Monthly) => MonthlyFrom(start, end)
    case None => []
  }

  /** The daily loop: one label per day while `current <= end`. */
  function DailyFrom(cur: Date, end: Date): (r: seq<Label>)
    requires Valid(cur) && Valid(end)
    ensures |r| == if Ord(cur) <= Ord(end) then Ord(end) - Ord(cur) + 1 else 0
    ensures forall i :: 0 <= i < |r| ==> r[i].Day? && Valid(r[i].date) && Ord(r[i].date) == Ord(cur) + i
    decreases Ord(end) + 1 - Ord(cur)
  {
    LeIffOrd(cur, end);
    if Le(cur, end) then [Day(cur)] + DailyFrom(NextDay(cur), end) else []
  }

  /** The weekly loop: the label of `start`, `start + 7`, `start + 14`, … while `<= end`. */
  function WeeklyFrom(cur: Date, end: Date): (r: seq<Label>)
    requires Valid(cur) && Valid(end)
    ensures |r| == if Ord(cur) <= Ord(end) then (Ord(end) - Ord(cur)) / 7 + 1 else 0
    ensures forall i :: 0 <= i < |r| ==> r[i] == Strf(Weekly, AddDays(cur, 7 * i))
    decreases Ord(end) + 1 - Ord(cur)
  {
    LeIffOrd(cur, end);
    if Le(cur, end) then
      var rest := WeeklyFrom(AddDays(cur, 7), end);
      var r := [Strf(Weekly, cur)] + rest;
      WeeklyCons(cur, AddDays(cur, 7), rest, r);
      r
    else
      []
  }

  /** Labels a week apart, starting a week later, shift by one place behind `cur`'s label. */
  lemma WeeklyCons(cur: Date, later: Date, rest: seq<Label>, r: seq<Label>)
    requires Valid(cur) && Valid(later) && Ord(later) == Ord(cur) + 7
    requires forall i {:trigger rest[i]} :: 0 <= i < |rest| ==> rest[i] == Strf(Weekly, AddDays(later, 7 * i))
    requires r == [Strf(Weekly, cur)] + rest
    ensures forall i {:trigger r[i]} :: 0 <= i < |r| ==> r[i] == Strf(Weekly, AddDays(cur, 7 * i))
  {
    forall i | 0 <= i < |r|
      ensures r[i] == Strf(Weekly, AddDays(cur, 7 * i))
    {
      if i > 0 {
        WeekLater(cur, later, i - 1);
        assert r[i] == rest[i - 1];
      }
    }
  }

  /** `j` weeks after a date one week later is `j + 1` weeks after the date. */
  lemma WeekLater(cur: Date, later: Date, j: nat)
    requires Valid(cur) && Valid(later) && Ord(later) == Ord(cur) + 7
    ensures AddDays(later, 7 * j) == AddDays(cur, 7 * (j + 1))
  {
    OrdInjective(AddDays(later, 7 * j), AddDays(cur, 7 * (j + 1)));
  }

  /** The first day of the month after the month of `d`. */
  function NextMonthStart(d: Date): Date
  {
    if d.month < 12 then Date(d.year, d.month + 1, 1) else Date(d.year + 1, 1, 1)
  }

  /** `current.replace(day=28) + timedelta(days=4)` followed by `.replace(day=1)`. */
  function MonthStep(d: Date): (r: Date)
    requires Valid(d)
    ensures Valid(r)
  {
    ReplaceDay(AddDays(ReplaceDay(d, 28), 4), 1)
  }

  /** Four days after the 28th always lands in the next month. */
  lemma MonthStepIsNextMonth(d: Date)
    requires Valid(d)
    ensures MonthStep(d) == NextMonthStart(d)
    ensures Ord(d) < Ord(MonthStep(d))
  {
    var d28 := ReplaceDay(d, 28);
    var a1 := NextDay(d28);
    var a2 := NextDay(a1);
    var a3 := NextDay(a2);
    var a4 := NextDay(a3);
    assert AddDays(d28, 4) == a4 by {
      assert AddDays(d28, 4) == AddDays(a1, 3);
      assert AddDays(a1, 3) == AddDays(a2, 2);
      assert AddDays(a2, 2) == AddDays(a3, 1);
      assert AddDays(a3, 1) == AddDays(a4, 0);
    }
    assert a4.year == NextMonthStart(d).year && a4.month == NextMonthStart(d).month;
    LeIffOrd(MonthStep(d), d);
  }

  /** The monthly loop: one label per calendar month from `start`'s through `end`'s. */
  function MonthlyFrom(cur: Date, end: Date): (r: seq<Label>)
    requires Valid(cur) && Valid(end)
    ensures |r| == if Le(cur, end) then MonthIndex(end.year, end.month) - MonthIndex(cur.year, cur.month) + 1 else 0
    ensures forall i :: 0 <= i < |r| ==>
              r[i].Month? && 1 <= r[i].month <= 12
              && MonthIndex(r[i].year, r[i].month) == MonthIndex(cur.year, cur.month) + i
    decreases Ord(end) + 1 - Ord(cur)
  {
    LeIffOrd(cur, end);
    if Le(cur, end) then
      MonthStepFacts(cur, end);
      var rest := MonthlyFrom(MonthStep(cur), end);
      var r := [Month(cur.year, cur.month)] + rest;
      MonthsCons(cur.year, cur.month, rest, r);
      r
    else
      []
  }

  /** One month step from a date not after `end` moves one month on; if it passes `end`, `end` was in the same month. */
  lemma MonthStepFacts(cur: Date, end: Date)
    requires Valid(cur) && Valid(end) && Le(cur, end)
    ensures Ord(cur) < Ord(MonthStep(cur))
    ensures MonthIndex(MonthStep(cur).year, MonthStep(cur).month) == MonthIndex(cur.year, cur.month) + 1
    ensures !Le(MonthStep(cur), end) ==> MonthIndex(end.year, end.month) == MonthIndex(cur.year, cur.month)
  {
    MonthStepIsNextMonth(cur);
  }

  /** A month label in front of the labels of the following months, in order. */
  lemma MonthsCons(y: int, m: int, rest: seq<Label>, r: seq<Label>)
    requires 1 <= m <= 12
    requires forall i :: 0 <= i < |rest| ==>
               rest[i].Month? && 1 <= rest[i].month <= 12
               && MonthIndex(rest[i].year, rest[i].month) == MonthIndex(y, m) + 1 + i
    requires r == [Month(y, m)] + rest
    ensures forall i :: 0 <= i < |r| ==>
              r[i].Month? && 1 <= r[i].month <= 12 && MonthIndex(r[i].year, r[i].month) == MonthIndex(y, m) + i
  {
    forall i | 0 <= i < |r|
      ensures r[i].Month? && 1 <= r[i].month <= 12 && MonthIndex(r[i].year, r[i].month) == MonthIndex(y, m) + i
    {
      if i > 0 {
        assert r[i] == rest[i - 1];
      }
    }
  }

  // ----- Properties of the generated labels -----

  /** Week labels ordered as the strings `%Y-%W` are (a week number never exceeds 53). */
  function WeekKey(l: Label): int
  {
    if l.Week? then l.year * 54 + l.week else 0
  }

  lemma WeekNumberBound(d: Date)
    requires Valid(d)
    ensures WeekNumber(d) <= 53
  {
    OrdInYear(d);
  }

  /** `%W` counts Monday-weeks from the start of the year. */
  lemma WeekNumberIsMondayCount(d: Date)
    requires Valid(d)
    ensures WeekNumber(d) == (Ord(d) - Ord(d) % 7 - YearStart(d.year) + 7) / 7
  {
  }

  lemma MondayDivStep(oa: int, ob: int, ys: int, strict: bool)
    requires 0 <= ys <= oa <= ob
    requires strict ==> oa + 7 <= ob
    ensures strict ==> (oa - oa % 7 - ys + 7) / 7 < (ob - ob % 7 - ys + 7) / 7
    ensures (oa - oa % 7 - ys + 7) / 7 <= (ob - ob % 7 - ys + 7) / 7
  {
    var ma := oa - oa % 7;
    var mb := ob - ob % 7;
    assert ma == (oa / 7) * 7 && mb == (ob / 7) * 7;
    assert oa / 7 <= ob / 7;
    assert strict ==> oa / 7 < ob / 7;
  }

  lemma WeekKeyYears(ya: int, wa: int, yb: int, wb: int)
    requires ya < yb && 0 <= wa <= 53 && 0 <= wb
    ensures ya * 54 + wa < yb * 54 + wb
  {
    assert (ya + 1) * 54 <= yb * 54;
  }

  /** A later date never has an earlier week label; a date a week or more later has a later one. */
  lemma WeekKeyOrder(a: Date, b: Date)
    requires Valid(a) && Valid(b) && Ord(a) <= Ord(b)
    ensures WeekKey(Strf(Weekly, a)) <= WeekKey(Strf(Weekly, b))
    ensures Ord(a) + 7 <= Ord(b) ==> WeekKey(Strf(Weekly, a)) < WeekKey(Strf(Weekly, b))
  {
    YearMono(a, b);
    WeekNumberBound(a);
    WeekNumberBound(b);
    if a.year == b.year {
      OrdInYear(a);
      WeekNumberIsMondayCount(a);
      WeekNumberIsMondayCount(b);
      MondayDivStep(Ord(a), Ord(b), YearStart(a.year), Ord(a) + 7 <= Ord(b));
    } else {
      WeekKeyYears(a.year, WeekNumber(a), b.year, WeekNumber(b));
    }
  }

  /** Daily labels are distinct: every day appears once, in increasing order. */
  lemma DailyDistinct(start: Date, end: Date)
    requires Valid(start) && Valid(end)
    ensures Distinct(DailyFrom(start, end))
  {
    var r := DailyFrom(start, end);
    forall i, j | 0 <= i < j < |r|
      ensures r[i] != r[j]
    {
      assert Ord(r[i].date) < Ord(r[j].date);
    }
  }

  /** Weekly labels are strictly increasing, hence distinct. */
  lemma WeeklyIncreasing(start: Date, end: Date)
    requires Valid(start) && Valid(end)
    ensures forall i, j :: 0 <= i < j < |WeeklyFrom(start, end)| ==>
              WeekKey(WeeklyFrom(start, end)[i]) < WeekKey(WeeklyFrom(start, end)[j])
    ensures Distinct(WeeklyFrom(start, end))
  {
    var r := WeeklyFrom(start, end);
    forall i, j | 0 <= i < j < |r|
      ensures WeekKey(r[i]) < WeekKey(r[j])
    {
      WeekKeyOrder(AddDays(start, 7 * i), AddDays(start, 7 * j));
    }
  }

  /** Monthly labels are distinct. */
  lemma MonthlyDistinct(start: Date, end: Date)
    requires Valid(start) && Valid(end)
    ensures Distinct(MonthlyFrom(start, end))
  {
    var r := MonthlyFrom(start, end);
    forall i, j | 0 <= i < j < |r|
      ensures r[i] != r[j]
    {
      assert MonthIndex(r[i].year, r[i].month) < MonthIndex(r[j].year, r[j].month);
    }
  }

  /** Whatever the period, the generated labels never repeat. */
  lemma DateRangeDistinct(start: Date, end: Date, period: string)
    requires Valid(start) && Valid(end)
    ensures Distinct(DateRange(start, end, period))
  {
    match ParsePeriod(period)
    case Some(Daily) => DailyDistinct(start, end);
    case Some(Weekly) => WeeklyIncreasing(start, end);
    case Some(Monthly) => MonthlyDistinct(start, end);
    case None =>
  }

  /** Every day of the range has its daily column. */
  lemma DailyCovers(start: Date, end: Date, d: Date)
    requires Valid(start) && Valid(end) && Valid(d)
    requires Le(start, d) && Le(d, end)
    ensures Strf(Daily, d) in DailyFrom(start, end)
    ensures Bucket(Daily, d) in DailyFrom(start, end)
  {
    LeIffOrd(start, d);
    LeIffOrd(d, end);
    var r := DailyFrom(start, end);
    var i := Ord(d) - Ord(start);
    OrdInjective(r[i].date, d);
  }

  /** Every day of the range has its monthly column, whatever day `start` falls on. */
  lemma MonthlyCovers(start: Date, end: Date, d: Date)
    requires Valid(start) && Valid(end) && Valid(d)
    requires Le(start, d) && Le(d, end)
    ensures Strf(Monthly, d) in MonthlyFrom(start, end)
    ensures Bucket(Monthly, d) in MonthlyFrom(start, end)
  {
    var r := MonthlyFrom(start, end);
    LeMonthIndex(start, d);
    LeMonthIndex(d, end);
    var i := MonthIndex(d.year, d.month) - MonthIndex(start.year, start.month);
    assert 0 <= i < |r|;
    MonthIndexInjective(r[i].year, r[i].month, d.year, d.month);
    assert r[i] == Strf(Monthly, d);
  }

  /** Date order implies month order. */
  lemma LeMonthIndex(a: Date, b: Date)
    requires Valid(a) && Valid(b) && Le(a, b)
    ensures MonthIndex(a.year, a.month) <= MonthIndex(b.year, b.month)
  {
    if a.year < b.year {
      assert (a.year + 1) * 12 <= b.year * 12;
    }
  }

  lemma MonthIndexInjective(y1: int, m1: int, y2: int, m2: int)
    requires 1 <= m1 <= 12 && 1 <= m2 <= 12
    requires MonthIndex(y1, m1) == MonthIndex(y2, m2)
    ensures y1 == y2 && m1 == m2
  {
  }

  // ----- Weekly columns versus weekly buckets -----

  /** Two dates in different Monday-weeks get different `%Y-%W` labels. */
  lemma WeekLabelSeparates(a: Date, b: Date)
    requires Valid(a) && Valid(b)
    requires Ord(a) - Weekday(a) != Ord(b) - Weekday(b)
    ensures Strf(Weekly, a) != Strf(Weekly, b)
  {
    if a.year == b.year {
      WeekNumberIsMondayCount(a);
      WeekNumberIsMondayCount(b);
      var ys := YearStart(a.year);
      OrdInYear(a);
      OrdInYear(b);
      if Ord(a) <= Ord(b) {
        MondayDivStep(Ord(a), Ord(b), ys, Ord(a) + 7 <= Ord(b));
        if Ord(b) < Ord(a) + 7 {
          assert Ord(a) / 7 < Ord(b) / 7;
        }
      } else {
        MondayDivStep(Ord(b), Ord(a), ys, Ord(b) + 7 <= Ord(a));
        if Ord(a) < Ord(b) + 7 {
          assert Ord(b) / 7 < Ord(a) / 7;
        }
      }
    }
  }

  /**
    As written, the weekly loop stops once `start + 7k` passes `end`: when `end`
    falls on an earlier weekday than `start` and less than a week after it, the
    week holding `end` gets no column, so records of that day are not shown.
  */
  lemma WeeklyRangeMissesEndWeek(start: Date, end: Date)
    requires Valid(start) && Valid(end)
    requires Ord(start) <= Ord(end) < Ord(start) + 7
    requires Weekday(end) < Weekday(start)
    ensures WeeklyFrom(start, end) == [Strf(Weekly, start)]
    ensures Bucket(Weekly, end) !in WeeklyFrom(start, end)
  {
    var m := MondayOf(end);
    assert Ord(m) == Ord(end) - Weekday(end);
    assert Weekday(m) == 0;
    WeekLabelSeparates(m, start);
  }

  /** The smallest instance: Sunday 0001-01-07 to Monday 0001-01-08. */
  lemma WeeklyRangeMissesEndWeekExample()
    ensures |WeeklyFrom(Date(1, 1, 7), Date(1, 1, 8))| == 1
    ensures Bucket(Weekly, Date(1, 1, 8)) !in WeeklyFrom(Date(1, 1, 7), Date(1, 1, 8))
  {
    var s := Date(1, 1, 7);
    var e := Date(1, 1, 8);
    assert Ord(s) == 6 && Ord(e) == 7;
    WeeklyRangeMissesEndWeek(s, e);
  }

  /**
    As written, the first column is labelled by `start` itself; a record dated
    `start` is bucketed under its Monday, which for the days before a year's
    first Monday lies in the previous year, whose label no column carries.
  */
  lemma WeeklyRangeMissesYearStartWeek(start: Date, end: Date)
    requires Valid(start) && Valid(end)
    requires YearDay(start) < Weekday(start)
    ensures Bucket(Weekly, start) !in WeeklyFrom(start, end)
  {
    var m := MondayOf(start);
    assert m.year < start.year by {
      LeIffOrd(Date(start.year, 1, 1), m);
      OrdInYear(m);
      if m.year >= start.year {
        YearMono(Date(start.year, 1, 1), m);
      }
    }
    var r := WeeklyFrom(start, end);
    forall i | 0 <= i < |r|
      ensures r[i] != Bucket(Weekly, start)
    {
      YearMono(start, AddDays(start, 7 * i));
    }
  }

  /**
    The evidently intended weekly columns: the bucket label of every day from
    `cur` to `end`, each once, in order.
  */
  function WeeklyColumnsFrom(cur: Date, end: Date): (r: seq<Label>)
    requires Valid(cur) && Valid(end)
    ensures forall i :: 0 <= i < |r| ==> r[i].Week? && 0 <= r[i].week <= 53
    ensures forall i :: 0 <= i < |r| ==> WeekKey(Bucket(Weekly, cur)) <= WeekKey(r[i])
    ensures forall i, j :: 0 <= i < j < |r| ==> WeekKey(r[i]) < WeekKey(r[j])
    decreases Ord(end) + 1 - Ord(cur)
  {
    LeIffOrd(cur, end);
    if !Le(cur, end) then
      []
    else
      var next := NextDay(cur);
      var rest := WeeklyColumnsFrom(next, end);
      var here := Bucket(Weekly, cur);
      BucketStep(cur, next);
      var r := if |rest| > 0 && rest[0] == here then rest else [here] + rest;
      ColumnsStep(here, WeekKey(Bucket(Weekly, next)), rest, r);
      r
  }

  /**
    Putting a week label in front of increasing week labels that lie at or
    above `lo`, unless it is already their first, gives increasing labels at
    or above it.
  */
  lemma ColumnsStep(here: Label, lo: int, rest: seq<Label>, r: seq<Label>)
    requires here.Week? && 0 <= here.week <= 53 && WeekKey(here) <= lo
    requires forall i :: 0 <= i < |rest| ==> rest[i].Week? && 0 <= rest[i].week <= 53
    requires forall i :: 0 <= i < |rest| ==> lo <= WeekKey(rest[i])
    requires forall i, j :: 0 <= i < j < |rest| ==> WeekKey(rest[i]) < WeekKey(rest[j])
    requires r == if |rest| > 0 && rest[0] == here then rest else [here] + rest
    ensures forall i :: 0 <= i < |r| ==> r[i].Week? && 0 <= r[i].week <= 53
    ensures forall i :: 0 <= i < |r| ==> WeekKey(here) <= WeekKey(r[i])
    ensures forall i, j :: 0 <= i < j < |r| ==> WeekKey(r[i]) < WeekKey(r[j])
  {
    if !(|rest| > 0 && rest[0] == here) {
      PrependBelow(here, rest);
      forall i | 0 <= i < |r|
        ensures r[i].Week? && 0 <= r[i].week <= 53 && WeekKey(here) <= WeekKey(r[i])
      {
        if i > 0 {
          assert r[i] == rest[i - 1];
        }
      }
    }
  }

  /** The next day's week bucket is never earlier than the day's. */
  lemma BucketStep(cur: Date, next: Date)
    requires Valid(cur) && Valid(next) && Ord(next) == Ord(cur) + 1
    ensures Bucket(Weekly, cur).Week? && 0 <= Bucket(Weekly, cur).week <= 53
    ensures WeekKey(Bucket(Weekly, cur)) <= WeekKey(Bucket(Weekly, next))
  {
    WeekNumberBound(MondayOf(cur));
    MondayMono(cur, next);
    WeekKeyOrder(MondayOf(cur), MondayOf(next));
  }

  /** A week label at or below increasing week labels, and not their first, lies strictly below all of them. */
  lemma PrependBelow(here: Label, rest: seq<Label>)
    requires here.Week? && 0 <= here.week <= 53
    requires forall i :: 0 <= i < |rest| ==> rest[i].Week? && 0 <= rest[i].week <= 53
    requires forall i :: 0 <= i < |rest| ==> WeekKey(here) <= WeekKey(rest[i])
    requires forall i, j :: 0 <= i < j < |rest| ==> WeekKey(rest[i]) < WeekKey(rest[j])
    requires |rest| > 0 ==> rest[0] != here
    ensures forall i, j :: 0 <= i < j < |[here] + rest| ==> WeekKey(([here] + rest)[i]) < WeekKey(([here] + rest)[j])
  {
    if |rest| > 0 && WeekKey(here) == WeekKey(rest[0]) {
      WeekKeyInjective(here, rest[0]);
    }
    var r := [here] + rest;
    forall i, j | 0 <= i < j < |r|
      ensures WeekKey(r[i]) < WeekKey(r[j])
    {
      if i == 0 {
        assert r[j] == rest[j - 1];
        if j > 1 {
          assert WeekKey(rest[0]) < WeekKey(rest[j - 1]);
        }
      } else {
        assert r[i] == rest[i - 1] && r[j] == rest[j - 1];
      }
    }
  }

  /** Every day from `cur` to `end` has its weekly bucket among the corrected columns. */
  lemma {:induction false} WeeklyColumnsCover(cur: Date, end: Date, d: Date)
    requires Valid(cur) && Valid(end) && Valid(d)
    requires Le(cur, d) && Le(d, end)
    ensures Bucket(Weekly, d) in WeeklyColumnsFrom(cur, end)
    decreases Ord(end) + 1 - Ord(cur)
  {
    LeIffOrd(cur, end);
    LeIffOrd(cur, d);
    LeIffOrd(d, end);
    var next := NextDay(cur);
    var rest := WeeklyColumnsFrom(next, end);
    if d != cur {
      LaterDaysFollowNext(cur);
      WeeklyColumnsCover(next, end, d);
    } else if Le(next, end) {
      WeeklyColumnsCover(next, end, next);
      assert |rest| > 0;
    }
  }

  /** Every corrected column is the weekly bucket of some day from `cur` to `end`. */
  lemma {:induction false} WeeklyColumnsFromDays(cur: Date, end: Date, l: Label)
    requires Valid(cur) && Valid(end) && l in WeeklyColumnsFrom(cur, end)
    ensures exists d :: Valid(d) && Le(cur, d) && Le(d, end) && Bucket(Weekly, d) == l
    decreases Ord(end) + 1 - Ord(cur)
  {
    LeIffOrd(cur, end);
    LeIffOrd(cur, cur);
    var next := NextDay(cur);
    if l != Bucket(Weekly, cur) {
      assert l in WeeklyColumnsFrom(next, end);
      WeeklyColumnsFromDays(next, end, l);
      var d :| Valid(d) && Le(next, d) && Le(d, end) && Bucket(Weekly, d) == l;
      LeIffOrd(next, d);
      LeIffOrd(cur, d);
    }
  }

  /**
    The corrected columns in both directions: a label is a column exactly when
    some day from `cur` to `end` falls in that week.
  */
  lemma WeeklyColumnsExactly(cur: Date, end: Date, l: Label)
    requires Valid(cur) && Valid(end)
    ensures l in WeeklyColumnsFrom(cur, end) <==>
              exists d :: Valid(d) && Le(cur, d) && Le(d, end) && Bucket(Weekly, d) == l
  {
    if l in WeeklyColumnsFrom(cur, end) {
      WeeklyColumnsFromDays(cur, end, l);
    }
    if exists d :: Valid(d) && Le(cur, d) && Le(d, end) && Bucket(Weekly, d) == l {
      var d :| Valid(d) && Le(cur, d) && Le(d, end) && Bucket(Weekly, d) == l;
      WeeklyColumnsCover(cur, end, d);
    }
  }

  /** Truncation to the Monday keeps date order. */
  lemma MondayMono(a: Date, b: Date)
    requires Valid(a) && Valid(b) && Ord(a) <= Ord(b)
    ensures Ord(MondayOf(a)) <= Ord(MondayOf(b))
  {
    var oa := Ord(a);
    var ob := Ord(b);
    assert Ord(MondayOf(a)) == oa - oa % 7;
    assert Ord(MondayOf(b)) == ob - ob % 7;
    assert oa - oa % 7 == (oa / 7) * 7;
    assert ob - ob % 7 == (ob / 7) * 7;
    assert oa / 7 <= ob / 7;
  }

  /** A date after `cur` is on or after the next day. */
  lemma LaterDaysFollowNext(cur: Date)
    requires Valid(cur)
    ensures forall d :: Valid(d) && Le(cur, d) && d != cur ==> Le(NextDay(cur), d)
  {
    forall d | Valid(d) && Le(cur, d) && d != cur
      ensures Le(NextDay(cur), d)
    {
      LeIffOrd(cur, d);
      LeIffOrd(NextDay(cur), d);
      if Ord(d) == Ord(cur) {
        OrdInjective(d, cur);
      }
    }
  }

  lemma WeekKeyInjective(a: Label, b: Label)
    requires a.Week? && b.Week? && 0 <= a.week <= 53 && 0 <= b.week <= 53
    requires WeekKey(a) == WeekKey(b)
    ensures a == b
  {
  }

  /** The corrected weekly columns never repeat a label. */
  lemma WeeklyColumnsDistinct(start: Date, end: Date)
    requires Valid(start) && Valid(end)
    ensures Distinct(WeeklyColumnsFrom(start, end))
  {
  }
}

/**
 * The month grid of `getCalendarDays` (frontend/src/utils/date.ts; identical copies live in
 * Calendar.tsx and Availability.tsx): the days of one month, padded in front with the end of
 * the previous month up to the first day's weekday, and behind with the start of the next
 * month up to a whole number of weeks.
 */
module CalendarGrid {
  import opened Dates
  import opened Strs
  import opened Seqs

  /** `CalendarDay`: a date, its `YYYY-MM-DD` key and whether it belongs to the shown month. */
  datatype CalendarDay = CalendarDay(date: Date, dateStr: string, isCurrentMonth: bool)

  function Cell(d: Date, current: bool): CalendarDay
    requires Valid(d)
  {
    CalendarDay(d, FormatDateStr(d), current)
  }

  /** Smallest multiple of 7 that is at least `n`. */
  function RoundUpToWeek(n: nat): nat
  {
    n + (7 - n % 7) % 7
  }

  /** Rounding up reaches a multiple of 7 less than a week away, and no multiple of 7 in between. */
  lemma RoundUpToWeekFacts(a: nat)
    ensures RoundUpToWeek(a) % 7 == 0
    ensures a <= RoundUpToWeek(a) < a + 7
    ensures forall x: nat :: a <= x && x % 7 == 0 ==> RoundUpToWeek(a) <= x
  {
    var q, r := a / 7, a % 7;
    assert a == 7 * q + r;
    if r == 0 {
      assert RoundUpToWeek(a) == a;
    } else {
      assert (7 - r) % 7 == 7 - r;
      assert RoundUpToWeek(a) == 7 * (q + 1);
    }
    forall x: nat | a <= x && x % 7 == 0
      ensures RoundUpToWeek(a) <= x
    {
      var p := x / 7;
      assert x == 7 * p;
      if r != 0 {
        assert p > q;
      }
    }
  }

  /** Number of leading cells: the weekday of the first of month (y, m). */
  function Lead(y: int, m: int): (w: int)
    requires 0 <= m < 12
    ensures 0 <= w < 7
  {
    Weekday(Date(y, m, 1))
  }

  /** Cells of a grid for month (y, m) that starts `lead` cells before the first. */
  function LayoutSize(y: int, m: int, lead: nat): nat
    requires 0 <= m < 12
  {
    RoundUpToWeek(lead + DaysInMonth(y, m))
  }

  /** Cell `k` of that grid: previous month, shown month, then next month. */
  function LayoutCell(y: int, m: int, lead: nat, k: int): CalendarDay
    requires 0 <= m < 12 && lead < 7
    requires 0 <= k < LayoutSize(y, m, lead)
  {
    var dim := DaysInMonth(y, m);
    if k < lead then
      var (py, pm) := PrevMonth(y, m);
      Cell(Date(py, pm, DaysInMonth(py, pm) - lead + 1 + k), false)
    else if k < lead + dim then Cell(Date(y, m, k - lead + 1), true)
    else
      var (ny, nm) := NextMonth(y, m);
      Cell(Date(ny, nm, k - lead - dim + 1), false)
  }

  function Layout(y: int, m: int, lead: nat): (g: seq<CalendarDay>)
    requires 0 <= m < 12 && lead < 7
    ensures |g| == LayoutSize(y, m, lead)
  {
    seq(LayoutSize(y, m, lead), k requires 0 <= k < LayoutSize(y, m, lead) => LayoutCell(y, m, lead, k))
  }

  /** The grid for month (y, m) of a normalised year and month. */
  function MonthGrid(y: int, m: int): seq<CalendarDay>
    requires 0 <= m < 12
  {
    Layout(y, m, Lead(y, m))
  }

  /** Reference definition of the grid `getCalendarDays(year, month)` builds. */
  function Grid(year: int, month: int): seq<CalendarDay>
  {
    var (y, m) := TargetMonth(year, month);
    MonthGrid(y, m)
  }

  /**
   * `getCalendarDays(year, month)`: three push loops, the last one running until the
   * length is a multiple of 7.
   */
  method GetCalendarDays(year: int, month: int) returns (days: seq<CalendarDay>)
    ensures days == Grid(year, month)
    ensures |days| % 7 == 0
  {
    var (y, m) := TargetMonth(year, month);
    var startDow := Weekday(Date(y, m, 1));
    RoundUpToWeekFacts(startDow + DaysInMonth(y, m));
    days := PushPrevious(y, m, startDow);
    days := PushCurrent(y, m, startDow, days);
    days := PushNext(y, m, startDow, days);
  }

  /** The cells of `days` are the first cells of the grid that starts `lead` cells early. */
  ghost predicate GridPrefix(y: int, m: int, lead: nat, days: seq<CalendarDay>)
    requires 0 <= m < 12 && lead < 7
  {
    |days| <= LayoutSize(y, m, lead) && forall k :: 0 <= k < |days| ==> days[k] == LayoutCell(y, m, lead, k)
  }

  /** The first loop: the last `startDow` days of the previous month, oldest first. */
  method PushPrevious(y: int, m: int, startDow: nat) returns (days: seq<CalendarDay>)
    requires 0 <= m < 12 && startDow < 7
    ensures |days| == startDow && GridPrefix(y, m, startDow, days)
  {
    var (py, pm) := PrevMonth(y, m);
    var prevDim := DaysInMonth(py, pm);
    RoundUpToWeekFacts(startDow + DaysInMonth(y, m));
    days := [];
    var i := startDow - 1;
    while i >= 0
      invariant -1 <= i < startDow
      invariant |days| == startDow - 1 - i
      invariant forall k :: 0 <= k < |days| ==> days[k] == LayoutCell(y, m, startDow, k)
    {
      days := days + [Cell(Date(py, pm, prevDim - i), false)];
      i := i - 1;
    }
  }

  /** The second loop: every day of the shown month. */
  method PushCurrent(y: int, m: int, startDow: nat, days0: seq<CalendarDay>) returns (days: seq<CalendarDay>)
    requires 0 <= m < 12 && startDow < 7
    requires |days0| == startDow && GridPrefix(y, m, startDow, days0)
    ensures |days| == startDow + DaysInMonth(y, m) && GridPrefix(y, m, startDow, days)
  {
    var lastDay := DaysInMonth(y, m);
    RoundUpToWeekFacts(startDow + lastDay);
    days := days0;
    var i := 1;
    while i <= lastDay
      invariant 1 <= i <= lastDay + 1
      invariant |days| == startDow + i - 1
      invariant forall k :: 0 <= k < |days| ==> days[k] == LayoutCell(y, m, startDow, k)
    {
      days := days + [Cell(Date(y, m, i), true)];
      i := i + 1;
    }
  }

  /** The third loop: days of the next month until the length is a multiple of 7. */
  method PushNext(y: int, m: int, startDow: nat, days0: seq<CalendarDay>) returns (days: seq<CalendarDay>)
    requires 0 <= m < 12 && startDow < 7
    requires |days0| == startDow + DaysInMonth(y, m) && GridPrefix(y, m, startDow, days0)
    ensures days == Layout(y, m, startDow)
  {
    var lastDay := DaysInMonth(y, m);
    var (ny, nm) := NextMonth(y, m);
    ghost var n := LayoutSize(y, m, startDow);
    RoundUpToWeekFacts(startDow + lastDay);
    days := days0;
    while |days| % 7 != 0
      invariant startDow + lastDay <= |days| <= n
      invariant forall k :: 0 <= k < |days| ==> days[k] == LayoutCell(y, m, startDow, k)
      decreases n - |days|
    {
      days := days + [Cell(Date(ny, nm, |days| - lastDay - startDow + 1), false)];
    }
    assert |days| == n;
  }

  /** The grid has whole weeks: four to six of them. */
  lemma GridLength(y: int, m: int)
    requires 0 <= m < 12
    ensures |MonthGrid(y, m)| % 7 == 0
    ensures 28 <= |MonthGrid(y, m)| <= 42
  {
    RoundUpToWeekFacts(Lead(y, m) + DaysInMonth(y, m));
  }

  /** Leading cells are fewer than a week, all from the previous month and not current. */
  lemma GridLeading(y: int, m: int)
    requires 0 <= m < 12
    ensures Lead(y, m) < 7 && Lead(y, m) <= |MonthGrid(y, m)|
    ensures forall k :: 0 <= k < Lead(y, m) ==>
              !MonthGrid(y, m)[k].isCurrentMonth &&
              (MonthGrid(y, m)[k].date.year, MonthGrid(y, m)[k].date.month) == PrevMonth(y, m)
  {
    RoundUpToWeekFacts(Lead(y, m) + DaysInMonth(y, m));
  }

  /** Trailing cells are fewer than a week: days 1, 2, ... of the next month, not current. */
  lemma GridTrailing(y: int, m: int)
    requires 0 <= m < 12
    ensures var body := Lead(y, m) + DaysInMonth(y, m);
            body <= |MonthGrid(y, m)| < body + 7 &&
            forall k :: body <= k < |MonthGrid(y, m)| ==>
              !MonthGrid(y, m)[k].isCurrentMonth &&
              MonthGrid(y, m)[k].date == Date(NextMonth(y, m).0, NextMonth(y, m).1, k - body + 1)
  {
    RoundUpToWeekFacts(Lead(y, m) + DaysInMonth(y, m));
  }

  function IsCurrent(c: CalendarDay): bool
  {
    c.isCurrentMonth
  }

  /**
   * Exactly the days 1..N of the shown month are marked current: N cells in all, at
   * positions lead .. lead+N-1, holding days 1..N in order.
   */
  lemma GridCurrentMonth(y: int, m: int)
    requires 0 <= m < 12
    ensures |Filter(MonthGrid(y, m), IsCurrent)| == DaysInMonth(y, m)
    ensures forall k :: 0 <= k < |MonthGrid(y, m)| ==>
              (MonthGrid(y, m)[k].isCurrentMonth <==> Lead(y, m) <= k < Lead(y, m) + DaysInMonth(y, m))
    ensures forall k :: Lead(y, m) <= k < Lead(y, m) + DaysInMonth(y, m) ==>
              k < |MonthGrid(y, m)| && MonthGrid(y, m)[k].date == Date(y, m, k - Lead(y, m) + 1)
  {
    var lead := Lead(y, m);
    var g := Layout(y, m, lead);
    RoundUpToWeekFacts(lead + DaysInMonth(y, m));
    FilterCountRange(g, IsCurrent, lead, lead + DaysInMonth(y, m));
  }

  /** One step along the grid is one day forward. */
  lemma CellStep(y: int, m: int, lead: nat, k: int)
    requires 0 <= m < 12 && lead < 7
    requires 0 <= k < LayoutSize(y, m, lead) - 1
    ensures LayoutCell(y, m, lead, k + 1).date == NextDay(LayoutCell(y, m, lead, k).date)
  {
    MonthStepsInverse(y, m);
  }

  /** The dates of the grid, in order. */
  function LayoutDates(y: int, m: int, lead: nat): (ds: seq<Date>)
    requires 0 <= m < 12 && lead < 7
    ensures |ds| == LayoutSize(y, m, lead)
    ensures forall k :: 0 <= k < |ds| ==> Valid(ds[k]) && ds[k] == LayoutCell(y, m, lead, k).date
  {
    seq(LayoutSize(y, m, lead), k requires 0 <= k < LayoutSize(y, m, lead) => LayoutCell(y, m, lead, k).date)
  }

  /** Each cell's date is the day after its predecessor's. */
  lemma LayoutConsecutive(y: int, m: int, lead: nat)
    requires 0 <= m < 12 && lead < 7
    ensures Consecutive(LayoutDates(y, m, lead))
  {
    forall k | 0 <= k < LayoutSize(y, m, lead) - 1
      ensures LayoutDates(y, m, lead)[k + 1] == NextDay(LayoutDates(y, m, lead)[k])
    {
      CellStep(y, m, lead, k);
    }
  }

  /** Each cell of the month grid holds the day after the previous cell's. */
  lemma GridConsecutive(y: int, m: int)
    requires 0 <= m < 12
    ensures Consecutive(LayoutDates(y, m, Lead(y, m)))
  {
    LayoutConsecutive(y, m, Lead(y, m));
  }

  lemma ModShift(c: int, lead: int, k: int)
    requires 0 <= lead < 7
    requires (c + lead) % 7 == lead
    ensures (c + k) % 7 == k % 7
  {
    assert c % 7 == 0 by {
      assert c + lead == 7 * ((c + lead) / 7) + lead;
    }
    assert c == 7 * (c / 7);
  }

  /** Column `k % 7` of the grid is weekday `k % 7` (Sunday first). */
  lemma GridWeekdays(y: int, m: int)
    requires 0 <= m < 12
    ensures forall k :: 0 <= k < |MonthGrid(y, m)| ==>
              0 <= MonthGrid(y, m)[k].date.month < 12 && Weekday(MonthGrid(y, m)[k].date) == k % 7
  {
    forall k | 0 <= k < |MonthGrid(y, m)|
      ensures 0 <= MonthGrid(y, m)[k].date.month < 12 && Weekday(MonthGrid(y, m)[k].date) == k % 7
    {
      CellWeekday(y, m, k);
      assert MonthGrid(y, m)[k] == LayoutCell(y, m, Lead(y, m), k);
    }
  }

  /** The weekday of one cell is its column. */
  lemma CellWeekday(y: int, m: int, k: int)
    requires 0 <= m < 12 && 0 <= k < LayoutSize(y, m, Lead(y, m))
    ensures 0 <= LayoutCell(y, m, Lead(y, m), k).date.month < 12
    ensures Weekday(LayoutCell(y, m, Lead(y, m), k).date) == k % 7
  {
    var lead := Lead(y, m);
    var ds := LayoutDates(y, m, lead);
    RoundUpToWeekFacts(lead + DaysInMonth(y, m));
    LayoutConsecutive(y, m, lead);
    assert ds[lead] == Date(y, m, 1);
    ConsecutiveWeekdays(ds, lead, k);
  }

  /** Along consecutive days whose position `lead` falls on weekday `lead`, every position is its weekday. */
  lemma ConsecutiveWeekdays(ds: seq<Date>, lead: int, k: int)
    requires Consecutive(ds) && 0 <= lead < 7 && lead < |ds| && 0 <= k < |ds|
    requires Weekday(ds[lead]) == lead
    ensures Weekday(ds[k]) == k % 7
  {
    ConsecutiveNumbers(ds, lead);
    ConsecutiveNumbers(ds, k);
    ModShift(DayNumber(ds[0]) + 6, lead, k);
  }

  /** No two cells share a `dateStr`, so it can key the cells. */
  lemma LayoutDateStrsDistinct(y: int, m: int, lead: nat)
    requires 0 <= m < 12 && lead < 7
    ensures forall i, j :: 0 <= i < j < LayoutSize(y, m, lead) ==>
              LayoutCell(y, m, lead, i).dateStr != LayoutCell(y, m, lead, j).dateStr
  {
    var ds := LayoutDates(y, m, lead);
    LayoutConsecutive(y, m, lead);
    forall i, j | 0 <= i < j < |ds|
      ensures LayoutCell(y, m, lead, i).dateStr != LayoutCell(y, m, lead, j).dateStr
    {
      ConsecutiveDistinct(ds, i, j);
      DateStrsDiffer(ds[i], ds[j]);
    }
  }

  /** Different valid dates have different `dateStr` keys. */
  lemma DateStrsDiffer(a: Date, b: Date)
    requires Valid(a) && Valid(b) && a != b
    ensures FormatDateStr(a) != FormatDateStr(b)
  {
    if FormatDateStr(a) == FormatDateStr(b) {
      FormatDateStrInjective(a, b);
    }
  }

  /** No two cells of a month grid share a `dateStr`, so it can key the cells. */
  lemma GridDateStrsDistinct(y: int, m: int)
    requires 0 <= m < 12
    ensures forall i, j :: 0 <= i < j < |MonthGrid(y, m)| ==> MonthGrid(y, m)[i].dateStr != MonthGrid(y, m)[j].dateStr
  {
    LayoutDateStrsDistinct(y, m, Lead(y, m));
  }

  /** February 2026 starts on a Sunday and has 28 days: exactly four rows, no padding. */
  lemma February2026()
    ensures |Grid(2026, 1)| == 28
    ensures forall k :: 0 <= k < 28 ==> Grid(2026, 1)[k].isCurrentMonth
  {
    KnownWeekdays();
    assert TargetMonth(2026, 1) == (2026, 1);
    assert Lead(2026, 1) == 0;
    assert Grid(2026, 1) == Layout(2026, 1, 0);
    FourWholeRows(2026, 1);
  }

  /** A 28-day month laid out from a Sunday fills exactly four rows, all of its own days. */
  lemma FourWholeRows(y: int, m: int)
    requires 0 <= m < 12 && DaysInMonth(y, m) == 28
    ensures |Layout(y, m, 0)| == 28
    ensures forall k :: 0 <= k < 28 ==> Layout(y, m, 0)[k].isCurrentMonth
  {
    assert LayoutSize(y, m, 0) == 28;
    forall k | 0 <= k < 28
      ensures Layout(y, m, 0)[k].isCurrentMonth
    {
      assert Layout(y, m, 0)[k] == LayoutCell(y, m, 0, k);
    }
  }
}

/**
 * The calendar page (frontend/src/pages/Calendar.tsx): events of one day, the week shown in
 * week view, the rows of the grid, the per-cell event cap and the month navigation.
 */
module CalendarPage {
  import opened Wrappers
  import opened Seqs
  import opened Dates
  import opened CalendarGrid
  import opened FrontTypes

  datatype Colors = Colors(bg: string, text: string, dot: string)

  const Gray := Colors("bg-gray-50", "text-gray-700", "bg-gray-500")

  /** `courseColors`: a fixed color set for three known course ids. */
  function CourseColors(courseId: string): Option<Colors>
  {
    if courseId == "course-1" then Some(Colors("bg-blue-50", "text-blue-700", "bg-blue-500"))
    else if courseId == "course-2" then Some(Colors("bg-green-50", "text-green-700", "bg-green-500"))
    else if courseId == "course-3" then Some(Colors("bg-purple-50", "text-purple-700", "bg-purple-500"))
    else None
  }

  datatype CalendarEvent = CalendarEvent(
    id: string,
    courseTitle: string,
    courseId: string,
    instructorName: string,
    className: Option<string>,
    colors: Colors)

  /** One event per assignment; every missing lookup falls back instead of failing. */
  function ToEvent(a: Assignment, data: Tables): (e: CalendarEvent)
    ensures e.id == a.id && e.className == a.className
    ensures CourseOf(a, data).None? ==> e.courseTitle == "-" && e.courseId == "" && e.colors == Gray
    ensures CourseOf(a, data).Some? ==>
              e.courseTitle == CourseOf(a, data).value.title && e.courseId == CourseOf(a, data).value.id
    ensures InstructorOf(a, data).None? ==> e.instructorName == "-"
    ensures InstructorOf(a, data).Some? ==> e.instructorName == InstructorOf(a, data).value.name
  {
    var course := CourseOf(a, data);
    var instructor := InstructorOf(a, data);
    var colors :=
      if course.Some? then (var c := CourseColors(course.value.id); if c.Some? then c.value else Gray)
      else Gray;
    CalendarEvent(
      a.id,
      if course.Some? then course.value.title else "-",
      if course.Some? then course.value.id else "",
      if instructor.Some? then instructor.value.name else "-",
      a.className,
      colors)
  }

  /** The `getEventsForDate` filter: the date matches, and so does the instructor unless the filter is 'all'. */
  predicate Matches(a: Assignment, dateStr: string, filterInstructor: string)
  {
    a.date == dateStr && (filterInstructor == "all" || a.instructorId == filterInstructor)
  }

  function MatchingAssignments(data: Tables, dateStr: string, filterInstructor: string): seq<Assignment>
  {
    Filter(data.assignments, (a: Assignment) => Matches(a, dateStr, filterInstructor))
  }

  function EventsForDate(data: Tables, dateStr: string, filterInstructor: string): seq<CalendarEvent>
  {
    Map(MatchingAssignments(data, dateStr, filterInstructor), (a: Assignment) => ToEvent(a, data))
  }

  function EventId(e: CalendarEvent): string
  {
    e.id
  }

  function AssignmentId(a: Assignment): string
  {
    a.id
  }

  /**
   * `getEventsForDate` yields one event per matching assignment, in input order: the event
   * ids are the ids of the matching assignments, and an assignment matches exactly when its
   * date is `dateStr` and, unless the filter is 'all', its instructor is the filter.
   */
  lemma EventsForDateExact(data: Tables, dateStr: string, filterInstructor: string, a: Assignment)
    ensures Map(EventsForDate(data, dateStr, filterInstructor), EventId) ==
              Map(MatchingAssignments(data, dateStr, filterInstructor), AssignmentId)
    ensures a in MatchingAssignments(data, dateStr, filterInstructor) <==>
              a in data.assignments && a.date == dateStr &&
              (filterInstructor == "all" || a.instructorId == filterInstructor)
    ensures IsSubsequence(MatchingAssignments(data, dateStr, filterInstructor), data.assignments)
  {
    var p := (a: Assignment) => Matches(a, dateStr, filterInstructor);
    FilterMembership(data.assignments, p, a);
    FilterIsSubsequence(data.assignments, p);
  }

  /** Filtering by one instructor keeps exactly that instructor's share of the 'all' result. */
  lemma EventsForInstructorWithinAll(data: Tables, dateStr: string, instructorId: string)
    requires instructorId != "all"
    ensures MatchingAssignments(data, dateStr, instructorId) ==
              Filter(MatchingAssignments(data, dateStr, "all"), (a: Assignment) => a.instructorId == instructorId)
  {
    FilterFilter(data.assignments, (a: Assignment) => Matches(a, dateStr, "all"),
                 (a: Assignment) => a.instructorId == instructorId,
                 (a: Assignment) => Matches(a, dateStr, instructorId));
  }

  /** The date week view falls back to when nothing is selected: the 18th of the shown month. */
  function WeekTarget(selectedDate: Option<string>, currentYear: int, currentMonth: int): string
  {
    if selectedDate.Some? then selectedDate.value
    else
      var (y, m) := TargetMonth(currentYear, currentMonth);
      FormatDateStr(Date(y, m, 18))
  }

  /** `days.slice(s, e)` with JavaScript's clamping of `e` to the length. */
  function SliceClamped<T>(s: seq<T>, start: nat, end: nat): seq<T>
    requires start <= |s| && start <= end
  {
    if end <= |s| then s[start..end] else s[start..]
  }

  /** Index of the first cell whose `dateStr` is `target`, or -1 (`findIndex`). */
  function TargetIndex(days: seq<CalendarDay>, target: string): int
  {
    IndexWhere(days, (d: CalendarDay) => d.dateStr == target)
  }

  /** First index of the week view: the start of the target's row, or 0 when it is absent. */
  function WeekStart(days: seq<CalendarDay>, target: string): nat
  {
    var idx := TargetIndex(days, target);
    if idx >= 0 then (idx / 7) * 7 else 0
  }

  /** Week view: the seven cells from the start of the target's row. */
  function WeekView(days: seq<CalendarDay>, target: string): (r: seq<CalendarDay>)
  {
    var ws := WeekStart(days, target);
    assert ws <= |days| by {
      var idx := TargetIndex(days, target);
      if idx >= 0 {
        assert (idx / 7) * 7 <= idx;
      }
    }
    SliceClamped(days, ws, ws + 7)
  }

  /**
   * The week view has at most 7 cells; it is the row that contains the target when the target
   * is in the grid (and then a full row if the grid is whole weeks), else the first row.
   */
  lemma WeekViewContainsTarget(days: seq<CalendarDay>, target: string)
    ensures |WeekView(days, target)| <= 7
    ensures TargetIndex(days, target) >= 0 ==>
              exists j :: 0 <= j < |WeekView(days, target)| && WeekView(days, target)[j].dateStr == target
    ensures TargetIndex(days, target) >= 0 && |days| % 7 == 0 ==> |WeekView(days, target)| == 7
    ensures TargetIndex(days, target) < 0 ==> WeekView(days, target) == days[..if |days| < 7 then |days| else 7]
  {
    var idx := TargetIndex(days, target);
    var ws := WeekStart(days, target);
    if idx >= 0 {
      assert ws <= idx < ws + 7;
      var r := WeekView(days, target);
      assert r[idx - ws] == days[idx];
      if |days| % 7 == 0 {
        assert ws + 7 <= |days| by {
          assert ws == 7 * (idx / 7);
          assert |days| == 7 * (|days| / 7);
          assert idx / 7 < |days| / 7;
        }
      }
    }
  }

  /** A found target's week view is the whole row of `days` that starts at a multiple of 7. */
  lemma WeekViewIsRow(days: seq<CalendarDay>, target: string)
    requires |days| % 7 == 0
    requires TargetIndex(days, target) >= 0
    ensures WeekStart(days, target) % 7 == 0 && WeekStart(days, target) + 7 <= |days|
    ensures WeekView(days, target) == days[WeekStart(days, target)..WeekStart(days, target) + 7]
  {
    RowStart(TargetIndex(days, target), |days|);
  }

  /** The row of a position in a grid of whole weeks starts at a multiple of 7 and fits in the grid. */
  lemma RowStart(idx: int, n: int)
    requires 0 <= idx < n && n % 7 == 0
    ensures (idx / 7) * 7 % 7 == 0 && (idx / 7) * 7 + 7 <= n
  {
    assert n == 7 * (n / 7);
    assert idx / 7 < n / 7;
  }

  /** The cell holds a valid month and falls on weekday `c`. */
  predicate InColumn(d: CalendarDay, c: int)
  {
    0 <= d.date.month < 12 && Weekday(d.date) == c
  }

  /** When cell `k` falls on weekday `k % 7`, a found target's week runs Sunday to Saturday. */
  lemma WeekViewAligned(days: seq<CalendarDay>, target: string)
    requires |days| % 7 == 0
    requires forall k :: 0 <= k < |days| ==> InColumn(days[k], k % 7)
    requires TargetIndex(days, target) >= 0
    ensures |WeekView(days, target)| == 7
    ensures forall j :: 0 <= j < 7 ==> InColumn(WeekView(days, target)[j], j)
  {
    WeekViewIsRow(days, target);
    var ws := WeekStart(days, target);
    var r := WeekView(days, target);
    forall j | 0 <= j < 7
      ensures InColumn(r[j], j)
    {
      assert r[j] == days[ws + j];
      RowColumn(ws, j);
      assert InColumn(days[ws + j], (ws + j) % 7);
    }
  }

  /** Position `j` of a row that starts at a multiple of 7 is in column `j`. */
  lemma RowColumn(ws: int, j: int)
    requires 0 <= ws && ws % 7 == 0 && 0 <= j < 7
    ensures (ws + j) % 7 == j
  {
    ModShift(ws, 0, j);
  }

  /** On a month grid the week view, when it finds its target, runs Sunday to Saturday. */
  lemma WeekViewOfGridIsAWeek(y: int, m: int, target: string)
    requires 0 <= m < 12
    requires TargetIndex(MonthGrid(y, m), target) >= 0
    ensures |WeekView(MonthGrid(y, m), target)| == 7
    ensures forall j :: 0 <= j < 7 ==> InColumn(WeekView(MonthGrid(y, m), target)[j], j)
  {
    var g := MonthGrid(y, m);
    GridLength(y, m);
    GridWeekdays(y, m);
    assert forall k :: 0 <= k < |g| ==> InColumn(g[k], k % 7);
    WeekViewAligned(g, target);
  }

  /** Concatenation of a list of rows. */
  function Flatten<T>(rows: seq<seq<T>>): seq<T>
  {
    if rows == [] then [] else rows[0] + Flatten(rows[1..])
  }

  lemma {:induction false} FlattenAppend<T>(rows: seq<seq<T>>, row: seq<T>)
    ensures Flatten(rows + [row]) == Flatten(rows) + row
  {
    if rows != [] {
      assert (rows + [row])[1..] == rows[1..] + [row];
      FlattenAppend(rows[1..], row);
    }
  }

  /**
   * The `weeks` loop: rows of 7 taken from the front with `slice(i, i + 7)`. Together the
   * rows give back the cells; every row but the last has 7 cells, and all of them do when
   * the length is a multiple of 7.
   */
  method ChunkWeeks<T>(days: seq<T>) returns (weeks: seq<seq<T>>)
    ensures Flatten(weeks) == days
    ensures |weeks| == (|days| + 6) / 7
    ensures forall w :: 0 <= w < |weeks| ==> 1 <= |weeks[w]| <= 7
    ensures forall w :: 0 <= w < |weeks| - 1 ==> |weeks[w]| == 7
    ensures |days| % 7 == 0 ==> forall w :: 0 <= w < |weeks| ==> |weeks[w]| == 7
  {
    weeks := [];
    var i := 0;
    while i < |days|
      invariant 0 <= i <= |days| + 6
      invariant i == 7 * |weeks|
      invariant i < |days| ==> Flatten(weeks) == days[..i]
      invariant i >= |days| ==> Flatten(weeks) == days
      invariant forall w :: 0 <= w < |weeks| ==> 1 <= |weeks[w]| <= 7
      invariant forall w :: 0 <= w < |weeks| - 1 ==> |weeks[w]| == 7
      invariant |weeks| > 0 ==> (|weeks[|weeks| - 1]| == 7 || i >= |days|)
      invariant |days| % 7 == 0 ==> i <= |days| && forall w :: 0 <= w < |weeks| ==> |weeks[w]| == 7
    {
      var row := if i + 7 <= |days| then days[i..i + 7] else days[i..];
      FlattenAppend(weeks, row);
      if i + 7 <= |days| {
        assert days[..i] + row == days[..i + 7];
      } else {
        assert days[..i] + row == days;
      }
      weeks := weeks + [row];
      i := i + 7;
    }
    if |days| == 0 {
      assert weeks == [];
    }
  }

  datatype ViewMode = Month | Week

  /** Events drawn in a cell: at most 3 in month view, at most 6 in week view. */
  function ShownEvents(events: seq<CalendarEvent>, mode: ViewMode): seq<CalendarEvent>
  {
    var cap := if mode == Month then 3 else 6;
    if |events| <= cap then events else events[..cap]
  }

  /** The `+n` marker: only in month view, only beyond 3 events. */
  function OverflowMarker(events: seq<CalendarEvent>, mode: ViewMode): Option<int>
  {
    if mode == Month && |events| > 3 then Some(|events| - 3) else None
  }

  /**
   * In month view a cell accounts for every event: the drawn ones plus the marker's count.
   * Week view draws the first 6 and shows no marker, so events beyond the sixth are not shown.
   */
  lemma CellEventsAccounting(events: seq<CalendarEvent>, mode: ViewMode)
    ensures IsPrefix(ShownEvents(events, mode), events)
    ensures mode == Month ==>
              |ShownEvents(events, mode)| <= 3 &&
              |ShownEvents(events, mode)| + (if OverflowMarker(events, mode).Some? then OverflowMarker(events, mode).value else 0) == |events|
    ensures mode == Week ==> |ShownEvents(events, mode)| == (if |events| < 6 then |events| else 6) && OverflowMarker(events, mode).None?
  {
  }

  predicate IsPrefix<T(==)>(p: seq<T>, s: seq<T>)
  {
    |p| <= |s| && s[..|p|] == p
  }

  /** The page's month state and its two navigation buttons. */
  class MonthCursor {
    var year: int
    var month: int

    predicate Valid()
      reads this
    {
      0 <= month < 12
    }

    /** Months since January of year 0: navigation moves it by exactly one. */
    function MonthIndex(): int
      reads this
    {
      12 * year + month
    }

    constructor (y: int, m: int)
      requires 0 <= m < 12
      ensures Valid() && year == y && month == m
    {
      year := y;
      month := m;
    }

    method PrevMonth()
      requires Valid()
      modifies this
      ensures Valid()
      ensures (year, month) == Dates.PrevMonth(old(year), old(month))
      ensures MonthIndex() == old(MonthIndex()) - 1
    {
      if month == 0 {
        year := year - 1;
        month := 11;
      } else {
        month := month - 1;
      }
    }

    method NextMonth()
      requires Valid()
      modifies this
      ensures Valid()
      ensures (year, month) == Dates.NextMonth(old(year), old(month))
      ensures MonthIndex() == old(MonthIndex()) + 1
    {
      if month == 11 {
        year := year + 1;
        month := 0;
      } else {
        month := month + 1;
      }
    }
  }

  /** Pressing "previous" then "next" returns to the same month. */
  method PrevThenNext(c: MonthCursor)
    requires c.Valid()
    modifies c
    ensures c.Valid() && c.year == old(c.year) && c.month == old(c.month)
  {
    c.PrevMonth();
    c.NextMonth();
  }
}

/**
 * The instructor's own course list (frontend/src/pages/instructor/InstructorCourses.tsx): the
 * completed-status set, the status badge, the all/upcoming/completed tabs over one page of
 * results, the period shown on each card, and the tab state that resets the page.
 */
module InstructorCoursesPage {
  import opened Wrappers
  import opened Seqs

  /** One of the instructor's days in a course, as the list endpoint returns it. */
  datatype CourseDay = CourseDay(date: string, dayNumber: int, place: Option<string>, role: string)

  /** One course of the instructor, as the list endpoint returns it. */
  datatype InstructorCourse = InstructorCourse(
    courseId: string,
    title: string,
    status: Option<string>,
    lectureStart: Option<string>,
    lectureEnd: Option<string>,
    dates: seq<CourseDay>)

  /** The Notion lecture states that mean the course is over. */
  const CompletedStatuses: set<string> := {"result_report", "lecture_finish", "tax_invoice"}

  /** `COMPLETED_STATUSES.has(course.status ?? '')`. */
  function IsCompleted(c: InstructorCourse): (b: bool)
    ensures b <==> c.status.Some? && c.status.value in CompletedStatuses
  {
    var s := if c.status.Some? then c.status.value else "";
    s in CompletedStatuses
  }

  datatype Badge = Badge(text: string, cls: string)

  const Gray: string := "bg-gray-100 text-gray-600"
  const Green: string := "bg-green-100 text-green-700"

  /** The badge table for the known lecture states. */
  const BadgeTable: map<string, Badge> := map[
    "result_report" := Badge("완료", Green),
    "lecture_finish" := Badge("완료", Green),
    "tax_invoice" := Badge("완료", Green),
    "preparation" := Badge("준비 중", "bg-yellow-100 text-yellow-700"),
    "in_progress" := Badge("진행 중", "bg-blue-100 text-blue-700")
  ]

  /** `getStatusBadge`: '예정' for a missing or empty status, the table entry, or the raw status in gray. */
  function StatusBadge(status: Option<string>): (b: Badge)
    ensures status.None? || status == Some("") ==> b == Badge("예정", Gray)
    ensures status.Some? && status.value != "" && status.value in BadgeTable ==> b == BadgeTable[status.value]
    ensures status.Some? && status.value != "" && status.value !in BadgeTable ==> b == Badge(status.value, Gray)
  {
    if status.None? || status.value == "" then Badge("예정", Gray)
    else if status.value in BadgeTable then BadgeTable[status.value]
    else Badge(status.value, Gray)
  }

  /**
   * The badge and the completed tab agree: a completed course is labelled '완료' in green, and
   * a badge reading '완료' means a completed course unless the raw status is itself the text '완료'.
   */
  lemma BadgeMatchesCompletion(c: InstructorCourse)
    ensures IsCompleted(c) ==> StatusBadge(c.status) == Badge("완료", Green)
    ensures StatusBadge(c.status).text == "완료" ==> IsCompleted(c) || c.status == Some("완료")
  {
  }

  /** The three tabs: 'all', 'upcoming', 'completed'. */
  datatype CourseFilter = AllCourses | Upcoming | Completed

  /** `filteredItems`: nothing before the data arrives, otherwise the page's items for the tab. */
  function FilteredItems(data: Option<seq<InstructorCourse>>, filter: CourseFilter): seq<InstructorCourse>
  {
    if data.None? then []
    else if filter == Upcoming then Filter(data.value, (c: InstructorCourse) => !IsCompleted(c))
    else if filter == Completed then Filter(data.value, (c: InstructorCourse) => IsCompleted(c))
    else data.value
  }

  /**
   * 'all' shows the page unchanged; 'upcoming' and 'completed' split it: each item is in exactly one,
   * the two counts add up, and each keeps the page's order.
   */
  lemma TabsSplitPage(items: seq<InstructorCourse>, c: InstructorCourse)
    ensures FilteredItems(Some(items), AllCourses) == items
    ensures c in FilteredItems(Some(items), Upcoming) <==> c in items && !IsCompleted(c)
    ensures c in FilteredItems(Some(items), Completed) <==> c in items && IsCompleted(c)
    ensures |FilteredItems(Some(items), Upcoming)| + |FilteredItems(Some(items), Completed)| == |items|
    ensures IsSubsequence(FilteredItems(Some(items), Upcoming), items)
    ensures IsSubsequence(FilteredItems(Some(items), Completed), items)
  {
    var up := (c: InstructorCourse) => !IsCompleted(c);
    var done := (c: InstructorCourse) => IsCompleted(c);
    FilterMembership(items, up, c);
    FilterMembership(items, done, c);
    FilterIsSubsequence(items, up);
    FilterIsSubsequence(items, done);
    var all := (c: InstructorCourse) => true;
    FilterPartition(items, all, done, up, done);
    FilterAll(items, all);
  }

  /** Before the data arrives every tab is empty. */
  lemma NoDataNoItems(filter: CourseFilter)
    ensures FilteredItems(None, filter) == []
  {
  }

  /** What the card shows as the period (the date formatting itself is not modelled). */
  datatype Period = ByLecture(start: string, end: string) | ByDates(first: string, last: string) | NoPeriod

  /** `periodLabel`: both lecture bounds when both are non-empty, else first~last day, else '-'. */
  function PeriodOf(c: InstructorCourse): (p: Period)
    ensures p.ByLecture? <==> c.lectureStart.Some? && c.lectureStart.value != "" &&
                              c.lectureEnd.Some? && c.lectureEnd.value != ""
    ensures p.ByLecture? ==> p == ByLecture(c.lectureStart.value, c.lectureEnd.value)
    ensures p.ByDates? ==> |c.dates| > 0 && p == ByDates(c.dates[0].date, c.dates[|c.dates| - 1].date)
    ensures p.NoPeriod? <==> !p.ByLecture? && c.dates == []
  {
    if c.lectureStart.Some? && c.lectureStart.value != "" && c.lectureEnd.Some? && c.lectureEnd.value != "" then
      ByLecture(c.lectureStart.value, c.lectureEnd.value)
    else if |c.dates| > 0 then
      ByDates(c.dates[0].date, c.dates[|c.dates| - 1].date)
    else
      NoPeriod
  }

  /** The page's tab and page number. */
  class CoursesView {
    var page: int
    var filter: CourseFilter

    /** Opens on page 1 of the 'all' tab. */
    constructor ()
      ensures page == 1 && filter == AllCourses
    {
      page := 1;
      filter := AllCourses;
    }

    /** A tab click selects the tab and goes back to page 1. */
    method SetFilter(f: CourseFilter)
      modifies this
      ensures filter == f && page == 1
    {
      filter := f;
      page := 1;
    }

    /** The page selector changes only the page. */
    method SetPage(p: int)
      modifies this
      ensures page == p && filter == old(filter)
    {
      page := p;
    }
  }
}

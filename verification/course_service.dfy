/**
 * The course service (backend/services/course_service.py): the day-by-day date list generated
 * for a new course, and the existence checks in front of reading, updating and deleting one.
 */
module CourseService {
  import opened Wrappers
  import opened Seqs
  import opened Keyed
  import opened Dates
  import opened BackendTypes
  import opened CourseDateStore

  const CourseNotFound: string := "교육을 찾을 수 없습니다"

  /** The number of calendar days from `start` to `end`, both included; 0 when `start` is later. */
  function DayCount(start: Date, end: Date): (n: nat)
    requires Valid(start) && Valid(end)
    ensures n > 0 <==> DateLe(start, end)
  {
    DayNumberOrder(start, end);
    if DayNumber(start) <= DayNumber(end) then DayNumber(end) - DayNumber(start) + 1 else 0
  }

  /** The date of the course's `k`-th day (counting from 0). */
  function CourseDay(start: Date, k: nat): (d: Date)
    requires Valid(start) && 1 <= start.year
    ensures Valid(d) && 1 <= d.year
  {
    AddDays(start, k)
  }

  /** The entry `_generate_dates` makes for the course's `k`-th day (counting from 0). */
  function Entry(start: Date, k: nat): CourseDateData
    requires Valid(start) && 1 <= start.year
  {
    CourseDateData(None, IsoFormat(CourseDay(start, k)), k + 1)
  }

  /** The entries for the first `n` days. */
  function Entries(start: Date, n: nat): (r: seq<CourseDateData>)
    requires Valid(start) && 1 <= start.year
    ensures |r| == n && forall k :: 0 <= k < n ==> r[k] == Entry(start, k)
  {
    seq(n, (k: int) requires 0 <= k => Entry(start, k))
  }

  /**
   * `_generate_dates`: one entry per day from `start` to `end`, both included, each with the
   * ISO date and a day number counting from 1; nothing when `start` is after `end`. Stepping past
   * 9999-12-31 raises OverflowError in Python, so a course ending on that day fails.
   */
  method GenerateDates(start: Date, end: Date) returns (r: Result<seq<CourseDateData>, ServiceError>)
    requires Valid(start) && Valid(end) && 1 <= start.year <= 9999 && 1 <= end.year <= 9999
    ensures !DateLe(start, end) ==> r == Success([])
    ensures r.Failure? <==> DateLe(start, end) && end == MaxDate
    ensures r.Failure? ==> r.error == DateOverflow
    ensures r.Success? ==> r.value == Entries(start, DayCount(start, end))
  {
    var dates: seq<CourseDateData> := [];
    var current := start;
    var dayNumber := 1;
    while DateLe(current, end)
      invariant Valid(current) && 1 <= current.year <= 9999
      invariant current == CourseDay(start, |dates|)
      invariant DayNumber(current) == DayNumber(start) + |dates|
      invariant dayNumber == |dates| + 1
      invariant dates == Entries(start, |dates|)
      invariant |dates| > 0 ==> DateLe(start, end) && DayNumber(current) <= DayNumber(end) + 1
      decreases DayNumber(end) - DayNumber(current)
    {
      var overflow;
      dates, current, dayNumber, overflow := Iteration(start, end, current, dates, dayNumber);
      if overflow {
        return Failure(DateOverflow);
      }
    }
    LoopExit(start, end, current, |dates|);
    r := Success(dates);
  }

  /**
   * One iteration of the date loop: the entry for `current` is appended, then the day advances.
   * Advancing overflows exactly on 9999-12-31, which is then the course's last day.
   */
  method Iteration(start: Date, end: Date, current: Date, dates: seq<CourseDateData>, dayNumber: int)
      returns (dates': seq<CourseDateData>, current': Date, dayNumber': int, overflow: bool)
    requires Valid(start) && 1 <= start.year && Valid(end) && end.year <= 9999
    requires Valid(current) && 1 <= current.year <= 9999
    requires current == CourseDay(start, |dates|) && DateLe(current, end)
    requires DayNumber(current) == DayNumber(start) + |dates|
    requires dayNumber == |dates| + 1 && dates == Entries(start, |dates|)
    ensures overflow <==> current == MaxDate
    ensures overflow ==> end == MaxDate
    ensures !overflow ==> && Valid(current') && 1 <= current'.year <= 9999
                          && current' == CourseDay(start, |dates'|)
                          && DayNumber(current') == DayNumber(start) + |dates'|
                          && dayNumber' == |dates'| + 1
                          && dates' == Entries(start, |dates'|)
                          && DateLe(start, end) && DayNumber(current') <= DayNumber(end) + 1
                          && DayNumber(end) - DayNumber(current') < DayNumber(end) - DayNumber(current)
  {
    var n := |dates|;
    DayStep(start, end, current, n);
    EntriesSnoc(start, n);
    dates' := dates + [CourseDateData(None, IsoFormat(current), dayNumber)];
    if current == MaxDate {
      return dates', current, dayNumber, true;
    }
    DayNumberOrder(start, end);
    current' := NextDay(current);
    dayNumber' := dayNumber + 1;
    overflow := false;
  }

  /**
   * One iteration of the date loop: on 9999-12-31 the loop has reached `end`; on any other day
   * the next day is the course's next day, still within 9999.
   */
  lemma DayStep(start: Date, end: Date, current: Date, n: nat)
    requires Valid(start) && 1 <= start.year && Valid(end) && end.year <= 9999
    requires Valid(current) && 1 <= current.year <= 9999
    requires current == CourseDay(start, n) && DateLe(current, end)
    ensures current == MaxDate ==> end == MaxDate
    ensures current != MaxDate ==> Valid(NextDay(current)) && 1 <= NextDay(current).year <= 9999
    ensures current != MaxDate ==> NextDay(current) == CourseDay(start, n + 1)
    ensures DayNumber(NextDay(current)) == DayNumber(current) + 1
    ensures DayNumber(current) <= DayNumber(end)
  {
    NextDayNumber(current);
    DayNumberOrder(current, end);
  }

  /** When the loop stops, it has made one entry per day, the last one for `end`. */
  lemma LoopExit(start: Date, end: Date, current: Date, n: nat)
    requires Valid(start) && 1 <= start.year && Valid(end)
    requires Valid(current) && current == CourseDay(start, n) && !DateLe(current, end)
    requires DayNumber(current) == DayNumber(start) + n
    requires n > 0 ==> DateLe(start, end) && DayNumber(current) <= DayNumber(end) + 1
    requires n > 0 ==> CourseDay(start, n - 1) != MaxDate
    ensures n == DayCount(start, end)
    ensures !(DateLe(start, end) && end == MaxDate)
  {
    DayNumberOrder(current, end);
    DayNumberOrder(start, end);
    if n > 0 {
      AddDaysNumber(start, n - 1);
      DayNumberOrder(CourseDay(start, n - 1), end);
    }
  }

  /** The generated days run from `start` up to and including `end`: the last one is `end`. */
  lemma LastDayIsEnd(start: Date, end: Date)
    requires Valid(start) && 1 <= start.year && Valid(end) && DateLe(start, end)
    ensures CourseDay(start, DayCount(start, end) - 1) == end
    ensures Entries(start, DayCount(start, end))[0] == CourseDateData(None, IsoFormat(start), 1)
  {
    var n := DayCount(start, end);
    AddDaysNumber(start, n - 1);
    DayNumberOrder(start, end);
    DayNumberOrder(CourseDay(start, n - 1), end);
  }

  /** One more day appends one more entry. */
  lemma EntriesSnoc(start: Date, n: nat)
    requires Valid(start) && 1 <= start.year
    ensures Entries(start, n + 1) == Entries(start, n) + [Entry(start, n)]
  {
  }

  /** The course's fields other than its id and its first and last day (`CourseBase`). */
  datatype CourseFields = CourseFields(
    notionPageId: string,
    title: string,
    status: Option<string>,
    target: Option<string>,
    students: Option<int>,
    lectureStart: Option<string>,
    lectureEnd: Option<string>,
    workbookFullUrl: Option<string>,
    manager: Option<string>,
    salesRep: Option<string>)

  /** `CourseCreate`: the fields plus the first and last day, which are not stored on the course. */
  datatype CourseCreate = CourseCreate(fields: CourseFields, startDate: Date, endDate: Date)

  /** A stored course. */
  datatype CourseRecord = CourseRecord(id: string, fields: CourseFields)

  /** `CourseUpdate` with `exclude_unset`: an absent field is not sent. */
  datatype CoursePatch = CoursePatch(title: Option<string>, status: Option<Option<string>>, target: Option<Option<string>>)

  /** The stored course after a patch. */
  function Patched(c: CourseRecord, p: CoursePatch): (r: CourseRecord)
    ensures r.id == c.id
    ensures r.fields.notionPageId == c.fields.notionPageId && r.fields.students == c.fields.students
    ensures r.fields.title == (if p.title.Some? then p.title.value else c.fields.title)
    ensures r.fields.status == (if p.status.Some? then p.status.value else c.fields.status)
    ensures r.fields.target == (if p.target.Some? then p.target.value else c.fields.target)
    ensures r.fields == c.fields.(title := r.fields.title, status := r.fields.status, target := r.fields.target)
  {
    CourseRecord(c.id, c.fields.(
      title := if p.title.Some? then p.title.value else c.fields.title,
      status := if p.status.Some? then p.status.value else c.fields.status,
      target := if p.target.Some? then p.target.value else c.fields.target))
  }

  function CourseId(c: CourseRecord): string
  {
    c.id
  }

  /**
   * A dict-backed course store offering the calls the service makes on its course repository
   * (get, create, update, delete), keyed by id in insertion order.
   */
  class CourseTable {
    var items: seq<CourseRecord>

    ghost predicate Valid()
      reads this
    {
      UniqueBy(items, CourseId)
    }

    constructor ()
      ensures Valid() && items == []
    {
      items := [];
    }

    /** `get_course`: the stored course with that id, or None. */
    function Get(id: string): (r: Option<CourseRecord>)
      reads this
      ensures r.None? <==> forall c :: c in items ==> c.id != id
      ensures r.Some? ==> r.value in items && r.value.id == id
    {
      var i := IndexOfKey(items, CourseId, id);
      if i == -1 then None else Some(items[i])
    }

    method Create(fields: CourseFields, freshId: string) returns (r: CourseRecord)
      requires Valid() && forall c :: c in items ==> c.id != freshId
      modifies this
      ensures Valid()
      ensures r == CourseRecord(freshId, fields) && items == old(items) + [r]
    {
      r := CourseRecord(freshId, fields);
      AppendKeepsUnique(items, CourseId, r);
      items := items + [r];
    }

    method Update(id: string, patch: CoursePatch) returns (r: Option<CourseRecord>)
      requires Valid()
      modifies this
      ensures Valid()
      ensures var i := IndexOfKey(old(items), CourseId, id);
        if i == -1 then r.None? && items == old(items)
        else r == Some(Patched(old(items)[i], patch)) && items == old(items)[i := r.value]
    {
      var i := IndexOfKey(items, CourseId, id);
      if i == -1 {
        return None;
      }
      var c := Patched(items[i], patch);
      ReplaceKeepsUnique(items, CourseId, i, c);
      items := items[i := c];
      r := Some(c);
    }

    method Delete(id: string) returns (deleted: bool)
      requires Valid()
      modifies this
      ensures Valid()
      ensures deleted <==> exists c :: c in old(items) && c.id == id
      ensures !deleted ==> items == old(items)
      ensures forall c :: c in items <==> c in old(items) && c.id != id
    {
      var i := IndexOfKey(items, CourseId, id);
      if i == -1 {
        return false;
      }
      var rest := items[..i] + items[i + 1..];
      RemoveKeepsUnique(items, CourseId, i, rest);
      RemoveByKey(items, CourseId, i, rest);
      items := rest;
      deleted := true;
    }
  }

  class CourseService {
    const repo: CourseTable
    const dateRepo: FakeCourseDateRepository

    constructor (repo: CourseTable, dateRepo: FakeCourseDateRepository)
      ensures this.repo == repo && this.dateRepo == dateRepo
    {
      this.repo := repo;
      this.dateRepo := dateRepo;
    }

    /** `get_course`: the course, or a 404 for an unknown id. */
    method GetCourse(id: string) returns (r: Result<CourseRecord, ServiceError>)
      ensures r.Failure? <==> forall c :: c in repo.items ==> c.id != id
      ensures r.Failure? ==> r.error == NotFound(CourseNotFound)
      ensures r.Success? ==> r.value in repo.items && r.value.id == id
    {
      var course := repo.Get(id);
      if course.None? {
        return Failure(NotFound(CourseNotFound));
      }
      r := Success(course.value);
    }

    /** `get_course_detail`: the course with its dates, or a 404. */
    method GetCourseDetail(id: string) returns (r: Result<(CourseRecord, seq<CourseDateRecord>), ServiceError>)
      ensures r.Failure? <==> forall c :: c in repo.items ==> c.id != id
      ensures r.Success? ==> r.value.0 in repo.items && r.value.0.id == id
      ensures r.Success? ==> forall d :: d in r.value.1 <==> d in dateRepo.items && d.courseId == id
      ensures r.Success? ==> r.value.1 == dateRepo.ListDatesByCourse(id) && IsSubsequence(r.value.1, dateRepo.items)
    {
      var course := GetCourse(id);
      if course.Failure? {
        return Failure(course.error);
      }
      var dates := dateRepo.ListDatesByCourse(id);
      r := Success((course.value, dates));
    }

    /**
     * `create_course`: stores the course without its first and last day, then one course date
     * per day in between under the new course's id. When the date list overflows, the course is
     * already stored and no date is.
     */
    method CreateCourse(data: CourseCreate, courseId: string, dateIds: seq<string>)
        returns (r: Result<CourseRecord, ServiceError>)
      requires repo.Valid() && dateRepo.Valid()
      requires Valid(data.startDate) && Valid(data.endDate)
      requires 1 <= data.startDate.year <= 9999 && 1 <= data.endDate.year <= 9999
      requires forall c :: c in repo.items ==> c.id != courseId
      requires |dateIds| >= DayCount(data.startDate, data.endDate) && Distinct(dateIds)
      requires forall c, id :: c in dateRepo.items && id in dateIds ==> c.id != id
      modifies repo, dateRepo
      ensures repo.Valid() && dateRepo.Valid()
      ensures repo.items == old(repo.items) + [CourseRecord(courseId, data.fields)]
      ensures r.Failure? <==> DateLe(data.startDate, data.endDate) && data.endDate == MaxDate
      ensures r.Failure? ==> dateRepo.items == old(dateRepo.items)
      ensures r.Success? ==>
                r.value == CourseRecord(courseId, data.fields) &&
                var n := DayCount(data.startDate, data.endDate);
                |dateRepo.items| == |old(dateRepo.items)| + n &&
                dateRepo.items[..|old(dateRepo.items)|] == old(dateRepo.items) &&
                forall k :: 0 <= k < n ==>
                  dateRepo.items[|old(dateRepo.items)| + k] ==
                    CourseDateRecord(dateIds[k], courseId, IsoFormat(CourseDay(data.startDate, k)), k + 1)
    {
      var course := repo.Create(data.fields, courseId);
      var dates := GenerateDates(data.startDate, data.endDate);
      if dates.Failure? {
        return Failure(dates.error);
      }
      var ids := dateIds[..|dates.value|];
      assert forall id :: id in ids ==> id in dateIds;
      var created := dateRepo.CreateDates(course.id, dates.value, ids);
      r := Success(course);
    }

    /** `update_course`: a 404 without touching the store for an unknown id, else the patched course. */
    method UpdateCourse(id: string, patch: CoursePatch) returns (r: Result<CourseRecord, ServiceError>)
      requires repo.Valid()
      modifies repo
      ensures repo.Valid()
      ensures var i := IndexOfKey(old(repo.items), CourseId, id);
        if i == -1 then r == Failure(NotFound(CourseNotFound)) && repo.items == old(repo.items)
        else r == Success(Patched(old(repo.items)[i], patch)) && repo.items == old(repo.items)[i := r.value]
    {
      var found := GetCourse(id);
      if found.Failure? {
        return Failure(found.error);
      }
      var updated := repo.Update(id, patch);
      r := Success(updated.value);
    }

    /** `delete_course`: a 404 without touching the store for an unknown id, else true and the course is gone. */
    method DeleteCourse(id: string) returns (r: Result<bool, ServiceError>)
      requires repo.Valid()
      modifies repo
      ensures repo.Valid()
      ensures r.Failure? <==> forall c :: c in old(repo.items) ==> c.id != id
      ensures r.Failure? ==> r.error == NotFound(CourseNotFound) && repo.items == old(repo.items)
      ensures r.Success? ==> r.value && forall c :: c in repo.items <==> c in old(repo.items) && c.id != id
    {
      var found := GetCourse(id);
      if found.Failure? {
        return Failure(found.error);
      }
      var deleted := repo.Delete(id);
      r := Success(deleted);
    }
  }

  /** A three-day course from 2026-03-10 to 2026-03-12 gets three dates, and a one-day course one. */
  lemma CourseLengths()
    ensures DayCount(Date(2026, 2, 10), Date(2026, 2, 12)) == 3
    ensures DayCount(Date(2026, 2, 10), Date(2026, 2, 10)) == 1
    ensures DayCount(Date(2026, 2, 12), Date(2026, 2, 10)) == 0
  {
  }
}

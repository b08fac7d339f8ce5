/**
 * The instructor's own course list (backend/services/instructor_course_service.py): the courses
 * holding at least one of the instructor's assignments, each once, with the instructor's role in
 * it, the assigned days in date order and the course's total day count; newest lecture start
 * first; cut into pages.
 */
module InstructorCourseService {
  import opened Wrappers
  import opened Seqs
  import opened Strs
  import opened Keyed
  import opened Sorting
  import opened BackendTypes
  import opened AssignmentStore
  import opened CourseDateStore
  import CourseService

  /** The role shown when nothing better is known. */
  const DefaultRole := "강사"

  /** `CLASS_NAME_TO_ROLE`: the two regular classes are led by a main instructor, technical support by a tutor. */
  const ClassNameToRole: map<string, string> := map["A반" := "주강사", "B반" := "주강사", "기술지원" := "기술 튜터"]

  // ---------------------------------------------------------------------------------------------
  // The role of one assigned day, and of the instructor in a course

  /** `CLASS_NAME_TO_ROLE.get(class_name, class_name)`: the role of one assigned day. */
  function DateRole(className: Option<string>): Option<string>
  {
    if className.Some? && className.value in ClassNameToRole then Some(ClassNameToRole[className.value])
    else className
  }

  /** A day's role is the mapped role of a known class, the class name itself otherwise, and absent only without a class. */
  lemma DateRoleMeaning(className: Option<string>)
    ensures DateRole(className).None? <==> className.None?
    ensures className.Some? && className.value in ClassNameToRole ==>
              DateRole(className).value in ClassNameToRole.Values
    ensures className.Some? && className.value !in ClassNameToRole ==> DateRole(className) == className
    ensures DateRole(Some("A반")) == DateRole(Some("B반")) == Some("주강사")
    ensures DateRole(Some("기술지원")) == Some("기술 튜터")
  {
  }

  /** `CLASS_NAME_TO_ROLE.get(most_common, most_common or "강사")`. */
  function RoleName(mostCommon: Option<string>): string
  {
    if mostCommon.Some? && mostCommon.value in ClassNameToRole then ClassNameToRole[mostCommon.value]
    else if mostCommon.Some? && mostCommon.value != "" then mostCommon.value
    else DefaultRole
  }

  /** A role name is a mapped role, an unmapped non-empty class name, or the default for no or an empty name. */
  lemma RoleNameMeaning(mostCommon: Option<string>)
    ensures mostCommon.Some? && mostCommon.value in ClassNameToRole ==> RoleName(mostCommon) in ClassNameToRole.Values
    ensures mostCommon.Some? && mostCommon.value !in ClassNameToRole && mostCommon.value != "" ==>
              RoleName(mostCommon) == mostCommon.value
    ensures mostCommon == None || mostCommon == Some("") ==> RoleName(mostCommon) == DefaultRole
    ensures RoleName(mostCommon) != ""
  {
  }

  /** How many of the assignments carry that class name. */
  function Count(s: seq<AssignmentRecord>, c: Option<string>): (n: nat)
    ensures n <= |s|
  {
    if s == [] then 0
    else Count(s[..|s| - 1], c) + (if s[|s| - 1].className == c then 1 else 0)
  }

  /** `a["class_name"] == c`, as a predicate to search with. */
  function HasClass(c: Option<string>): AssignmentRecord -> bool
  {
    (a: AssignmentRecord) => a.className == c
  }

  /** The keys of `counts` in insertion order: every class name, in the order it first occurs. */
  function FirstSeen(s: seq<AssignmentRecord>): (keys: seq<Option<string>>)
  {
    if s == [] then []
    else
      var keys := FirstSeen(s[..|s| - 1]);
      if s[|s| - 1].className in keys then keys else keys + [s[|s| - 1].className]
  }

  /** Every class name is a key, once. */
  lemma {:induction false} FirstSeenMeaning(s: seq<AssignmentRecord>)
    ensures Distinct(FirstSeen(s))
    ensures forall i :: 0 <= i < |s| ==> s[i].className in FirstSeen(s)
    ensures forall c :: c in FirstSeen(s) ==> exists i :: 0 <= i < |s| && s[i].className == c
  {
    if s != [] {
      var t := s[..|s| - 1];
      FirstSeenMeaning(t);
      assert forall i :: 0 <= i < |t| ==> t[i] == s[i];
    }
  }

  /**
   * `max(counts, key=counts.get)` over the first `|keys|` keys: the position of a largest count,
   * the earliest one on a tie, since `max` only moves on for a strictly larger count.
   */
  function ArgMax(s: seq<AssignmentRecord>, keys: seq<Option<string>>): (p: nat)
    requires |keys| > 0
    ensures p < |keys|
    ensures forall j :: 0 <= j < |keys| ==> Count(s, keys[j]) <= Count(s, keys[p])
    ensures forall j :: 0 <= j < p ==> Count(s, keys[j]) < Count(s, keys[p])
  {
    if |keys| == 1 then 0
    else
      var prefix := keys[..|keys| - 1];
      var b := ArgMax(s, prefix);
      assert forall j :: 0 <= j < |prefix| ==> prefix[j] == keys[j];
      if Count(s, keys[|keys| - 1]) > Count(s, keys[b]) then |keys| - 1 else b
  }

  /** The most frequent class name, the first one to occur winning a tie. */
  function MostCommon(s: seq<AssignmentRecord>): Option<string>
    requires |s| > 0
  {
    var keys := FirstSeen(s);
    FirstSeenMeaning(s);
    keys[ArgMax(s, keys)]
  }

  /** `_determine_role` as a value: the default without assignments, else the role of the most common class. */
  function Role(s: seq<AssignmentRecord>): string
  {
    if s == [] then DefaultRole else RoleName(MostCommon(s))
  }

  /** The first position holding that class name. */
  function FirstIndex(s: seq<AssignmentRecord>, c: Option<string>): int
  {
    IndexWhere(s, HasClass(c))
  }

  /** Keys come in the order of their first occurrence. */
  lemma {:induction false} FirstSeenOrder(s: seq<AssignmentRecord>)
    ensures var keys := FirstSeen(s);
      forall j, k :: 0 <= j < k < |keys| ==> 0 <= FirstIndex(s, keys[j]) < FirstIndex(s, keys[k])
  {
    if s != [] {
      var t := s[..|s| - 1];
      var last := s[|s| - 1];
      FirstSeenOrder(t);
      var keys := FirstSeen(s);
      var before := FirstSeen(t);
      forall c | c in before
        ensures 0 <= FirstIndex(s, c) == FirstIndex(t, c) < |t|
      {
        FirstIndexPrefix(s, c);
      }
      forall j, k | 0 <= j < k < |keys|
        ensures 0 <= FirstIndex(s, keys[j]) < FirstIndex(s, keys[k])
      {
        assert keys[j] == before[j] && before[j] in before;
        if k < |before| {
          assert keys[k] == before[k] && before[k] in before;
        } else {
          FirstIndexLast(s, before);
        }
      }
    }
  }

  /** A class name met before the last assignment is first met at the same place without it. */
  lemma FirstIndexPrefix(s: seq<AssignmentRecord>, c: Option<string>)
    requires s != [] && c in FirstSeen(s[..|s| - 1])
    ensures 0 <= FirstIndex(s, c) == FirstIndex(s[..|s| - 1], c) < |s| - 1
  {
    var t := s[..|s| - 1];
    FirstSeenMeaning(t);
    assert forall i :: 0 <= i < |t| ==> t[i] == s[i];
    var ft := FirstIndex(t, c);
    assert HasClass(c)(t[ft]);
  }

  /** A class name new with the last assignment is first met there. */
  lemma FirstIndexLast(s: seq<AssignmentRecord>, before: seq<Option<string>>)
    requires s != [] && before == FirstSeen(s[..|s| - 1]) && s[|s| - 1].className !in before
    ensures FirstIndex(s, s[|s| - 1].className) == |s| - 1
  {
    var t := s[..|s| - 1];
    var c := s[|s| - 1].className;
    FirstSeenMeaning(t);
    assert HasClass(c)(s[|s| - 1]);
    forall j | 0 <= j < |s| - 1
      ensures !HasClass(c)(s[j])
    {
      assert t[j] == s[j];
    }
  }

  /**
   * `_determine_role`'s choice: the most common class name occurs in the input; no class name
   * occurs more often; and every class name first seen before it occurs strictly less often.
   */
  lemma MostCommonMeaning(s: seq<AssignmentRecord>)
    requires |s| > 0
    ensures exists i :: 0 <= i < |s| && s[i].className == MostCommon(s)
    ensures forall i :: 0 <= i < |s| ==> Count(s, s[i].className) <= Count(s, MostCommon(s))
    ensures forall i :: 0 <= i < FirstIndex(s, MostCommon(s)) ==>
              Count(s, s[i].className) < Count(s, MostCommon(s))
  {
    var keys := FirstSeen(s);
    FirstSeenMeaning(s);
    var p := ArgMax(s, keys);
    var mc := keys[p];
    assert mc in keys;
    forall i | 0 <= i < |s|
      ensures Count(s, s[i].className) <= Count(s, mc)
    {
      assert s[i].className in keys;
    }
    forall i | 0 <= i < FirstIndex(s, mc)
      ensures Count(s, s[i].className) < Count(s, mc)
    {
      EarlierKey(s, p, i);
    }
  }

  /** A class name met before the first occurrence of the key at `p` is a key before `p`. */
  lemma EarlierKey(s: seq<AssignmentRecord>, p: int, i: int)
    requires 0 <= p < |FirstSeen(s)| && 0 <= i < FirstIndex(s, FirstSeen(s)[p])
    ensures exists j :: 0 <= j < p && FirstSeen(s)[j] == s[i].className
  {
    var keys := FirstSeen(s);
    var c := s[i].className;
    FirstSeenMeaning(s);
    var j :| 0 <= j < |keys| && keys[j] == c;
    assert HasClass(c)(s[i]);
    assert FirstIndex(s, c) <= i;
    FirstSeenOrder(s);
  }

  /** Two assignments of different classes tie: the one met first gives the role. */
  lemma RoleTie(a: AssignmentRecord, b: AssignmentRecord)
    requires a.className != b.className
    ensures Role([a, b]) == RoleName(a.className)
  {
    var A, T := a.className, b.className;
    assert [a, b][..1] == [a] && [a][..0] == [];
    assert FirstSeen([a]) == [A];
    assert FirstSeen([a, b]) == [A, T];
    assert [A, T][..1] == [A];
    assert Count([a], A) == 1 && Count([a], T) == 0;
    assert Count([a, b], A) == Count([a, b], T) == 1;
  }

  /** The role names of the A class and of technical support. */
  lemma RoleNamesOfClasses()
    ensures RoleName(Some("A반")) == "주강사" && RoleName(Some("기술지원")) == "기술 튜터"
  {
    assert "A반" in ClassNameToRole && "기술지원" in ClassNameToRole;
  }

  /** With one A-class and one technical-support day, the order decides between main instructor and tutor. */
  lemma RoleTieExamples(a: AssignmentRecord, b: AssignmentRecord)
    requires a.className == Some("A반") && b.className == Some("기술지원")
    ensures Role([a, b]) == "주강사"
    ensures Role([b, a]) == "기술 튜터"
  {
    RoleTie(a, b);
    RoleTie(b, a);
    RoleNamesOfClasses();
  }

  /** A class met more often wins even when another was met first. */
  lemma RoleMajority(a: AssignmentRecord, b: AssignmentRecord, c: AssignmentRecord)
    requires a.className == Some("A반") && b.className == Some("기술지원") && c.className == Some("기술지원")
    ensures Role([a, b, c]) == "기술 튜터"
  {
    var s := [a, b, c];
    var A, T := Some("A반"), Some("기술지원");
    assert A != T;
    assert s[..2] == [a, b] && [a, b][..1] == [a] && [a][..0] == [];
    assert Count([a], A) == 1 && Count([a, b], A) == 1 && Count(s, A) == 1;
    assert Count([a], T) == 0 && Count([a, b], T) == 1 && Count(s, T) == 2;
    MostCommonMeaning(s);
    var i :| 0 <= i < |s| && s[i].className == MostCommon(s);
    assert Count(s, s[1].className) <= Count(s, MostCommon(s));
    assert MostCommon(s) == T;
    RoleNamesOfClasses();
  }

  /** Taking in one more key moves the choice to it only when its count is strictly larger. */
  lemma ArgMaxStep(s: seq<AssignmentRecord>, keys: seq<Option<string>>, j: int)
    requires 0 < j < |keys|
    ensures ArgMax(s, keys[..j + 1]) ==
      if Count(s, keys[j]) > Count(s, keys[ArgMax(s, keys[..j])]) then j else ArgMax(s, keys[..j])
  {
    assert keys[..j + 1][..j] == keys[..j];
  }

  /** The `counts` dict after counting `s`. */
  function Counts(s: seq<AssignmentRecord>): map<Option<string>, nat>
  {
    if s == [] then map[]
    else
      var m := Counts(s[..|s| - 1]);
      var cn := s[|s| - 1].className;
      m[cn := (if cn in m then m[cn] else 0) + 1]
  }

  /** The dict holds the class names that occur, each with the number of its occurrences. */
  lemma {:induction false} CountsMeaning(s: seq<AssignmentRecord>)
    ensures forall c :: c in Counts(s) <==> c in FirstSeen(s)
    ensures forall c :: c in Counts(s) ==> Counts(s)[c] == Count(s, c)
    ensures forall c :: c !in Counts(s) ==> Count(s, c) == 0
  {
    if s != [] {
      var t := s[..|s| - 1];
      CountsMeaning(t);
      forall c | c in Counts(s)
        ensures Counts(s)[c] == Count(s, c)
      {
        assert c in Counts(t) ==> Counts(t)[c] == Count(t, c);
      }
      forall c | c !in Counts(s)
        ensures Count(s, c) == 0
      {
        assert c !in Counts(t);
      }
    }
  }

  /** Counting one more assignment adds one to its class name and nothing to the others. */
  lemma CountStep(s: seq<AssignmentRecord>, i: int)
    requires 0 <= i < |s|
    ensures s[..i + 1][..i] == s[..i]
    ensures FirstSeen(s[..i + 1]) == if s[i].className in FirstSeen(s[..i]) then FirstSeen(s[..i]) else FirstSeen(s[..i]) + [s[i].className]
  {
    assert s[..i + 1][..i] == s[..i];
  }

  /** The counting loop of `_determine_role`: `counts[cn] = counts.get(cn, 0) + 1`, keys in insertion order. */
  method CountClasses(assignments: seq<AssignmentRecord>) returns (counts: map<Option<string>, nat>, keys: seq<Option<string>>)
    ensures counts == Counts(assignments) && keys == FirstSeen(assignments)
    ensures forall c :: c in counts <==> c in keys
    ensures forall c :: c in counts ==> counts[c] == Count(assignments, c)
  {
    counts := map[];
    keys := [];
    for i := 0 to |assignments|
      invariant keys == FirstSeen(assignments[..i])
      invariant counts == Counts(assignments[..i])
    {
      var cn := assignments[i].className;
      CountStep(assignments, i);
      counts := counts[cn := (if cn in counts then counts[cn] else 0) + 1];
      if cn !in keys {
        keys := keys + [cn];
      }
    }
    assert assignments[..|assignments|] == assignments;
    CountsMeaning(assignments);
  }

  /**
   * `_determine_role`: counts the class names in a dict that remembers the order keys were added,
   * then takes the first key with the largest count and maps it to a role.
   */
  method DetermineRole(assignments: seq<AssignmentRecord>) returns (role: string)
    ensures role == Role(assignments)
  {
    if |assignments| == 0 {
      return DefaultRole;
    }
    var counts, keys := CountClasses(assignments);
    FirstSeenMeaning(assignments);
    var best := 0;
    for j := 1 to |keys|
      invariant best == ArgMax(assignments, keys[..j])
    {
      ArgMaxStep(assignments, keys, j);
      assert keys[j] in keys && keys[best] in keys;
      if counts[keys[j]] > counts[keys[best]] {
        best := j;
      }
    }
    assert keys[..|keys|] == keys;
    role := RoleName(keys[best]);
  }

  // ---------------------------------------------------------------------------------------------
  // Pages

  /** Python's reading of a slice bound: a negative one counts from the end; both are clamped to [0, n]. */
  function SliceBound(i: int, n: nat): (b: nat)
    ensures b <= n
    ensures 0 <= i <= n ==> b == i
  {
    if i < 0 then (if i + n < 0 then 0 else i + n) else if i > n then n else i
  }

  /** `s[lo:hi]` under Python's rules for negative and out-of-range bounds. */
  function PySlice<T>(s: seq<T>, lo: int, hi: int): seq<T>
  {
    var a, b := SliceBound(lo, |s|), SliceBound(hi, |s|);
    if a < b then s[a..b] else []
  }

  /** `(total + page_size - 1) // page_size if page_size > 0 else 0`. */
  function TotalPages(total: nat, pageSize: int): nat
  {
    if pageSize > 0 then (total + pageSize - 1) / pageSize else 0
  }

  /** The page count is the ceiling of total / page_size: the last page is neither empty nor missing. */
  lemma TotalPagesIsCeiling(total: nat, pageSize: int)
    requires pageSize > 0
    ensures total == 0 ==> TotalPages(total, pageSize) == 0
    ensures total > 0 ==> (TotalPages(total, pageSize) - 1) * pageSize < total <= TotalPages(total, pageSize) * pageSize
  {
    var n := total + pageSize - 1;
    var q, r := n / pageSize, n % pageSize;
    assert n == q * pageSize + r && 0 <= r < pageSize;
    assert (q - 1) * pageSize == q * pageSize - pageSize;
  }

  /** The returned page: the slice of the sorted list it asks for, with the counts. */
  datatype CoursePage = CoursePage(items: seq<CourseItem>, total: nat, page: int, pageSize: int, totalPages: nat)

  /** Step 4 of the listing: `offset = (page - 1) * page_size`, `items = course_items[offset: offset + page_size]`. */
  function Paged(all: seq<CourseItem>, page: int, pageSize: int): CoursePage
  {
    var offset := (page - 1) * pageSize;
    CoursePage(PySlice(all, offset, offset + pageSize), |all|, page, pageSize, TotalPages(|all|, pageSize))
  }

  /** A slice starting at a non-negative offset: up to `count` entries from there, none past the end. */
  lemma SliceFrom<T>(s: seq<T>, offset: int, count: int)
    requires offset >= 0 && count >= 0
    ensures PySlice(s, offset, offset + count) ==
      if offset >= |s| then [] else s[offset..if offset + count <= |s| then offset + count else |s|]
    ensures |PySlice(s, offset, offset + count)| <= count
  {
  }

  /** The offset of a page from page 1 on is not negative. */
  lemma OffsetNonNegative(page: int, pageSize: int)
    requires page >= 1 && pageSize >= 0
    ensures (page - 1) * pageSize >= 0
  {
  }

  /**
   * From page 1 on, a page is the run of at most page_size entries starting at
   * (page - 1) * page_size, and empty once that start is past the end.
   */
  lemma PageSlice<T>(s: seq<T>, page: int, pageSize: int)
    requires page >= 1 && pageSize >= 0
    ensures var offset := (page - 1) * pageSize;
      PySlice(s, offset, offset + pageSize) ==
        if offset >= |s| then [] else s[offset..if offset + pageSize <= |s| then offset + pageSize else |s|]
    ensures |PySlice(s, (page - 1) * pageSize, (page - 1) * pageSize + pageSize)| <= pageSize
  {
    OffsetNonNegative(page, pageSize);
    SliceFrom(s, (page - 1) * pageSize, pageSize);
  }

  /** Page p starts inside a list of n entries exactly when p is at most the ceiling of n / size. */
  lemma StartInside(n: nat, page: int, pageSize: int)
    requires page >= 1 && pageSize > 0
    ensures (page - 1) * pageSize < n <==> page <= TotalPages(n, pageSize)
  {
    TotalPagesIsCeiling(n, pageSize);
    var tp := TotalPages(n, pageSize);
    if page <= tp {
      MulMonotone(page - 1, tp - 1, pageSize);
    } else {
      MulMonotone(tp, page - 1, pageSize);
    }
  }

  /** Multiplying by a non-negative factor keeps the order. */
  lemma MulMonotone(a: int, b: int, c: int)
    requires 0 <= a <= b && c >= 0
    ensures a * c <= b * c
  {
  }

  /** With a positive page size, exactly the pages 1 to total_pages hold entries. */
  lemma PagesHoldEntries<T>(s: seq<T>, page: int, pageSize: int)
    requires page >= 1 && pageSize > 0
    ensures |PySlice(s, (page - 1) * pageSize, (page - 1) * pageSize + pageSize)| > 0 <==>
              page <= TotalPages(|s|, pageSize)
  {
    PageSlice(s, page, pageSize);
    StartInside(|s|, page, pageSize);
  }

  /** Page 0 is always empty, while a negative page counts back from the end of the list. */
  lemma PagesBeforeTheFirst<T>(s: seq<T>, pageSize: int)
    requires pageSize > 0
    ensures PySlice(s, (0 - 1) * pageSize, (0 - 1) * pageSize + pageSize) == []
    ensures 2 * pageSize <= |s| ==>
      PySlice(s, (-1 - 1) * pageSize, (-1 - 1) * pageSize + pageSize) == s[|s| - 2 * pageSize..|s| - pageSize]
  {
  }

  // ---------------------------------------------------------------------------------------------
  // The course list

  /** One entry of `dates_list`: the assigned day, its day number in the course and the day's role. */
  datatype DayItem = DayItem(date: string, dayNumber: int, role: Option<string>)

  /** One entry of `course_items`. */
  datatype CourseItem = CourseItem(
    courseId: string,
    title: string,
    notionPageId: string,
    workbookFullUrl: Option<string>,
    status: Option<string>,
    students: Option<int>,
    lectureStart: Option<string>,
    lectureEnd: Option<string>,
    totalDates: nat,
    role: string,
    dates: seq<DayItem>)

  /** `str(x.get("date", ""))`, the key the assigned days are sorted by. */
  function AssignmentDate(a: AssignmentRecord): string
  {
    a.date
  }

  /** The date of an entry of `dates_list`. */
  function DayDate(d: DayItem): string
  {
    d.date
  }

  /** `str(x.get("lecture_start") or "")`, the key the courses are sorted by. */
  function LectureKey(c: CourseItem): string
  {
    if c.lectureStart.Some? then c.lectureStart.value else ""
  }

  /** `a["instructor_id"] == instructor_id`, as a predicate to filter with. */
  function ByInstructor(instructorId: string): AssignmentRecord -> bool
  {
    (a: AssignmentRecord) => a.instructorId == instructorId
  }

  /** The instructor's assignments, in stored order. */
  function Mine(items: seq<AssignmentRecord>, instructorId: string): seq<AssignmentRecord>
  {
    Filter(items, ByInstructor(instructorId))
  }

  /** The assignment is on a stored date of that course. */
  predicate OnCourse(ds: seq<CourseDateRecord>, courseId: string, a: AssignmentRecord)
  {
    exists d :: d in ds && d.id == a.courseDateId && d.courseId == courseId
  }

  /** `OnCourse` as a predicate to filter with. */
  function InCourse(ds: seq<CourseDateRecord>, courseId: string): AssignmentRecord -> bool
  {
    (a: AssignmentRecord) => OnCourse(ds, courseId, a)
  }

  /** `cd_info.get(id, {}).get("day_number", 0)`: the stored day number, or 0. */
  function DayNumberOf(ds: seq<CourseDateRecord>, id: string): int
  {
    var i := IndexOfKey(ds, CourseDateId, id);
    if i == -1 then 0 else ds[i].dayNumber
  }

  /** The `dates_list` entry of one assignment. */
  function DayOf(ds: seq<CourseDateRecord>): AssignmentRecord -> DayItem
  {
    (a: AssignmentRecord) => DayItem(a.date, DayNumberOf(ds, a.courseDateId), DateRole(a.className))
  }

  /** The instructor has at least one assignment on a date of the course. */
  ghost predicate Booked(course: CourseService.CourseRecord, mine: seq<AssignmentRecord>, ds: seq<CourseDateRecord>)
  {
    exists a :: a in mine && OnCourse(ds, course.id, a)
  }

  /** The entry step 3 builds for a course, as a value. */
  function ItemFor(course: CourseService.CourseRecord, mine: seq<AssignmentRecord>, ds: seq<CourseDateRecord>): CourseItem
  {
    var ca := Filter(mine, InCourse(ds, course.id));
    CourseItem(course.id, course.fields.title, course.fields.notionPageId, course.fields.workbookFullUrl,
      course.fields.status, course.fields.students, course.fields.lectureStart, course.fields.lectureEnd,
      |Filter(ds, OfCourse(course.id))|, Role(ca), Map(SortUp(ca, AssignmentDate), DayOf(ds)))
  }

  /** A course's days are in date order. */
  lemma ItemDaysSorted(course: CourseService.CourseRecord, mine: seq<AssignmentRecord>, ds: seq<CourseDateRecord>)
    ensures SortedUp(ItemFor(course, mine, ds).dates, DayDate)
  {
    var sorted := SortUp(Filter(mine, InCourse(ds, course.id)), AssignmentDate);
    var dates := Map(sorted, DayOf(ds));
    assert forall i :: 0 <= i < |dates| ==> DayDate(dates[i]) == AssignmentDate(sorted[i]);
  }

  /**
   * A course's days are the instructor's assignments on that course's stored dates, one day
   * per assignment, with each day's role; a course has days exactly when it is booked.
   */
  lemma ItemDaysMeaning(course: CourseService.CourseRecord, mine: seq<AssignmentRecord>, ds: seq<CourseDateRecord>)
    ensures var item := ItemFor(course, mine, ds);
      && |item.dates| == |Filter(mine, InCourse(ds, course.id))|
      && (forall day :: day in item.dates <==>
            exists a :: a in mine && OnCourse(ds, course.id, a) && day == DayOf(ds)(a))
      && (item.dates != [] <==> Booked(course, mine, ds))
  {
    var ca := Filter(mine, InCourse(ds, course.id));
    var sorted := SortUp(ca, AssignmentDate);
    var dates := Map(sorted, DayOf(ds));
    assert ItemFor(course, mine, ds).dates == dates;
    assert |sorted| == |multiset(sorted)| == |multiset(ca)| == |ca|;
    DaysOfAssignments(mine, ds, course.id, sorted);
    if Booked(course, mine, ds) {
      var a :| a in mine && OnCourse(ds, course.id, a);
      assert DayOf(ds)(a) in dates;
    }
    if dates != [] {
      assert dates[0] in dates;
    }
  }

  /** The days of any ordering of the assignments kept for a course. */
  lemma DaysOfAssignments(mine: seq<AssignmentRecord>, ds: seq<CourseDateRecord>, courseId: string, sorted: seq<AssignmentRecord>)
    requires multiset(sorted) == multiset(Filter(mine, InCourse(ds, courseId)))
    ensures forall day :: day in Map(sorted, DayOf(ds)) <==>
              exists a :: a in mine && OnCourse(ds, courseId, a) && day == DayOf(ds)(a)
  {
    var ca := Filter(mine, InCourse(ds, courseId));
    SameMembers(sorted, ca);
    forall day
      ensures day in Map(sorted, DayOf(ds)) ==> exists a :: a in mine && OnCourse(ds, courseId, a) && day == DayOf(ds)(a)
    {
      if day in Map(sorted, DayOf(ds)) {
        var a := MapMemberInverse(sorted, DayOf(ds), day);
        FilterMembership(mine, InCourse(ds, courseId), a);
      }
    }
    forall a | a in mine && OnCourse(ds, courseId, a)
      ensures DayOf(ds)(a) in Map(sorted, DayOf(ds))
    {
      FilterMembership(mine, InCourse(ds, courseId), a);
      MapMember(sorted, DayOf(ds), a);
    }
  }

  /** Every field of a course's entry comes from the stored course of that id. */
  lemma ItemForFields(course: CourseService.CourseRecord, mine: seq<AssignmentRecord>, ds: seq<CourseDateRecord>)
    ensures var item := ItemFor(course, mine, ds);
      && item.title == course.fields.title && item.notionPageId == course.fields.notionPageId
      && item.status == course.fields.status && item.students == course.fields.students
      && LectureKey(item) == (if course.fields.lectureStart.Some? then course.fields.lectureStart.value else "")
  {
  }

  /**
   * The sorted list step 3 builds, before it is cut into pages: one entry per booked course and
   * no other, no course twice, the newest lecture start first.
   */
  ghost predicate Listing(all: seq<CourseItem>, courses: seq<CourseService.CourseRecord>,
                          mine: seq<AssignmentRecord>, ds: seq<CourseDateRecord>)
  {
    && SortedDown(all, LectureKey)
    && (forall i, j :: 0 <= i < j < |all| ==> all[i].courseId != all[j].courseId)
    && (forall item :: item in all <==> exists c :: c in courses && Booked(c, mine, ds) && item == ItemFor(c, mine, ds))
  }

  /** Some listed course has that id. */
  ghost predicate Listed(courses: seq<CourseService.CourseRecord>, courseId: string)
  {
    exists c :: c in courses && c.id == courseId
  }

  /** The stored course date belongs to the instructor's assignments and its course is listed. */
  ghost predicate Reached(ds: seq<CourseDateRecord>, courses: seq<CourseService.CourseRecord>, cdIds: set<string>,
                          d: CourseDateRecord)
  {
    d in ds && d.id in cdIds && Listed(courses, d.courseId)
  }

  /** One more course lists one more id. */
  lemma ListedSnoc(courses: seq<CourseService.CourseRecord>, i: int)
    requires 0 <= i < |courses|
    ensures forall id :: Listed(courses[..i + 1], id) <==> Listed(courses[..i], id) || id == courses[i].id
  {
    assert courses[..i + 1] == courses[..i] + [courses[i]];
  }

  /** What `cd_to_course` and `cd_info` hold: stored course dates under their own ids, with their course. */
  ghost predicate Recorded(ds: seq<CourseDateRecord>, cdToCourse: map<string, string>, cdInfo: map<string, CourseDateRecord>)
  {
    && cdToCourse.Keys == cdInfo.Keys
    && forall x :: x in cdInfo ==> cdInfo[x] in ds && cdInfo[x].id == x && cdToCourse[x] == cdInfo[x].courseId
  }

  /** `course_id_set` holds exactly the courses of the recorded dates. */
  ghost predicate IdsOfRecorded(courseIdSet: set<string>, cdInfo: map<string, CourseDateRecord>)
  {
    forall c :: c in courseIdSet <==> exists x :: x in cdInfo && cdInfo[x].courseId == c
  }

  /** Recording one stored date of a course keeps the maps consistent and changes no earlier entry. */
  lemma RecordOne(ds: seq<CourseDateRecord>, courseId: string, cdToCourse: map<string, string>,
                  cdInfo: map<string, CourseDateRecord>, courseIdSet: set<string>, d: CourseDateRecord)
    requires UniqueBy(ds, CourseDateId) && d in ds && d.courseId == courseId
    requires Recorded(ds, cdToCourse, cdInfo)
    requires IdsOfRecorded(courseIdSet, cdInfo)
    ensures Recorded(ds, cdToCourse[d.id := courseId], cdInfo[d.id := d])
    ensures forall x :: x in cdInfo ==> cdInfo[d.id := d][x] == cdInfo[x]
    ensures IdsOfRecorded(courseIdSet + {courseId}, cdInfo[d.id := d])
  {
    if d.id in cdInfo {
      SameKeySame(ds, CourseDateId, cdInfo[d.id], d);
    }
    var m := cdInfo[d.id := d];
    assert forall x :: x in cdInfo ==> m[x] == cdInfo[x];
    forall c | c in courseIdSet
      ensures exists x :: x in m && m[x].courseId == c
    {
      var x :| x in cdInfo && cdInfo[x].courseId == c;
      assert m[x] == cdInfo[x];
    }
    assert m[d.id].courseId == courseId;
  }

  /**
   * The inner loop of step 2 for one course: each of its dates whose id is in `cd_ids` is
   * recorded, with the course added to `course_id_set`; what was recorded before stays.
   */
  method RecordDates(courseId: string, dates: seq<CourseDateRecord>, ds: seq<CourseDateRecord>, cdIds: set<string>,
                     cdToCourse0: map<string, string>, cdInfo0: map<string, CourseDateRecord>, courseIdSet0: set<string>)
      returns (cdToCourse: map<string, string>, cdInfo: map<string, CourseDateRecord>, courseIdSet: set<string>)
    requires UniqueBy(ds, CourseDateId)
    requires forall d :: d in dates ==> d in ds && d.courseId == courseId
    requires Recorded(ds, cdToCourse0, cdInfo0)
    requires IdsOfRecorded(courseIdSet0, cdInfo0)
    ensures Recorded(ds, cdToCourse, cdInfo)
    ensures IdsOfRecorded(courseIdSet, cdInfo)
    ensures forall x :: x in cdInfo0 ==> x in cdInfo && cdInfo[x] == cdInfo0[x]
    ensures forall d :: d in dates && d.id in cdIds ==> d.id in cdInfo && cdInfo[d.id] == d
    ensures forall x :: x in cdInfo ==> x in cdInfo0 || (x in cdIds && cdInfo[x].courseId == courseId)
  {
    cdToCourse, cdInfo, courseIdSet := cdToCourse0, cdInfo0, courseIdSet0;
    for j := 0 to |dates|
      invariant Recorded(ds, cdToCourse, cdInfo)
      invariant forall x :: x in cdInfo0 ==> x in cdInfo && cdInfo[x] == cdInfo0[x]
      invariant forall d :: d in dates[..j] && d.id in cdIds ==> d.id in cdInfo && cdInfo[d.id] == d
      invariant forall x :: x in cdInfo ==> x in cdInfo0 || (x in cdIds && cdInfo[x].courseId == courseId)
      invariant IdsOfRecorded(courseIdSet, cdInfo)
    {
      var d := dates[j];
      assert dates[..j + 1] == dates[..j] + [d];
      if d.id in cdIds {
        RecordOne(ds, courseId, cdToCourse, cdInfo, courseIdSet, d);
        cdToCourse := cdToCourse[d.id := courseId];
        cdInfo := cdInfo[d.id := d];
        courseIdSet := courseIdSet + {courseId};
      }
    }
    assert dates[..|dates|] == dates;
  }

  /**
   * Step 2: for every course, its stored dates whose id is one of `cd_ids` are recorded in
   * `cd_to_course` and `cd_info`, and the course in `course_id_set`.
   */
  method ScanCourseDates(courses: seq<CourseService.CourseRecord>, dateRepo: FakeCourseDateRepository, cdIds: set<string>)
      returns (cdToCourse: map<string, string>, cdInfo: map<string, CourseDateRecord>, courseIdSet: set<string>)
    requires dateRepo.Valid()
    ensures Recorded(dateRepo.items, cdToCourse, cdInfo)
    ensures forall x :: x in cdInfo ==> Reached(dateRepo.items, courses, cdIds, cdInfo[x])
    ensures forall d :: Reached(dateRepo.items, courses, cdIds, d) ==> d.id in cdInfo && cdInfo[d.id] == d
    ensures IdsOfRecorded(courseIdSet, cdInfo)
  {
    var ds := dateRepo.items;
    cdToCourse, cdInfo, courseIdSet := map[], map[], {};
    for i := 0 to |courses|
      invariant Recorded(ds, cdToCourse, cdInfo)
      invariant forall x :: x in cdInfo ==> Reached(ds, courses[..i], cdIds, cdInfo[x])
      invariant forall d :: Reached(ds, courses[..i], cdIds, d) ==> d.id in cdInfo && cdInfo[d.id] == d
      invariant IdsOfRecorded(courseIdSet, cdInfo)
    {
      var course := courses[i];
      var dates := dateRepo.ListDatesByCourse(course.id);
      cdToCourse, cdInfo, courseIdSet := RecordDates(course.id, dates, ds, cdIds, cdToCourse, cdInfo, courseIdSet);
      ListedSnoc(courses, i);
    }
    assert courses[..|courses|] == courses;
  }

  /** `cd_to_course.get(a["course_date_id"]) == course_id`, as a predicate to filter with. */
  function MappedTo(cdToCourse: map<string, string>, courseId: string): AssignmentRecord -> bool
  {
    (a: AssignmentRecord) => a.courseDateId in cdToCourse && cdToCourse[a.courseDateId] == courseId
  }

  /** On the instructor's assignments, the recorded course of a date is its stored course. */
  lemma MappedIsInCourse(mine: seq<AssignmentRecord>, ds: seq<CourseDateRecord>, cdToCourse: map<string, string>,
                         cdInfo: map<string, CourseDateRecord>, courseId: string)
    requires UniqueBy(ds, CourseDateId) && Recorded(ds, cdToCourse, cdInfo)
    requires forall a, d :: a in mine && d in ds && d.id == a.courseDateId && d.courseId == courseId ==> d.id in cdInfo
    ensures Filter(mine, MappedTo(cdToCourse, courseId)) == Filter(mine, InCourse(ds, courseId))
  {
    forall a | a in mine
      ensures MappedTo(cdToCourse, courseId)(a) == InCourse(ds, courseId)(a)
    {
      if MappedTo(cdToCourse, courseId)(a) {
        assert cdInfo[a.courseDateId] in ds;
      }
      if OnCourse(ds, courseId, a) {
        var d :| d in ds && d.id == a.courseDateId && d.courseId == courseId;
        SameKeySame(ds, CourseDateId, cdInfo[d.id], d);
      }
    }
    FilterCongruentOn(mine, MappedTo(cdToCourse, courseId), InCourse(ds, courseId));
  }

  /** Every assignment kept for a course has its date recorded, with the stored day number. */
  lemma DayNumbersRecorded(mine: seq<AssignmentRecord>, ds: seq<CourseDateRecord>, cdToCourse: map<string, string>,
                           cdInfo: map<string, CourseDateRecord>, courseId: string, sorted: seq<AssignmentRecord>)
    requires UniqueBy(ds, CourseDateId) && Recorded(ds, cdToCourse, cdInfo)
    requires multiset(sorted) == multiset(Filter(mine, MappedTo(cdToCourse, courseId)))
    ensures forall a :: a in sorted ==>
              a.courseDateId in cdInfo && cdInfo[a.courseDateId].dayNumber == DayNumberOf(ds, a.courseDateId)
  {
    SameMembers(sorted, Filter(mine, MappedTo(cdToCourse, courseId)));
    forall a | a in sorted
      ensures a.courseDateId in cdInfo && cdInfo[a.courseDateId].dayNumber == DayNumberOf(ds, a.courseDateId)
    {
      FilterMembership(mine, MappedTo(cdToCourse, courseId), a);
      StoredKeyValue(ds, CourseDateId, cdInfo[a.courseDateId]);
    }
  }

  /** The loop over `sorted_assignments` that builds `dates_list`, reading day numbers from `cd_info`. */
  method DaysInOrder(sorted: seq<AssignmentRecord>, ds: seq<CourseDateRecord>, cdInfo: map<string, CourseDateRecord>)
      returns (dates: seq<DayItem>)
    requires forall a :: a in sorted ==>
               a.courseDateId in cdInfo && cdInfo[a.courseDateId].dayNumber == DayNumberOf(ds, a.courseDateId)
    ensures dates == Map(sorted, DayOf(ds))
  {
    dates := [];
    for j := 0 to |sorted|
      invariant dates == Map(sorted[..j], DayOf(ds))
    {
      var a := sorted[j];
      var dayNumber := if a.courseDateId in cdInfo then cdInfo[a.courseDateId].dayNumber else 0;
      assert a in sorted;
      assert DayItem(a.date, dayNumber, DateRole(a.className)) == DayOf(ds)(a);
      assert sorted[..j + 1] == sorted[..j] + [a];
      MapSnoc(sorted[..j], a, DayOf(ds));
      dates := dates + [DayItem(a.date, dayNumber, DateRole(a.className))];
    }
    assert sorted[..|sorted|] == sorted;
  }

  /** Step 3 for one course: its assignments, role, days in date order and total day count. */
  method BuildItem(course: CourseService.CourseRecord, mine: seq<AssignmentRecord>, dateRepo: FakeCourseDateRepository,
                   cdToCourse: map<string, string>, cdInfo: map<string, CourseDateRecord>)
      returns (item: CourseItem)
    requires dateRepo.Valid() && Recorded(dateRepo.items, cdToCourse, cdInfo)
    requires forall a, d :: a in mine && d in dateRepo.items && d.id == a.courseDateId && d.courseId == course.id ==>
               d.id in cdInfo
    ensures item == ItemFor(course, mine, dateRepo.items)
  {
    var ds := dateRepo.items;
    MappedIsInCourse(mine, ds, cdToCourse, cdInfo, course.id);
    var courseAssignments := Filter(mine, MappedTo(cdToCourse, course.id));
    var role := DetermineRole(courseAssignments);
    var sorted := SortUp(courseAssignments, AssignmentDate);
    DayNumbersRecorded(mine, ds, cdToCourse, cdInfo, course.id, sorted);
    var dates := DaysInOrder(sorted, ds, cdInfo);
    var allDates := dateRepo.ListDatesByCourse(course.id);
    item := CourseItem(course.id, course.fields.title, course.fields.notionPageId, course.fields.workbookFullUrl,
      course.fields.status, course.fields.students, course.fields.lectureStart, course.fields.lectureEnd,
      |allDates|, role, dates);
  }

  // ---------------------------------------------------------------------------------------------
  // Steps 2 and 3 together: which courses get an entry

  /** A course is scanned into `course_id_set` exactly when the instructor is booked on it. */
  lemma ScannedIffBooked(courses: seq<CourseService.CourseRecord>, mine: seq<AssignmentRecord>, ds: seq<CourseDateRecord>,
                         cdIds: set<string>, cdToCourse: map<string, string>, cdInfo: map<string, CourseDateRecord>,
                         courseIdSet: set<string>, c: CourseService.CourseRecord)
    requires c in courses && cdIds == set a | a in mine :: a.courseDateId
    requires Recorded(ds, cdToCourse, cdInfo)
    requires forall x :: x in cdInfo ==> Reached(ds, courses, cdIds, cdInfo[x])
    requires forall d :: Reached(ds, courses, cdIds, d) ==> d.id in cdInfo && cdInfo[d.id] == d
    requires IdsOfRecorded(courseIdSet, cdInfo)
    ensures c.id in courseIdSet <==> Booked(c, mine, ds)
  {
    if c.id in courseIdSet {
      var x :| x in cdInfo && cdInfo[x].courseId == c.id;
      var d := cdInfo[x];
      assert Reached(ds, courses, cdIds, d);
      var a :| a in mine && a.courseDateId == d.id;
      assert OnCourse(ds, c.id, a);
    }
    if Booked(c, mine, ds) {
      var a :| a in mine && OnCourse(ds, c.id, a);
      var d :| d in ds && d.id == a.courseDateId && d.courseId == c.id;
      assert Listed(courses, d.courseId);
      assert Reached(ds, courses, cdIds, d);
      assert cdInfo[d.id].courseId == c.id;
    }
  }

  /** Every id in `course_id_set` is a listed course. */
  lemma ScannedAreListed(courses: seq<CourseService.CourseRecord>, ds: seq<CourseDateRecord>, cdIds: set<string>,
                         cdInfo: map<string, CourseDateRecord>, courseIdSet: set<string>, id: string)
    requires forall x :: x in cdInfo ==> Reached(ds, courses, cdIds, cdInfo[x])
    requires IdsOfRecorded(courseIdSet, cdInfo) && id in courseIdSet
    ensures Listed(courses, id)
  {
    var x :| x in cdInfo && cdInfo[x].courseId == id;
    assert Reached(ds, courses, cdIds, cdInfo[x]);
  }

  /** Every stored date of a listed course that one of the instructor's assignments is on was recorded. */
  lemma ScanCoversCourse(courses: seq<CourseService.CourseRecord>, mine: seq<AssignmentRecord>, ds: seq<CourseDateRecord>,
                         cdIds: set<string>, cdInfo: map<string, CourseDateRecord>, course: CourseService.CourseRecord)
    requires course in courses && cdIds == set a | a in mine :: a.courseDateId
    requires forall d :: Reached(ds, courses, cdIds, d) ==> d.id in cdInfo && cdInfo[d.id] == d
    ensures forall a, d :: a in mine && d in ds && d.id == a.courseDateId && d.courseId == course.id ==> d.id in cdInfo
  {
    forall a, d | a in mine && d in ds && d.id == a.courseDateId && d.courseId == course.id
      ensures d.id in cdInfo
    {
      assert Listed(courses, d.courseId);
      assert Reached(ds, courses, cdIds, d);
    }
  }

  /**
   * What the entries built so far hold: one entry per handled id that names a listed course,
   * built for that course, and no course twice.
   */
  ghost predicate Built(items: seq<CourseItem>, courses: seq<CourseService.CourseRecord>, done: set<string>,
                        mine: seq<AssignmentRecord>, ds: seq<CourseDateRecord>)
  {
    && (forall i :: 0 <= i < |items| ==> items[i].courseId in done)
    && (forall i, j :: 0 <= i < j < |items| ==> items[i].courseId != items[j].courseId)
    && (forall item :: item in items <==> exists c :: c in courses && c.id in done && item == ItemFor(c, mine, ds))
  }

  /** Handling a listed course that was not handled before appends its entry. */
  lemma BuiltStep(items: seq<CourseItem>, courses: seq<CourseService.CourseRecord>, done: set<string>,
                  mine: seq<AssignmentRecord>, ds: seq<CourseDateRecord>, course: CourseService.CourseRecord)
    requires UniqueBy(courses, CourseService.CourseId) && Built(items, courses, done, mine, ds)
    requires course in courses && course.id !in done
    ensures Built(items + [ItemFor(course, mine, ds)], courses, done + {course.id}, mine, ds)
  {
    var next := items + [ItemFor(course, mine, ds)];
    forall item
      ensures item in next <==> exists c :: c in courses && c.id in done + {course.id} && item == ItemFor(c, mine, ds)
    {
      if exists c :: c in courses && c.id in done + {course.id} && item == ItemFor(c, mine, ds) {
        var c :| c in courses && c.id in done + {course.id} && item == ItemFor(c, mine, ds);
        if c.id == course.id {
          SameKeySame(courses, CourseService.CourseId, c, course);
        }
      }
    }
  }

  /** An id that names no listed course adds no entry. */
  lemma BuiltSkip(items: seq<CourseItem>, courses: seq<CourseService.CourseRecord>, done: set<string>,
                  mine: seq<AssignmentRecord>, ds: seq<CourseDateRecord>, id: string)
    requires Built(items, courses, done, mine, ds)
    requires forall c :: c in courses ==> c.id != id
    ensures Built(items, courses, done + {id}, mine, ds)
  {
  }

  /** The course the entry is for. */
  function ItemCourseId(item: CourseItem): string
  {
    item.courseId
  }

  /** `list_assignments(filters={"instructor_id": instructor_id})` keeps exactly the instructor's assignments. */
  lemma InstructorFilter(items: seq<AssignmentRecord>, instructorId: string, filters: seq<(Field, string)>)
    requires filters == [(InstructorIdField, instructorId)]
    ensures Filter(items, Matching(filters)) == Mine(items, instructorId)
  {
    forall a
      ensures MatchesAll(a, filters) == ByInstructor(instructorId)(a)
    {
      if a.instructorId != instructorId {
        assert FieldText(a, filters[0].0) != filters[0].1;
      }
    }
    FilterCongruent(items, Matching(filters), ByInstructor(instructorId));
  }

  /** Entries built for every scanned course, sorted by lecture start, newest first, are the listing. */
  lemma BuiltIsListing(items: seq<CourseItem>, sorted: seq<CourseItem>, courses: seq<CourseService.CourseRecord>,
                       mine: seq<AssignmentRecord>, ds: seq<CourseDateRecord>, courseIdSet: set<string>)
    requires forall c :: c in courses ==> (c.id in courseIdSet <==> Booked(c, mine, ds))
    requires Built(items, courses, courseIdSet, mine, ds)
    requires sorted == SortDown(items, LectureKey)
    ensures Listing(sorted, courses, mine, ds)
  {
    assert forall i, j :: 0 <= i < j < |items| ==> ItemCourseId(items[i]) != ItemCourseId(items[j]);
    PermutationKeepsDistinct(sorted, items, ItemCourseId);
    assert forall i, j :: 0 <= i < j < |sorted| ==> sorted[i].courseId != sorted[j].courseId;
    SameMembers(sorted, items);
    BuiltMembers(items, courses, mine, ds, courseIdSet);
  }

  /** With every scanned course handled, the entries are those of the booked courses. */
  lemma BuiltMembers(items: seq<CourseItem>, courses: seq<CourseService.CourseRecord>,
                     mine: seq<AssignmentRecord>, ds: seq<CourseDateRecord>, courseIdSet: set<string>)
    requires forall c :: c in courses ==> (c.id in courseIdSet <==> Booked(c, mine, ds))
    requires forall item :: item in items <==> exists c :: c in courses && c.id in courseIdSet && item == ItemFor(c, mine, ds)
    ensures forall item :: item in items <==> exists c :: c in courses && Booked(c, mine, ds) && item == ItemFor(c, mine, ds)
  {
    forall item
      ensures item in items <==> exists c :: c in courses && Booked(c, mine, ds) && item == ItemFor(c, mine, ds)
    {
      if item in items {
        var c :| c in courses && c.id in courseIdSet && item == ItemFor(c, mine, ds);
        assert c in courses && Booked(c, mine, ds) && item == ItemFor(c, mine, ds);
      }
      if exists c :: c in courses && Booked(c, mine, ds) && item == ItemFor(c, mine, ds) {
        var c :| c in courses && Booked(c, mine, ds) && item == ItemFor(c, mine, ds);
        assert c in courses && c.id in courseIdSet && item == ItemFor(c, mine, ds);
      }
    }
  }

  /** The page `list_courses_for_instructor` returns when none is asked for. */
  const DefaultPage: int := 1

  /** The page size `list_courses_for_instructor` uses when none is asked for. */
  const DefaultPageSize: int := 10

  class InstructorCourseService {
    const assignmentRepo: FakeAssignmentRepository
    const courseRepo: CourseService.CourseTable
    const dateRepo: FakeCourseDateRepository

    constructor (assignmentRepo: FakeAssignmentRepository, courseRepo: CourseService.CourseTable,
                 dateRepo: FakeCourseDateRepository)
      ensures this.assignmentRepo == assignmentRepo && this.courseRepo == courseRepo && this.dateRepo == dateRepo
    {
      this.assignmentRepo := assignmentRepo;
      this.courseRepo := courseRepo;
      this.dateRepo := dateRepo;
    }

    /** One turn of step 3: the entry of the course with that id, if a course has it. */
    method AddCourse(courseId: string, items: seq<CourseItem>, ghost done: set<string>,
                     courses: seq<CourseService.CourseRecord>, mine: seq<AssignmentRecord>, cdIds: set<string>,
                     cdToCourse: map<string, string>, cdInfo: map<string, CourseDateRecord>)
        returns (next: seq<CourseItem>)
      requires courseRepo.Valid() && dateRepo.Valid() && courses == courseRepo.items
      requires cdIds == set a | a in mine :: a.courseDateId
      requires Recorded(dateRepo.items, cdToCourse, cdInfo)
      requires forall d :: Reached(dateRepo.items, courses, cdIds, d) ==> d.id in cdInfo && cdInfo[d.id] == d
      requires Built(items, courses, done, mine, dateRepo.items) && courseId !in done
      ensures Built(next, courses, done + {courseId}, mine, dateRepo.items)
    {
      var ds := dateRepo.items;
      var course := courseRepo.Get(courseId);
      if course.Some? {
        ScanCoversCourse(courses, mine, ds, cdIds, cdInfo, course.value);
        var item := BuildItem(course.value, mine, dateRepo, cdToCourse, cdInfo);
        BuiltStep(items, courses, done, mine, ds, course.value);
        next := items + [item];
      } else {
        BuiltSkip(items, courses, done, mine, ds, courseId);
        next := items;
      }
    }

    /** Step 3: one entry per id of `course_id_set` naming a stored course, in the set's order. */
    method BuildItems(courses: seq<CourseService.CourseRecord>, mine: seq<AssignmentRecord>, cdIds: set<string>,
                      cdToCourse: map<string, string>, cdInfo: map<string, CourseDateRecord>, courseIdSet: set<string>)
        returns (items: seq<CourseItem>)
      requires courseRepo.Valid() && dateRepo.Valid() && courses == courseRepo.items
      requires cdIds == set a | a in mine :: a.courseDateId
      requires Recorded(dateRepo.items, cdToCourse, cdInfo)
      requires forall d :: Reached(dateRepo.items, courses, cdIds, d) ==> d.id in cdInfo && cdInfo[d.id] == d
      ensures Built(items, courses, courseIdSet, mine, dateRepo.items)
    {
      var ds := dateRepo.items;
      items := [];
      var remaining := courseIdSet;
      ghost var done: set<string> := {};
      while remaining != {}
        invariant remaining <= courseIdSet && done == courseIdSet - remaining
        invariant Built(items, courses, done, mine, ds)
        decreases remaining
      {
        var courseId :| courseId in remaining;
        items := AddCourse(courseId, items, done, courses, mine, cdIds, cdToCourse, cdInfo);
        remaining := remaining - {courseId};
        done := done + {courseId};
      }
    }

    /**
     * `list_courses_for_instructor`: no assignments give an empty first answer with no pages;
     * otherwise the entries of every course the instructor is booked on, each once, newest
     * lecture start first, cut to the requested page. The source's defaults, page 1 of 10
     * entries, are `DefaultPage` and `DefaultPageSize`; callers here pass both.
     */
    method ListCoursesForInstructor(instructorId: string, page: int, pageSize: int)
        returns (result: CoursePage, ghost all: seq<CourseItem>)
      requires courseRepo.Valid() && dateRepo.Valid()
      ensures var mine := Mine(assignmentRepo.items, instructorId);
        && (mine == [] ==> result == CoursePage([], 0, page, pageSize, 0))
        && (mine != [] ==> Listing(all, courseRepo.items, mine, dateRepo.items) && result == Paged(all, page, pageSize))
    {
      var filters := [(InstructorIdField, instructorId)];
      var mine := assignmentRepo.ListAssignments(filters);
      InstructorFilter(assignmentRepo.items, instructorId, filters);
      if mine == [] {
        return CoursePage([], 0, page, pageSize, 0), [];
      }
      var cdIds := set a | a in mine :: a.courseDateId;
      var courses := courseRepo.items;
      var ds := dateRepo.items;
      var cdToCourse, cdInfo, courseIdSet := ScanCourseDates(courses, dateRepo, cdIds);

      var items := BuildItems(courses, mine, cdIds, cdToCourse, cdInfo, courseIdSet);
      var sorted := SortDown(items, LectureKey);
      forall c | c in courses
        ensures c.id in courseIdSet <==> Booked(c, mine, ds)
      {
        ScannedIffBooked(courses, mine, ds, cdIds, cdToCourse, cdInfo, courseIdSet, c);
      }
      BuiltIsListing(items, sorted, courses, mine, ds, courseIdSet);
      all := sorted;

      var total := |sorted|;
      var offset := (page - 1) * pageSize;
      var totalPages := TotalPages(total, pageSize);
      result := CoursePage(PySlice(sorted, offset, offset + pageSize), total, page, pageSize, totalPages);
    }
  }
}

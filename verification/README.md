# Tutor scheduler, modelled in Dafny

This project models the scheduling logic of a tutor scheduler. The system is an admin and
instructor web application: a React front end over a FastAPI back end, with Notion as the
source of courses, schedules and tutors. It covers:

- **Calendar grids** (`frontend/src/utils/date.ts`, copied into `Calendar.tsx` and
  `Availability.tsx`). A month is laid out in whole Sunday-first weeks and padded with days of
  the neighbouring months. Dates are `(year, month, day)` triples with a proleptic Gregorian
  day count; there are no JavaScript `Date` objects.
- **Calendar page** (`Calendar.tsx`). Covers the events of a day, the week view around a date,
  the chunking into weeks, the per-cell event limit, and the month cursor.
- **Availability pages** (`Availability.tsx`, `InstructorSchedule.tsx`). Covers the
  pending → available → unavailable status cycle, the rule that an assignment overrides any
  reported status, and the maps the pages build from their records. The mutations a click sends
  to the back end are kept as a call log.
- **Assignments page** (`Assignments.tsx`). Covers the after-the-fact detection of instructors
  booked twice on one date, and the course-date listing.
- **Pagination, the instructor list filter and the instructor's course list**
  (`Pagination.tsx`, `Instructors.tsx`, `InstructorCourses.tsx`).
- **Back-end services** (`assignment_service.py`, `availability_service.py`,
  `course_service.py`, `instructor_course_service.py`, `auth_service.py`). Each service is a
  class over the dict-backed repositories of the test suite. Each repository is a class holding
  a sequence of records, in insertion order, with unique ids.
- **Notion synchronisation** (`notion_sync_service.py`, `notion_course_repository.py`). Notion
  pages are values of a small JSON datatype. The `_extract_*` and `_parse_*` functions are total
  functions over it, and Python's `.get`, `or` and truthiness are written out.

Code that loops or updates state is modelled by methods with loops and `modifies` clauses. Each
method is proved against a specification function. What the source promises is proved about
those functions as lemmas.

## Model

| member | source | states |
|---|---|---|
| Dates.DaysInMonth | frontend/src/utils/date.ts:13 | Every month has 28 to 31 days (the day before the first of the next month). |
| Dates.PrevMonth | frontend/src/pages/Calendar.tsx:271-278 | The previous month is a month index 0..11; January steps back to December of the year before. |
| Dates.NextMonth | frontend/src/pages/Calendar.tsx:280-287 | The next month is a month index 0..11; December steps on to January of the next year. |
| Dates.MonthStepsInverse | frontend/src/pages/Calendar.tsx:271-287 | Going back a month and then forward, or forward and then back, returns to the same (year, month). |
| Dates.NextDay | backend/services/course_service.py:59 | The day after a valid date is a valid date strictly later than it. |
| Dates.NextDayNumber | backend/services/course_service.py:59 | The day after a date has the next day number, so stepping by one day never skips or repeats a day. |
| Dates.AddDays | frontend/src/utils/date.ts:17-25 | Moving a valid date forward by `k` days gives a valid date, in the same or a later year. |
| Dates.AddDaysNumber | frontend/src/utils/date.ts:17-25 | Moving forward `k` days adds exactly `k` to the day number. |
| Dates.Weekday | frontend/src/utils/date.ts:14 | `getDay()` is a weekday 0..6, Sunday first. |
| Dates.KnownWeekdays | frontend/src/utils/date.ts:14 | The weekday count is calibrated: 2000-01-01 is a Saturday and 2026-02-01 a Sunday. |
| Dates.MonthEnds | frontend/src/utils/date.ts:13 | Each month begins on the day after the previous month's last day; December ends where the next year begins. |
| Dates.DayNumberMonotone | backend/services/course_service.py:54 | A calendar-earlier date has a smaller day number. |
| Dates.DayNumberOrder | backend/services/course_service.py:54 | Valid dates with the same day number are equal, and `current <= end_date` is `<=` on day numbers. |
| Dates.ConsecutiveWithinEnds | frontend/src/pages/instructor/InstructorSchedule.tsx:23-24 | A run of consecutive dates stays between its first and last date. |
| Dates.ConsecutiveDistinct | frontend/src/utils/date.ts:17-25 | A run of consecutive dates holds no date twice. |
| Dates.TargetMonth | frontend/src/utils/date.ts:12 | `new Date(year, month, 1)` lands in a month 0..11; an out-of-range month carries into the year. |
| Dates.FormatDateStrDigits | frontend/src/utils/date.ts:7-9 | `formatDateStr` is the year, '-', a two-digit 1-based month, '-', a two-digit day. |
| Dates.FormatDateStrInjective | frontend/src/utils/date.ts:7-9 | Different valid dates format differently. |
| Dates.IsoFormat | backend/services/course_service.py:56 | Python `str(date)` for a year up to 9999: four year digits, a dash, the two digits of the 1-based month, a dash, the two day digits. |
| Dates.IsoFormatInjective | backend/services/course_service.py:56 | Different dates of years 1..9999 give different stored date strings. |
| Dates.IsoFormatIsFormatDateStr | frontend/src/utils/date.ts:7-9 | For years 1000..9999 the back end's `str(date)` and the front end's `formatDateStr` give the same string. |
| CalendarGrid.RoundUpToWeekFacts | frontend/src/utils/date.ts:24 | The padded length is the least multiple of 7 that is at least the unpadded length, less than a week beyond it. |
| CalendarGrid.Lead | frontend/src/utils/date.ts:14 | `startDow` is below 7. |
| CalendarGrid.GetCalendarDays | frontend/src/utils/date.ts:11-29 | The three push loops build exactly the month grid, and its length is a multiple of 7. |
| CalendarGrid.PushPrevious | frontend/src/utils/date.ts:16-19 | The first loop pushes `startDow` cells, which agree with the grid. |
| CalendarGrid.PushCurrent | frontend/src/utils/date.ts:20-23 | The second loop brings the grid to `startDow + daysInMonth` cells, which agree with the grid. |
| CalendarGrid.PushNext | frontend/src/utils/date.ts:24-27 | The third loop completes the grid. |
| CalendarGrid.GridLength | frontend/src/utils/date.ts:24-28 | The grid has whole weeks, 28 to 42 cells. |
| CalendarGrid.GridLeading | frontend/src/utils/date.ts:14-19 | The first `startDow` cells (fewer than 7) are days of the previous month, not current. |
| CalendarGrid.GridTrailing | frontend/src/utils/date.ts:24-27 | Fewer than 7 trailing cells; they are days 1, 2, … of the next month, not current. |
| CalendarGrid.GridCurrentMonth | frontend/src/utils/date.ts:20-23 | Exactly `daysInMonth` cells are current; a cell is current iff it lies at positions `startDow .. startDow+N-1`, and those hold days 1..N in order. |
| CalendarGrid.GridConsecutive | frontend/src/utils/date.ts:17-25 | Each cell holds the day after the previous cell's. |
| CalendarGrid.GridWeekdays | frontend/src/utils/date.ts:14-27 | The cell at position `k` falls on weekday `k % 7`, so every column is one weekday. |
| CalendarGrid.GridDateStrsDistinct | frontend/src/utils/date.ts:17-25 | No two cells share a `dateStr`, so it can key the cells. |
| CalendarGrid.February2026 | frontend/src/utils/date.ts:11-29 | February 2026 starts on a Sunday: exactly 28 cells, all current. |
| CalendarPage.ToEvent | frontend/src/pages/Calendar.tsx:73-86 | One event per assignment, carrying its id and class. A missing course gives title '-' in gray; a missing instructor gives name '-'. |
| CalendarPage.EventsForDateExact | frontend/src/pages/Calendar.tsx:66-87 | The events are those of the assignments on that date (and of that instructor unless 'all'), one per assignment, in input order. |
| CalendarPage.EventsForInstructorWithinAll | frontend/src/pages/Calendar.tsx:67-71 | Filtering by one instructor keeps exactly that instructor's share of the 'all' result. |
| CalendarPage.WeekViewContainsTarget | frontend/src/pages/Calendar.tsx:106-113 | The week view has at most 7 cells. It contains the target when the target is found, with 7 cells on a whole-week grid. Otherwise it is the first row. |
| CalendarPage.WeekViewIsRow | frontend/src/pages/Calendar.tsx:110-112 | A found target's week is the row starting at `floor(idx/7)*7`, which fits in the grid. |
| CalendarPage.WeekViewOfGridIsAWeek | frontend/src/pages/Calendar.tsx:106-113 | On a month grid, the week view of a found target runs Sunday to Saturday. |
| CalendarPage.ChunkWeeks | frontend/src/pages/Calendar.tsx:115-118 | The rows concatenate back to the cells. There are `ceil(n/7)` rows, all of 7 but possibly the last, and all of 7 on a whole-week grid. |
| CalendarPage.CellEventsAccounting | frontend/src/pages/Calendar.tsx:151-158 | The drawn events are a prefix. In month view at most 3 are drawn, and the drawn ones plus the `+N` marker account for all. Week view draws up to 6 and has no marker. |
| CalendarPage.MonthCursor.PrevMonth | frontend/src/pages/Calendar.tsx:271-278 | The cursor moves to the previous month, one month index back. |
| CalendarPage.MonthCursor.NextMonth | frontend/src/pages/Calendar.tsx:280-287 | The cursor moves to the next month, one month index on. |
| CalendarPage.PrevThenNext | frontend/src/pages/Calendar.tsx:271-287 | Pressing previous and then next returns the cursor to the same month. |
| CalendarPage.MonthCursor.constructor | frontend/src/pages/Calendar.tsx:271-287 | The cursor starts on the given (year, month) with a month index 0..11. |
| AvailabilityPage.IsAssigned | frontend/src/pages/Availability.tsx:52-54 | True iff some assignment has that instructor and that date. |
| AvailabilityPage.NextStatus | frontend/src/pages/Availability.tsx:90-94 | A click always changes the status; an absent status moves to available. |
| AvailabilityPage.StatusCycle | frontend/src/pages/Availability.tsx:90-94 | pending → available → unavailable → pending; three clicks return to the start. |
| AvailabilityPage.CycleStatus | frontend/src/pages/Availability.tsx:85-97 | On an assigned date the map is unchanged. Otherwise only the entry for that date changes (and is added when missing), to the next status. |
| AvailabilityPage.CycleThreeTimes | frontend/src/pages/Availability.tsx:85-97 | Three clicks restore the map, except that a date without an entry ends with an explicit 'pending'. |
| AvailabilityPage.Effective | frontend/src/pages/Availability.tsx:198-199 | 'assigned' iff assigned. Otherwise a reported status iff a record exists, and then the record's status. |
| AvailabilityPage.StatusByDateMeaning | frontend/src/pages/Availability.tsx:78-82 | A date has an entry iff the chosen instructor has a record on it; the entry is the status of the last such record. |
| AvailabilityPage.CollectStatuses | frontend/src/pages/Availability.tsx:78-82 | The collecting loop builds exactly that map. |
| AvailabilityPage.RegistrationView.constructor | frontend/src/pages/Availability.tsx:60-71 | The page opens on February 2026 with the first active instructor (or none) and that instructor's statuses. |
| AvailabilityPage.RegistrationView.HandleInstructorChange | frontend/src/pages/Availability.tsx:76-83 | Selects the instructor and rebuilds the map from that instructor's records only; the month is kept. |
| AvailabilityPage.RegistrationView.ClickDay | frontend/src/pages/Availability.tsx:153 | Only a current-month cell cycles its status; nothing else changes. |
| AvailabilityPage.RegistrationView.CellStatusOf | frontend/src/pages/Availability.tsx:144-145 | A cell shows 'assigned' iff the instructor is assigned that day, no status iff not assigned and the date has no entry, and otherwise the status stored for the date in the local map. |
| AvailabilityPage.AdminRows | frontend/src/pages/Availability.tsx:189-201 | One row per active instructor, in order. |
| AvailabilityPage.AdminRowMeaning | frontend/src/pages/Availability.tsx:189-201 | A row is 'assigned' iff the instructor is assigned that day. Its course list has one entry per assignment of the instructor that day, in order: the course's title, or '' when the course date or course is unknown. Otherwise it shows the first record's status, or none iff there is no record. |
| AvailabilityPage.AdminDatesMeaning | frontend/src/pages/Availability.tsx:187 | The admin date list holds every record date exactly once, in ascending order. |
| InstructorSchedule.GroupByDateMeaning | frontend/src/pages/instructor/InstructorSchedule.tsx:41-52 | A date is a key iff the instructor has an event on it. Its list is that date's events in input order, never empty. |
| InstructorSchedule.BuildAssignedMap | frontend/src/pages/instructor/InstructorSchedule.tsx:43-49 | The loop builds exactly that map. |
| InstructorSchedule.LastByDateMeaning | frontend/src/pages/instructor/InstructorSchedule.tsx:54-58 | A date is a key iff a record has it, and it maps to the last such record. |
| InstructorSchedule.BuildAvailMap | frontend/src/pages/instructor/InstructorSchedule.tsx:56 | The loop builds exactly that map. |
| InstructorSchedule.ClickMutations | frontend/src/pages/instructor/InstructorSchedule.tsx:74-84 | At most one call. None iff there is no instructor or the date is assigned. An upsert iff there is no record or the record says available; otherwise a delete. |
| InstructorSchedule.ThreeClicks | frontend/src/pages/instructor/InstructorSchedule.tsx:76-83 | From no record, three clicks send upsert(available), upsert(unavailable) and a delete of the created record, which restores the map. |
| InstructorSchedule.CellStatusMatchesClickGuard | frontend/src/pages/instructor/InstructorSchedule.tsx:142-145 | A cell shows 'assigned' exactly on the dates the click refuses to change. An unassigned cell shows no status iff no record has its date. |
| InstructorSchedule.CellShowsLastRecord | frontend/src/pages/instructor/InstructorSchedule.tsx:54-57 | An unassigned cell shows the status of the last record with its date, as `new Map(...)` keeps the last entry. |
| InstructorSchedule.SchedulePage.constructor | frontend/src/pages/instructor/InstructorSchedule.tsx:41-58 | The page starts with the two maps built from the fetched data and an empty call log. |
| InstructorSchedule.SchedulePage.HandleDayClick | frontend/src/pages/instructor/InstructorSchedule.tsx:74-84 | A click appends exactly its calls to the log and leaves both maps alone until refetched. |
| InstructorSchedule.SchedulePage.ClickDay | frontend/src/pages/instructor/InstructorSchedule.tsx:156 | A click on a current-month cell issues that day's calls. A click on a day of a neighbouring month issues none. Both maps are unchanged. |
| InstructorSchedule.SchedulePage.Refetch | frontend/src/pages/instructor/InstructorSchedule.tsx:54-58 | A refetch replaces `availMap` by the map of the back end's records. |
| InstructorSchedule.ComputeStats | frontend/src/pages/instructor/InstructorSchedule.tsx:87-98 | Every current-month day is counted once: assigned if it has events, else under its record's status or pending. The four counts add up to the number of current-month days. |
| InstructorSchedule.CountDay | frontend/src/pages/instructor/InstructorSchedule.tsx:88-96 | One pass of the counting loop adds the day to exactly the counter of its kind. |
| InstructorSchedule.QueryRangeOfGrid | frontend/src/pages/instructor/InstructorSchedule.tsx:23-24 | The fetch range is the first through the last `dateStr` of the grid, a Sunday to a Saturday. |
| InstructorSchedule.GridWithinEnds | frontend/src/pages/instructor/InstructorSchedule.tsx:23-24 | Every cell of the grid lies within that range. |
| AssignmentsPage.KeyInjective | frontend/src/pages/Assignments.tsx:17 | For ISO dates (no ':'), equal `date::instructor` keys mean the same date and instructor. |
| AssignmentsPage.KeyDate | frontend/src/pages/Assignments.tsx:17 | The date is what precedes the first ':' of a key. |
| AssignmentsPage.SetFacts | frontend/src/pages/Assignments.tsx:18 | `Map.set` gives the key its new value, keeps every other reading and the keys distinct, and shifts the total by the difference. |
| AssignmentsPage.SetGet | frontend/src/pages/Assignments.tsx:18 | After a `set`, that key reads the new value and every other key reads as before. |
| AssignmentsPage.GetAbsent | frontend/src/pages/Assignments.tsx:18 | `get(key) ?? 0` reads 0 for a key with no entry. |
| AssignmentsPage.DetectDuplicates | frontend/src/pages/Assignments.tsx:14-22 | Every assignment is counted, whatever its course. The counts sum to the number of assignments. A key is a duplicate iff two or more assignments carry it. |
| AssignmentsPage.DuplicateRowMeaning | frontend/src/pages/Assignments.tsx:71 | With the detected keys, a row is flagged iff another row has the same date and instructor (dates without ':'). |
| AssignmentsPage.DuplicatesMeaning | frontend/src/pages/Assignments.tsx:20-22 | Over complete counts, the keys counted more than once are exactly the keys carried at least twice. |
| AssignmentsPage.CountOne | frontend/src/pages/Assignments.tsx:16-19 | One pass of the counting loop adds one to the assignment's key and nothing else. |
| AssignmentsPage.RemoveOneOfTwo | frontend/src/pages/Assignments.tsx:21 | Removing one of exactly two assignments sharing a key stops that key being a duplicate. |
| AssignmentsPage.MockKeys | frontend/src/mocks/data.ts:108-121 | On the mock data every key is carried once, except inst-1 on 2026-02-18, carried twice. |
| AssignmentsPage.MockDuplicateCount | frontend/src/mocks/data.ts:113-120 | On the mock data `duplicateCount` is 1: only asgn-3 and asgn-8 collide. |
| AssignmentsPage.MockDates | frontend/src/mocks/data.ts:108-121 | Every mock assignment date is an ISO date without ':'. |
| AssignmentsPage.SortByDay | frontend/src/pages/Assignments.tsx:11 | The sort orders by day number and keeps the same elements. |
| AssignmentsPage.CourseDatesShownMeaning | frontend/src/pages/Assignments.tsx:9-11 | The shown dates are exactly the selected course's dates, as often as stored, in day order. |
| AssignmentsPage.ActiveCoursesMeaning | frontend/src/pages/Assignments.tsx:4 | The offered courses are exactly the stored ones not marked '완료', in stored order. |
| AssignmentsPage.InitialCourseId | frontend/src/pages/Assignments.tsx:7 | The id of the first stored course not marked '완료', or '' when every course is. |
| Pagination.PageList | frontend/src/components/Pagination.tsx:7-23 | Nothing iff at most one page. Up to 7 pages: exactly 1..n. Beyond 7: a well-shaped list of at most 9 items, where a middle page is listed iff it is within two of the current page. |
| Pagination.WindowedPages | frontend/src/components/Pagination.tsx:16-22 | Beyond 7 pages the list is 1, an optional '...', the window `max(2,p-2)..min(n-1,p+2)`, an optional '...', and n. |
| Pagination.WindowedMembers | frontend/src/components/Pagination.tsx:18-20 | A page strictly between the first and the last is listed iff it is within two of the current page. |
| Pagination.ShapeIncreasing | frontend/src/components/Pagination.tsx:16-22 | Listed page numbers strictly increase. |
| Pagination.ShapeBounds | frontend/src/components/Pagination.tsx:16-22 | Every listed page is in 1..n, and no two '...' are adjacent. |
| Pagination.CurrentPageShown | frontend/src/components/Pagination.tsx:18-20 | The current page, when in range, has its own button. |
| Pagination.PushWindow | frontend/src/components/Pagination.tsx:18-20 | The window loop appends the buttons `lo..hi`, or none when `lo > hi`. |
| Pagination.PrevTarget | frontend/src/components/Pagination.tsx:28-29 | Previous is disabled iff page ≤ 1, and otherwise goes one page back. |
| Pagination.NextTarget | frontend/src/components/Pagination.tsx:52-53 | Next is disabled iff page ≥ totalPages, and otherwise goes one page on. |
| InstructorsPage.KeepMeaning | frontend/src/pages/Instructors.tsx:102-114 | Kept iff the tab admits the instructor and the search is empty or hits the lower-cased name, email or specialty; a missing email or specialty never hits. |
| InstructorsPage.FilteredMeaning | frontend/src/pages/Instructors.tsx:102 | The shown instructors are the kept ones, an order-preserving subsequence of the stored list. |
| InstructorsPage.EmptySearchShowsAll | frontend/src/pages/Instructors.tsx:105-113 | With an empty search the 'all' tab shows every instructor. |
| InstructorsPage.TabsPartition | frontend/src/pages/Instructors.tsx:103-104 | For any search, the 'active' and 'inactive' results split the 'all' result. |
| InstructorsPage.SearchIgnoresCase | frontend/src/pages/Instructors.tsx:106 | Typing the query in lower case shows the same instructors. |
| InstructorCoursesPage.IsCompleted | frontend/src/pages/instructor/InstructorCourses.tsx:33-50 | Completed iff the status is result_report, lecture_finish or tax_invoice; a missing status is not. |
| InstructorCoursesPage.StatusBadge | frontend/src/pages/instructor/InstructorCourses.tsx:35-46 | '예정' for a missing or empty status, the table entry for a known one, else the raw status in gray (inherited object keys aside). |
| InstructorCoursesPage.BadgeMatchesCompletion | frontend/src/pages/instructor/InstructorCourses.tsx:33-50 | A completed course is labelled '완료' in green. A '완료' badge means completed, unless the raw status is itself '완료'. |
| InstructorCoursesPage.TabsSplitPage | frontend/src/pages/instructor/InstructorCourses.tsx:125-130 | 'all' shows the page unchanged. 'upcoming' and 'completed' put every item in exactly one of the two, keep the page order, and their counts add up. |
| InstructorCoursesPage.NoDataNoItems | frontend/src/pages/instructor/InstructorCourses.tsx:126 | Before the data arrives every tab is empty. |
| InstructorCoursesPage.PeriodOf | frontend/src/pages/instructor/InstructorCourses.tsx:56-60 | Both lecture bounds when both are non-empty, else first~last day when there are days, else '-'. |
| InstructorCoursesPage.CoursesView.SetFilter | frontend/src/pages/instructor/InstructorCourses.tsx:146 | Choosing a tab selects it and resets the page to 1. |
| InstructorCoursesPage.CoursesView.SetPage | frontend/src/pages/instructor/InstructorCourses.tsx:173 | The page selector changes only the page. |
| InstructorCoursesPage.CoursesView.constructor | frontend/src/pages/instructor/InstructorCourses.tsx:115-116 | The page opens on page 1 of the 'all' tab. |
| Keyed.IndexOfKey | backend/tests/fakes/fake_instructor_repository.py:16-17 | `store.get(id)` as a position: the first record with that key, or -1 when there is none. |
| Keyed.RemoveByKey | backend/tests/fakes/fake_instructor_repository.py:28-29 | Removing the record with a unique key leaves every other record, in order, and nothing else. |
| Keyed.ReplaceKeepsUnique | backend/tests/fakes/fake_availability_repository.py:47 | Replacing a record in place by one with the same key keeps the ids unique. |
| Keyed.AppendKeepsUnique | backend/tests/fakes/fake_availability_repository.py:32-33 | Adding a record under a fresh id keeps the ids unique. |
| AssignmentStore.FakeAssignmentRepository.ListByDateRange | backend/tests/fakes/fake_assignment_repository.py:12-16 | The rows whose date lies in [start, end], both ends included, in store order. |
| AssignmentStore.FakeAssignmentRepository.ListAssignments | backend/tests/fakes/fake_assignment_repository.py:18-23 | The rows whose printed column equals the printed value for every filter, in store order; no filters keep every row. |
| AssignmentStore.MatchingListing | backend/tests/fakes/fake_assignment_repository.py:20-22 | The rows a filter list keeps are those of the store that pass every filter. |
| AssignmentStore.NarrowBy | backend/tests/fakes/fake_assignment_repository.py:21-22 | One pass of the filter loop leaves the rows passing the filters seen so far. |
| AssignmentStore.FakeAssignmentRepository.constructor | backend/tests/fakes/fake_assignment_repository.py:8-10 | The store and the unique index start empty. |
| AssignmentStore.FakeAssignmentRepository.CreateAssignment | backend/tests/fakes/fake_assignment_repository.py:25-34 | On an indexed (instructor, date) key: DuplicateAssignmentError and no change. Otherwise one row under a fresh id is appended and its key indexed. The index stays the set of the rows' keys. |
| AssignmentStore.FakeAssignmentRepository.DeleteAssignment | backend/tests/fakes/fake_assignment_repository.py:36-42 | True iff the id was stored; then the row and its key are gone and all else is kept. False changes nothing. |
| AssignmentStore.KeysOfRemoved | backend/tests/fakes/fake_assignment_repository.py:38-40 | With unique keys, removing a row removes exactly its key from the index. |
| AssignmentStore.RebookAfterDelete | backend/tests/test_assignments.py:71-84 | After a delete, the same instructor can be booked on the same date again. |
| AssignmentService.AssignmentService.CreateAssignment | backend/services/assignment_service.py:24-32 | Refused with DuplicateAssignmentError, creating nothing, iff the instructor already has an assignment on that date. Otherwise exactly one assignment is created with the given data. |
| AssignmentService.BookTwice | backend/tests/test_assignments.py:21-58 | The same payload twice: accepted, then refused. The same instructor on another date, or another instructor on the same date, is accepted. |
| AssignmentService.AssignmentService.GetAvailableInstructors | backend/services/assignment_service.py:37-51 | The active instructors in stored order, minus those booked on the date and, when there is an availability repository, minus those with any record on it. The stores are unchanged. |
| AssignmentService.AvailableInstructorsMeaning | backend/services/assignment_service.py:48-51 | Kept iff active, unbooked, and (given records) without any record on the date; an order-preserving subsequence. |
| AssignmentService.InstructorIds | backend/services/assignment_service.py:40-46 | An id is in the set iff some row names that instructor. |
| AssignmentService.NoRecordsOnlyBookingsExclude | backend/services/assignment_service.py:43-46 | Without an availability repository only bookings exclude. |
| AssignmentService.MatchesSlot | backend/services/assignment_service.py:25-27 | The instructor-and-date filters pick exactly the rows of that instructor on that date. |
| AssignmentService.SingleDayRange | backend/services/assignment_service.py:45 | The range `(date, date)` holds exactly the records on that date. |
| AssignmentService.AvailableRecordHidesInstructor | backend/services/assignment_service.py:43-51 | As written, an active, unbooked instructor who marked the day 'available' is left out. |
| AssignmentService.AvailableInstructorsIntendedMeaning | backend/services/assignment_service.py:42-51 | The corrected list keeps exactly the active, unbooked instructors who have not said 'unavailable'. |
| AvailabilityStore.FakeAvailabilityRepository.ListByInstructor | backend/tests/fakes/fake_availability_repository.py:10-14 | That instructor's records, in store order. |
| AvailabilityStore.FakeAvailabilityRepository.ListByDateRange | backend/tests/fakes/fake_availability_repository.py:25-29 | The records with start ≤ date ≤ end, both ends included, in store order. |
| AvailabilityStore.FakeAvailabilityRepository.ListByInstructorAndDateRange | backend/tests/fakes/fake_availability_repository.py:16-23 | The intersection of the instructor filter and the range filter, in store order. |
| AvailabilityStore.FakeAvailabilityRepository.Create | backend/tests/fakes/fake_availability_repository.py:31-34 | Exactly one record under a fresh id is appended and returned; nothing else changes. |
| AvailabilityStore.FakeAvailabilityRepository.Upsert | backend/tests/fakes/fake_availability_repository.py:36-41 | The first record of the same instructor and date is overwritten in place and returned. Without one, a record is created. |
| AvailabilityStore.FakeAvailabilityRepository.Update | backend/tests/fakes/fake_availability_repository.py:43-48 | An unknown id gives None and no change. Otherwise only the supplied fields of that record change. |
| AvailabilityStore.FakeAvailabilityRepository.Delete | backend/tests/fakes/fake_availability_repository.py:50-51 | True iff the id was stored; then that record is gone and nothing else changes. |
| AvailabilityStore.Patched | backend/tests/fakes/fake_availability_repository.py:47 | `item.update(data)` changes only the supplied fields and keeps id, instructor and date. |
| AvailabilityService.AvailabilityService.Create | backend/services/availability_service.py:17-29 | With a record of the instructor on that date, the first such record gets the new status and reason and is returned, with nothing created. Otherwise one record is created. At most one record per (instructor, date) stays so. |
| AvailabilityService.FirstDateMatch | backend/services/availability_service.py:19-22 | The first of the instructor's records on the date is the store's first record of that slot. |
| AvailabilityService.NoDateMatch | backend/services/availability_service.py:29 | Without such a record, the store has no record of that slot, so the create adds the only one. |
| AvailabilityService.AvailabilityService.Delete | backend/services/availability_service.py:31-35 | True when the record was removed; otherwise a 404 and no change. |
| CourseDateStore.FakeCourseDateRepository.ListDatesByCourse | backend/tests/fakes/fake_course_date_repository.py:10-11 | Exactly the stored items with that course id, in store order. |
| CourseDateStore.FakeCourseDateRepository.CreateDates | backend/tests/fakes/fake_course_date_repository.py:13-19 | One item per entry, in entry order, each under its own fresh id, with the course id unless the entry overrides it. The store grows by exactly those items. |
| CourseDateStore.FakeCourseDateRepository.DeleteDate | backend/tests/fakes/fake_course_date_repository.py:21-22 | True iff the id was stored; only that item is removed. |
| CourseDateStore.Created | backend/tests/fakes/fake_course_date_repository.py:16 | The stored item carries the fresh id and the course id unless the entry has its own. |
| InstructorStore.FakeInstructorRepository.ListInstructors | backend/tests/fakes/fake_instructor_repository.py:10-14 | Everything for None; otherwise exactly those with that `is_active` flag, in store order. |
| InstructorStore.FakeInstructorRepository.GetInstructor | backend/tests/fakes/fake_instructor_repository.py:16-17 | The stored instructor with that id, or None for an unknown id. |
| InstructorStore.FakeInstructorRepository.CreateInstructor | backend/tests/fakes/fake_instructor_repository.py:19-22 | Exactly one instructor under a fresh id is appended and returned; nothing else changes. |
| InstructorStore.FakeInstructorRepository.UpdateInstructor | backend/tests/fakes/fake_instructor_repository.py:24-26 | The given fields are merged into that instructor and the rest is kept. An unknown id raises KeyError and changes nothing. |
| InstructorStore.FakeInstructorRepository.DeleteInstructor | backend/tests/fakes/fake_instructor_repository.py:28-29 | True iff the id was stored; afterwards a get finds nothing and the other instructors are kept. |
| InstructorStore.Merged | backend/tests/fakes/fake_instructor_repository.py:25 | `record.update(data)` takes each supplied field and keeps the others. |
| InstructorStore.EmptyPatchIsIdentity | backend/tests/fakes/fake_instructor_repository.py:25 | An empty update changes nothing. |
| InstructorStore.MergeTwice | backend/tests/fakes/fake_instructor_repository.py:25 | Two updates are one update, with the later fields winning. |
| InstructorStore.ActiveSplit | backend/tests/fakes/fake_instructor_repository.py:12-13 | The active and inactive lists split the full list. |
| CourseService.DayCount | backend/services/course_service.py:54 | The number of days from start to end, both included, or 0 when start is later. |
| CourseService.GenerateDates | backend/services/course_service.py:49-61 | One entry per day from start to end in ascending order, starting at start. Day numbers run 1..n. Nothing when start > end. A course that reaches 9999-12-31 fails with Python's OverflowError. |
| CourseService.Iteration | backend/services/course_service.py:55-60 | One loop pass appends the entry for the current day and advances the day and the day number. |
| CourseService.LoopExit | backend/services/course_service.py:54 | When the loop stops it has made one entry per day. |
| CourseService.LastDayIsEnd | backend/services/course_service.py:54-60 | The last entry is the end date. |
| CourseService.CourseLengths | backend/tests/test_courses.py:15-77 | 2026-03-10 to 2026-03-12 gives three dates numbered 1..3; a one-day course gives one. |
| CourseService.CourseTable.Get | backend/tests/fakes/fake_course_repository.py:13-14 | The stored course with that id, or None. |
| CourseService.CourseService.GetCourse | backend/services/course_service.py:22-26 | The course, or a 404 for an unknown id. |
| CourseService.CourseService.GetCourseDetail | backend/services/course_service.py:28-31 | The course, or a 404 iff it is unknown. Its dates are exactly `list_dates_by_course`: the stored dates of that course, in store order. |
| CourseService.Patched | backend/services/course_service.py:40-43 | A supplied title, status or target replaces the stored one. Every other field and the id stay as stored. |
| CourseService.CourseService.CreateCourse | backend/services/course_service.py:33-38 | Stores the course without its start and end date, then one course date per generated entry under the new id, numbered from 1. On the date overflow the course is stored and no date is. |
| CourseService.CourseService.UpdateCourse | backend/services/course_service.py:40-43 | A 404 without touching the store for an unknown id; otherwise the patched course. |
| CourseService.CourseService.DeleteCourse | backend/services/course_service.py:45-47 | A 404 without touching the store for an unknown id; otherwise true and the course is gone. |
| InstructorCourseService.DateRoleMeaning | backend/services/instructor_course_service.py:82 | A day's role is the mapped role of a known class, else the raw class name. |
| InstructorCourseService.RoleNameMeaning | backend/services/instructor_course_service.py:122-133 | A role is a mapped role or an unmapped non-empty class name; an empty or missing name gives '강사'. |
| InstructorCourseService.CountClasses | backend/services/instructor_course_service.py:128-131 | The counting loop gives each class name its number of occurrences, keys in first-seen order. |
| InstructorCourseService.CountsMeaning | backend/services/instructor_course_service.py:128-131 | The counts hold exactly the class names that occur, each with its count. |
| InstructorCourseService.ArgMax | backend/services/instructor_course_service.py:132 | `max(counts, key=…)` is the position of a largest count, the earliest on a tie. |
| InstructorCourseService.DetermineRole | backend/services/instructor_course_service.py:123-133 | '강사' for no assignments; otherwise the role of the most frequent class name, the first seen winning ties. |
| InstructorCourseService.MostCommonMeaning | backend/services/instructor_course_service.py:128-132 | The chosen class name occurs, none occurs more often, and every class name first seen before it occurs strictly less often. |
| InstructorCourseService.RoleTie | backend/services/instructor_course_service.py:132 | Two days of different classes tie, and the one met first gives the role. |
| InstructorCourseService.RoleTieExamples | backend/services/instructor_course_service.py:122-133 | One A-class day and one technical-support day: the order decides between '주강사' and '기술 튜터'. |
| InstructorCourseService.RoleNamesOfClasses | backend/services/instructor_course_service.py:8-12 | 'A반' is a '주강사' and '기술지원' a '기술 튜터'. |
| InstructorCourseService.RoleMajority | backend/services/instructor_course_service.py:132 | A class met more often wins even when another was met first. |
| InstructorCourseService.TotalPagesIsCeiling | backend/services/instructor_course_service.py:112 | total_pages is `ceil(total/page_size)` for a positive size, else 0. |
| InstructorCourseService.PageSlice | backend/services/instructor_course_service.py:110-111 | From page 1 on, a page is the run of at most page_size entries starting at `(page-1)*page_size`, empty past the end. |
| InstructorCourseService.PagesHoldEntries | backend/services/instructor_course_service.py:110-112 | With a positive page size, exactly pages 1..total_pages hold entries. |
| InstructorCourseService.PagesBeforeTheFirst | backend/services/instructor_course_service.py:110-111 | Page 0 is empty; a negative page slices from the end of the list. |
| InstructorCourseService.SliceBound | backend/services/instructor_course_service.py:111 | A Python slice bound counts back from the end when negative and is clamped to [0, n]. |
| InstructorCourseService.InstructorFilter | backend/services/instructor_course_service.py:31-33 | The instructor filter keeps exactly that instructor's assignments. |
| InstructorCourseService.ScanCourseDates | backend/services/instructor_course_service.py:49-55 | For every course, its dates whose id is among the instructor's are recorded with their course, and the course joins the set. |
| InstructorCourseService.RecordDates | backend/services/instructor_course_service.py:51-55 | The inner loop records each matching date of one course and keeps earlier records. |
| InstructorCourseService.ScannedIffBooked | backend/services/instructor_course_service.py:45-55 | A course enters `course_id_set` iff the instructor is booked on one of its dates. |
| InstructorCourseService.MappedIsInCourse | backend/services/instructor_course_service.py:53 | The recorded course of an assignment's date is the course that stores the date. |
| InstructorCourseService.DaysInOrder | backend/services/instructor_course_service.py:73-83 | The days loop makes one day per assignment, in the given order, with the recorded day number and the day's role. |
| InstructorCourseService.BuildItem | backend/services/instructor_course_service.py:60-100 | A course's entry has its fields, the role of its assignments, its days in date order and its stored date count. |
| InstructorCourseService.ItemDaysSorted | backend/services/instructor_course_service.py:74 | A course's days are in ascending date order. |
| InstructorCourseService.ItemDaysMeaning | backend/services/instructor_course_service.py:65-83 | A course's days are the instructor's assignments on that course's dates, one each with its role. A course has days iff it is booked. |
| InstructorCourseService.ItemForFields | backend/services/instructor_course_service.py:88-99 | Every field of an entry comes from the stored course with that id. |
| InstructorCourseService.InstructorCourseService.AddCourse | backend/services/instructor_course_service.py:59-62 | One turn of step 3: the entry of the course with that id, or nothing when no course has it. |
| InstructorCourseService.InstructorCourseService.BuildItems | backend/services/instructor_course_service.py:58-100 | One entry per id of `course_id_set` naming a stored course, in the set's order. |
| InstructorCourseService.BuiltIsListing | backend/services/instructor_course_service.py:103-106 | The built entries, sorted by lecture start newest first (a missing start read as ''), are the listing. |
| InstructorCourseService.BuiltMembers | backend/services/instructor_course_service.py:58-100 | With every scanned course handled, the entries are exactly those of the booked courses, each once. |
| InstructorCourseService.InstructorCourseService.ListCoursesForInstructor | backend/services/instructor_course_service.py:26-120 | No assignments: no items, total 0, 0 pages. Otherwise the page of the listing of the booked courses, with the total and `ceil(total/size)` pages. |
| NotionJson.JoinPlain | backend/services/notion_sync_service.py:218 | Joining no fragments gives ''; one fragment gives its text. |
| NotionJson.JoinPlainEmpty | backend/services/notion_sync_service.py:218 | The joined text is empty iff every fragment's text is. |
| NotionJson.OrNone | backend/services/notion_sync_service.py:359-362 | `x or None`: None iff the string is empty, else the string. |
| NotionSync.ExtractTyped | backend/services/notion_sync_service.py:214-227 | The joined text of the first key whose property has the type and a non-empty list, else ''. |
| NotionSync.ExtractTypedFirst | backend/services/notion_sync_service.py:215-218 | A later key is read only when no earlier key holds text of that type. |
| NotionSync.ExtractText | backend/services/notion_sync_service.py:230-234 | The title text when non-empty, otherwise the rich text. |
| NotionSync.ExtractScalar | backend/services/notion_sync_service.py:237-248 | For a truthy property of the type (email or phone_number), its value as text. Any other property gives ''. A non-empty result is that property's string. |
| NotionSync.ExtractSelect | backend/services/notion_sync_service.py:251-257 | '' for a falsy property, otherwise the name `SelectName` reads from it. A non-empty result comes from a `select` or `status` property. |
| NotionSync.SelectName | backend/services/notion_sync_service.py:251-257 | The option name of a truthy `select`. Failing that, the option name of a truthy `status`. Failing both, ''. |
| NotionSync.SelectReadsBoth | backend/services/notion_sync_service.py:253-256 | A status given as `select` and as `status` reads the same name. |
| NotionSync.ExtractNumber | backend/services/notion_sync_service.py:260-264 | Some iff the property is a truthy `number` property holding a number, and then that number. None otherwise. |
| NotionSync.ExtractDateStart | backend/services/notion_sync_service.py:267-271 | For a truthy `date` property with a truthy date, its `start` as text. Any other property gives ''. |
| NotionSync.ExtractRelationIds | backend/services/notion_sync_service.py:274-278 | An id is listed iff some relation item carries it non-empty, in item order; a wrong or missing type gives []. |
| NotionSync.ExtractRollupTexts | backend/services/notion_sync_service.py:281-297 | The non-empty texts of the title and rich-text items of a rollup, in order; other items are skipped. |
| NotionSync.ExtractRollupDate | backend/services/notion_sync_service.py:313-328 | '' unless the property is a truthy rollup. A `date` rollup gives its start, or '' when its date is falsy. An `array` rollup gives the start of its first truthy date item, else ''. Any other rollup gives ''. |
| NotionSync.ExtractRollupUrl | backend/services/notion_sync_service.py:331-339 | The url of the first truthy url item, else ''. |
| NotionSync.ParseTutor | backend/services/notion_sync_service.py:300-310 | The name from `real_name`, falling back to `unique_name`. The email, phone and `tutor_level` select name are the extracted values, None when empty. A tutor is always active. |
| NotionSync.ParseLecture | backend/services/notion_sync_service.py:342-364 | Title from the first of four keys and the `lecture_state` name. The target names are joined by ', ', None without any. The rollup dates and url are taken as extracted, None when empty. Also the student number and the non-empty schedule ids. |
| NotionSync.JoinedOrNone | backend/services/notion_sync_service.py:358 | The target is None iff there are no texts, otherwise their ', '-join. |
| NotionSync.ParseSchedule | backend/services/notion_sync_service.py:367-391 | The date start and the `lecture_schedule_name` title. The start and end numbers, the tutor and lecture relation ids, and day number 1. |
| NotionSync.PlaceIsRichOrTitle | backend/services/notion_sync_service.py:371 | The place is the rich text of `place` when non-empty, otherwise its title text. |
| NotionSync.ScheduleCourse | backend/services/notion_sync_service.py:107-120 | A schedule without a date is skipped. Otherwise the first lecture id mapped to a course decides, and the schedule is skipped when none is mapped. |
| NotionSync.UnmappedScheduleSkipped | backend/services/notion_sync_service.py:115-120 | A schedule whose lecture ids are all unmapped gets no course, and is skipped. |
| NotionSync.TutorRequests | backend/services/notion_sync_service.py:144-157 | No more requests than tutor ids; each request carries the schedule's date, its course date and the class. |
| NotionSync.RequestFromTutor | backend/services/notion_sync_service.py:144-147 | Every request names the instructor of one of the listed, mapped tutors. |
| NotionSync.MappedTutorRequested | backend/services/notion_sync_service.py:144-147 | Every mapped tutor gets a request. |
| NotionSync.AssignmentRequests | backend/services/notion_sync_service.py:143-173 | One request per mapped main tutor with class 'A반', then one per mapped technical tutor with class '기술지원', all on the schedule's course date. |
| NotionSync.PushRequests | backend/services/notion_sync_service.py:144-157 | One tutor loop appends the requests of the mapped tutors, in order, to those made before. |
| NotionSync.RequestClasses | backend/services/notion_sync_service.py:153-169 | Main-tutor requests come first and carry 'A반'; the rest carry '기술지원'. |
| NotionSync.DateIdsCard | backend/services/notion_sync_service.py:188-190 | There are no more distinct date ids than dates, and as many when the ids are distinct. |
| NotionSync.CourseStatus | backend/services/notion_sync_service.py:190-202 | assigned ≤ total. The status is None iff there are no dates, '배정 완료' iff assigned ≥ total, else '배정 미완료'. |
| NotionSync.CompleteIffEveryDateAssigned | backend/services/notion_sync_service.py:190-202 | With distinct date ids, a course is complete iff it has dates and every one of them has an assignment. |
| NotionSync.ComputeAssignmentStatus | backend/services/notion_sync_service.py:180-208 | One update per course, in order, each computed from that course's dates and all assignments. |
| NotionSync.StatusRows | backend/services/notion_sync_service.py:185-208 | One update per course, the i-th being that of the i-th course. |
| NotionCourseRepository.StatusProp | backend/repositories/impl/notion_course_repository.py:46 | lecture_state when truthy, else 상태 when truthy, else Status. It is falsy iff all three are. |
| NotionCourseRepository.StatusOf | backend/repositories/impl/notion_course_repository.py:45-51 | The select or status name of the chosen property, '' when none is truthy. That is the extracted select of lecture_state, else of 상태, else of Status. |
| NotionCourseRepository.StatusFallsBack | backend/repositories/impl/notion_course_repository.py:46-51 | Without lecture_state the status comes from '상태', where the lecture parser reads ''. |
| NotionCourseRepository.TargetOf | backend/repositories/impl/notion_course_repository.py:54-63 | Some non-empty ', '-join iff a rollup has a non-empty text. It equals the lecture parser's `", ".join(target_names) if target_names else None`. |
| NotionCourseRepository.ParsePage | backend/repositories/impl/notion_course_repository.py:33-106 | The page id, the title from the first of four keys, the status fallback and the student number. The joined target and the rollup dates and url, None when empty. |
| NotionCourseRepository.AgreesWithLectureParser | backend/repositories/impl/notion_course_repository.py:33-106 | Read alike by the repository and the lecture parser, except that the status may differ when lecture_state is not truthy. |
| NotionCourseRepository.JoinNonEmptyParts | backend/repositories/impl/notion_course_repository.py:63 | Joining non-empty parts gives '' only for no parts. |
| NotionCourseRepository.ListCourses | backend/repositories/impl/notion_course_repository.py:12-14 | One course per page, in page order. |
| NotionCourseRepository.GetCourse | backend/repositories/impl/notion_course_repository.py:16-18 | None iff there is no page; otherwise the page's course. |
| NotionCourseRepository.Write | backend/repositories/impl/notion_course_repository.py:20-30 | Every create, update, delete and upsert fails with NotImplementedError. |
| AuthService.RoleFor | backend/services/auth_service.py:16 | 'admin' iff the address ends with '@teamsparta.co', else 'instructor'. |
| AuthService.DisplayNameOf | backend/services/auth_service.py:17 | The display name is the part of the address before its first '@'. |
| AuthService.Login | backend/services/auth_service.py:10-50 | A missing profile is created and kept even on refusal. The answer carries the profile's fields and the login email, and non-instructors get no instructor id. An instructor gets the first auth-email match if any, else the first contact-email match, else is refused. |
| AuthService.AdminLoginUnlinked | backend/services/auth_service.py:14-27 | A first admin-domain login is an admin, with the display name and no instructor link. |
| AuthService.StoredRoleKept | backend/services/auth_service.py:12-24 | A stored profile is not re-created, and its stored role and id are used. |
| AuthService.ContactEmailBackfilled | backend/services/auth_service.py:30-41 | An instructor found by contact email is linked, and that row gets the login address as its auth email; rows of other ids are unchanged. |
| AuthService.BackfilledFoundByAuthEmail | backend/services/auth_service.py:29-36 | After the backfill, the auth-email lookup finds the same row. |
| AuthService.LoginIdempotent | backend/services/auth_service.py:10-50 | A second login gives the same answer and changes nothing. |
| AuthService.AuthStore.GetOrCreateProfile | backend/services/auth_service.py:10-50 | Step by step against the store, the login gives exactly the answer, profiles and instructor rows of `Login`. |
| Strs.Lower | frontend/src/pages/Instructors.tsx:106-110 | `toLowerCase()` on ASCII letters. |
| Strs.Includes | frontend/src/pages/Instructors.tsx:108-110 | `includes(q)`: q occurs as a contiguous piece. |
| Strs.SortedUnique | frontend/src/pages/Availability.tsx:187 | `[...new Set(s)].sort()`: the distinct strings of s, in ascending order. |
| Strs.BeforeFirst | backend/services/auth_service.py:17 | `split('@')[0]` is a prefix without '@', followed by '@' when shorter than the address. |
| Strs.Pad2 | frontend/src/utils/date.ts:8 | `padStart(2, '0')` gives exactly the two digits of a number below 100. |
| Strs.IntToString | frontend/src/utils/date.ts:8 | `String(i)` is non-empty and starts with '-' iff i is negative. |
| Strs.Pad4 | backend/services/course_service.py:56 | At least four characters; below 10000, exactly the four zero-padded decimal digits. |
| Strs.Pad4Injective | backend/services/course_service.py:56 | Different numbers below 10000 pad to different strings. |
| Sorting.SortUp | backend/services/instructor_course_service.py:74 | `sorted(s, key=…)`: ordered by key, a permutation of s. |
| Sorting.SortDown | backend/services/instructor_course_service.py:103-106 | `sort(key=…, reverse=True)`: ordered by key, largest first, a permutation of s. |

## Left out

- `async`/`await`, HTTP routing, the Supabase and Notion clients, and React rendering are not modelled. Each repository call is a method call on an in-memory store.
- Fresh ids (`uuid4()`) are parameters of the operations that create records. Clocks are left out; each page takes its month as a parameter.
- The React Query cache of `InstructorSchedule.tsx` is not modelled. Its mutations are a call log, and the refetch is an explicit `Refetch` call.
- Floating-point numbers are not modelled. Notion numbers are integers, and the `start_time`/`end_time` of a schedule or course day are carried but not examined.
- The place and times of a course day in `list_courses_for_instructor` are left out, and so is the fallback to the course date's own date when an assignment has none.
- JSON values of the wrong kind are read leniently. A non-object is read as an empty object, where Python would raise `AttributeError`. A non-string is read as `""`, and a non-list is iterated as `[]`. A page without an `id` (a `KeyError` in Python) cannot be built.
- `_sync_tutors`, `_sync_courses`, the repository upserts they call, the exception swallowing around `create_dates` and `create_assignment`, and the sync counters and log lines are not modelled. The schedule sync is modelled up to the requests it makes.
- The profile repository of `auth_service.py` is kept abstract, as two sequences of rows. Its SQL lookups are first-match searches.
- `CourseService.CourseTable` stands in for the course repository. Only `get_course` of its fake is part of this model; its create, update and delete keep the store's ids unique.
- `set` iteration order in `list_courses_for_instructor` is arbitrary in Python. The model takes the order as given, and the listing is proved the same whatever order the set has, up to ties in `lecture_start`.
- Strs.Lower: lower-cases ASCII letters only; JavaScript's `toLowerCase` also folds other scripts.
- JavaScript `Date` arithmetic outside years 1..9999 and time zones are not modelled.
- InstructorCoursesPage.StatusBadge: `STATUS_BADGE[status]` is a plain-object lookup. A status naming an inherited `Object.prototype` member, such as `constructor` or `__proto__`, finds that member in JavaScript. The model gives the raw gray badge instead.
- CalendarPage.ToEvent: `courseColors[course.id]` is a plain-object lookup too. A course id naming an `Object.prototype` member finds that member in JavaScript, where the model gives the gray colours.
- CourseService.Patched: `CourseUpdate` accepts an explicit `"title": null`, and `model_dump(exclude_unset=True)` passes it on, so the store would write a null title. The model keeps a stored title a string: `CoursePatch.title` is either absent or a string, so that request is not modelled.
- Default arguments: `list_courses_for_instructor` defaults to page 1 of 10 entries. Dafny has no default arguments, so the constants `DefaultPage` and `DefaultPageSize` name them and callers pass both.

## Findings

| source | as written | input that shows it | evidently intended | confidence | as-written member | corrected member |
|---|---|---|---|---|---|---|
| backend/services/assignment_service.py:42-51 | Any availability record on the date hides an instructor, even one marked 'available'. | An active, unbooked instructor with one record on the date whose status is 'available'. | Only an 'unavailable' record hides an instructor, as the comment (unavailable-day check) and the name `unavailable_ids` say. | medium, not executed | AssignmentService.AvailableRecordHidesInstructor | AssignmentService.AvailableInstructorsIntendedMeaning |

/**
 * The availability page (frontend/src/pages/Availability.tsx): the registration tab, where an
 * instructor's day cycles through pending, available and unavailable unless the instructor is
 * assigned that day, and the admin tab, which lists every active instructor's status on one date.
 */
module AvailabilityPage {
  import opened Wrappers
  import opened Seqs
  import opened Strs
  import opened FrontTypes
  import opened CalendarGrid

  /** `a` puts the instructor on that date. */
  predicate AssignedOn(a: Assignment, instructorId: string, date: string)
  {
    a.instructorId == instructorId && a.date == date
  }

  /** `isAssigned`: some assignment puts the instructor on the date. */
  function IsAssigned(assignments: seq<Assignment>, instructorId: string, date: string): (b: bool)
    ensures b <==> exists k :: 0 <= k < |assignments| && AssignedOn(assignments[k], instructorId, date)
  {
    Any(assignments, (a: Assignment) => AssignedOn(a, instructorId, date))
  }

  /** The status a click moves to; an absent status behaves like `pending`. */
  function NextStatus(current: Option<AvailStatus>): (next: AvailStatus)
    ensures current.Some? ==> next != current.value
    ensures current.None? ==> next == Available
  {
    match current
    case Some(Available) => Unavailable
    case Some(Unavailable) => Pending
    case _ => Available
  }

  /** Three clicks bring a status back to itself, and the order is pending, available, unavailable. */
  lemma StatusCycle(s: AvailStatus)
    ensures NextStatus(Some(NextStatus(Some(NextStatus(Some(s)))))) == s
    ensures NextStatus(Some(Pending)) == Available && NextStatus(Some(Available)) == Unavailable
    ensures NextStatus(Some(Unavailable)) == Pending
  {
  }

  function Lookup(m: map<string, AvailStatus>, key: string): Option<AvailStatus>
  {
    if key in m then Some(m[key]) else None
  }

  /**
   * `cycleStatus`: an assigned date is left alone; otherwise only the entry for `dateStr`
   * changes, to the next status (and is added when it was absent).
   */
  function CycleStatus(local: map<string, AvailStatus>, assignments: seq<Assignment>, instructorId: string, dateStr: string)
    : (r: map<string, AvailStatus>)
    ensures IsAssigned(assignments, instructorId, dateStr) ==> r == local
    ensures !IsAssigned(assignments, instructorId, dateStr) ==>
              r.Keys == local.Keys + {dateStr} && r[dateStr] == NextStatus(Lookup(local, dateStr))
    ensures forall k :: k in local && k != dateStr ==> k in r && r[k] == local[k]
  {
    if IsAssigned(assignments, instructorId, dateStr) then local
    else local[dateStr := NextStatus(Lookup(local, dateStr))]
  }

  /**
   * Three clicks on an unassigned date restore the map, except that a date that had no entry
   * ends with an explicit `pending` one.
   */
  lemma CycleThreeTimes(local: map<string, AvailStatus>, assignments: seq<Assignment>, instructorId: string, dateStr: string)
    requires !IsAssigned(assignments, instructorId, dateStr)
    ensures CycleStatus(CycleStatus(CycleStatus(local, assignments, instructorId, dateStr),
                                    assignments, instructorId, dateStr), assignments, instructorId, dateStr)
            == if dateStr in local then local else local[dateStr := Pending]
  {
    var m1 := CycleStatus(local, assignments, instructorId, dateStr);
    var m2 := CycleStatus(m1, assignments, instructorId, dateStr);
    var m3 := CycleStatus(m2, assignments, instructorId, dateStr);
    if dateStr in local {
      StatusCycle(local[dateStr]);
      assert m3[dateStr] == local[dateStr];
      assert m3 == local;
    } else {
      assert m3[dateStr] == Pending;
    }
  }

  /** What a cell shows: `assigned` wins over any self-reported status. */
  datatype CellStatus = AssignedCell | Reported(status: AvailStatus) | NoStatus

  /** `assigned ? 'assigned' : record?.status ?? null`. */
  function Effective(onAssignment: bool, record: Option<AvailStatus>): (s: CellStatus)
    ensures s == AssignedCell <==> onAssignment
    ensures !onAssignment ==> (s.Reported? <==> record.Some?) && (record.Some? ==> s.status == record.value)
  {
    if onAssignment then AssignedCell
    else if record.Some? then Reported(record.value)
    else NoStatus
  }

  /** A record of the instructor on the date. */
  predicate RecordFor(av: Availability, instructorId: string, date: string)
  {
    av.instructorId == instructorId && av.date == date
  }

  /**
   * The map `handleInstructorChange` builds: the instructor's records read front to back, each
   * one setting its date, so a later record for the same date overwrites an earlier one.
   */
  function StatusByDate(avs: seq<Availability>, instructorId: string): map<string, AvailStatus>
  {
    if avs == [] then map[]
    else
      var m := StatusByDate(avs[..|avs| - 1], instructorId);
      var av := avs[|avs| - 1];
      if av.instructorId == instructorId then m[av.date := av.status] else m
  }

  /**
   * A date has an entry exactly when the instructor has a record on it, and the entry is the
   * status of the last such record.
   */
  lemma {:induction false} StatusByDateMeaning(avs: seq<Availability>, instructorId: string, d: string)
    ensures d in StatusByDate(avs, instructorId) <==>
              exists k :: 0 <= k < |avs| && RecordFor(avs[k], instructorId, d)
    ensures d in StatusByDate(avs, instructorId) ==>
              exists k :: 0 <= k < |avs| && RecordFor(avs[k], instructorId, d) &&
                avs[k].status == StatusByDate(avs, instructorId)[d] &&
                forall j :: k < j < |avs| ==> !RecordFor(avs[j], instructorId, d)
  {
    if avs != [] {
      var init := avs[..|avs| - 1];
      var av := avs[|avs| - 1];
      StatusByDateMeaning(init, instructorId, d);
      assert forall k :: 0 <= k < |init| ==> init[k] == avs[k];
      if RecordFor(av, instructorId, d) {
        assert RecordFor(avs[|avs| - 1], instructorId, d);
      } else if d in StatusByDate(avs, instructorId) {
        var k :| 0 <= k < |init| && RecordFor(init[k], instructorId, d) &&
                 init[k].status == StatusByDate(init, instructorId)[d] &&
                 forall j :: k < j < |init| ==> !RecordFor(init[j], instructorId, d);
        assert forall j :: k < j < |avs| ==> !RecordFor(avs[j], instructorId, d);
      } else {
        assert !RecordFor(avs[|avs| - 1], instructorId, d);
      }
    }
  }

  /** The `for (const av of mockAvailability)` loop of `handleInstructorChange` and the initial state. */
  method CollectStatuses(avs: seq<Availability>, instructorId: string) returns (m: map<string, AvailStatus>)
    ensures m == StatusByDate(avs, instructorId)
  {
    m := map[];
    var i := 0;
    while i < |avs|
      invariant 0 <= i <= |avs|
      invariant m == StatusByDate(avs[..i], instructorId)
    {
      assert avs[..i + 1][..i] == avs[..i];
      if avs[i].instructorId == instructorId {
        m := m[avs[i].date := avs[i].status];
      }
      i := i + 1;
    }
    assert avs[..|avs|] == avs;
  }

  function ActiveInstructors(data: Tables): seq<Instructor>
  {
    Filter(data.instructors, (i: Instructor) => i.isActive)
  }

  /** The registration tab's state: the chosen instructor, the shown month and the local status map. */
  class RegistrationView {
    const data: Tables
    const availability: seq<Availability>
    var selectedInstructor: string
    var year: int
    var month: int
    var localAvail: map<string, AvailStatus>

    /**
     * Opens on February 2026 with the first active instructor (or none) and that instructor's
     * statuses; with no active instructor the map starts empty.
     */
    constructor (data: Tables, availability: seq<Availability>)
      ensures this.data == data && this.availability == availability
      ensures year == 2026 && month == 1
      ensures |ActiveInstructors(data)| > 0 ==>
                selectedInstructor == ActiveInstructors(data)[0].id &&
                localAvail == StatusByDate(availability, ActiveInstructors(data)[0].id)
      ensures |ActiveInstructors(data)| == 0 ==> selectedInstructor == "" && localAvail == map[]
    {
      var active := ActiveInstructors(data);
      var m: map<string, AvailStatus> := map[];
      if |active| > 0 {
        m := CollectStatuses(availability, active[0].id);
      }
      this.data := data;
      this.availability := availability;
      selectedInstructor := if |active| > 0 then active[0].id else "";
      year := 2026;
      month := 1;
      localAvail := m;
    }

    /** `handleInstructorChange`: select `id` and rebuild the map from that instructor's records only. */
    method HandleInstructorChange(id: string)
      modifies this
      ensures selectedInstructor == id && localAvail == StatusByDate(availability, id)
      ensures year == old(year) && month == old(month)
    {
      selectedInstructor := id;
      localAvail := CollectStatuses(availability, id);
    }

    /** A click on a cell: only a current-month cell cycles its status. */
    method ClickDay(day: CalendarDay)
      modifies this
      ensures localAvail == if day.isCurrentMonth
                            then CycleStatus(old(localAvail), data.assignments, selectedInstructor, day.dateStr)
                            else old(localAvail)
      ensures selectedInstructor == old(selectedInstructor) && year == old(year) && month == old(month)
    {
      if day.isCurrentMonth {
        localAvail := CycleStatus(localAvail, data.assignments, selectedInstructor, day.dateStr);
      }
    }

    /** What the cell for `dateStr` shows. */
    function CellStatusOf(dateStr: string): (s: CellStatus)
      reads this
      ensures s == AssignedCell <==> IsAssigned(data.assignments, selectedInstructor, dateStr)
      ensures s == NoStatus <==> !IsAssigned(data.assignments, selectedInstructor, dateStr) && dateStr !in localAvail
      ensures !IsAssigned(data.assignments, selectedInstructor, dateStr) && dateStr in localAvail ==>
                s == Reported(localAvail[dateStr])
    {
      Effective(IsAssigned(data.assignments, selectedInstructor, dateStr), Lookup(localAvail, dateStr))
    }
  }

  /** The first record of the instructor on the date (`mockAvailability.find`). */
  function FirstRecord(avs: seq<Availability>, instructorId: string, date: string): Option<Availability>
  {
    Find(avs, (av: Availability) => RecordFor(av, instructorId, date))
  }

  function StatusOf(r: Option<Availability>): Option<AvailStatus>
  {
    if r.Some? then Some(r.value.status) else None
  }

  /** A course title for an assignment, or '' when its course date or course is unknown. */
  function CourseTitleOrEmpty(a: Assignment, data: Tables): string
  {
    var c := CourseOf(a, data);
    if c.Some? then c.value.title else ""
  }

  function AssignmentsOn(data: Tables, instructorId: string, date: string): seq<Assignment>
  {
    Filter(data.assignments, (a: Assignment) => AssignedOn(a, instructorId, date))
  }

  datatype AdminRow = AdminRow(instructor: Instructor, effectiveStatus: CellStatus, assignedCourses: seq<string>)

  function AdminRowFor(data: Tables, avs: seq<Availability>, inst: Instructor, date: string): AdminRow
  {
    AdminRow(
      inst,
      Effective(IsAssigned(data.assignments, inst.id, date), StatusOf(FirstRecord(avs, inst.id, date))),
      Map(AssignmentsOn(data, inst.id, date), (a: Assignment) => CourseTitleOrEmpty(a, data)))
  }

  /** `instructorsForDate`: one row per active instructor, in order. */
  function AdminRows(data: Tables, avs: seq<Availability>, date: string): (rows: seq<AdminRow>)
    ensures |rows| == |ActiveInstructors(data)|
    ensures forall k :: 0 <= k < |rows| ==> rows[k].instructor == ActiveInstructors(data)[k]
  {
    Map(ActiveInstructors(data), (inst: Instructor) => AdminRowFor(data, avs, inst, date))
  }

  /**
   * An admin row is `assigned` exactly when the instructor has an assignment that day, and then
   * it lists one course title per such assignment; otherwise it shows the status of the
   * instructor's first record for the day, or nothing when there is none.
   */
  lemma AdminRowMeaning(data: Tables, avs: seq<Availability>, date: string, k: int)
    requires 0 <= k < |AdminRows(data, avs, date)|
    ensures var row := AdminRows(data, avs, date)[k];
            row.instructor.isActive &&
            (row.effectiveStatus == AssignedCell <==> IsAssigned(data.assignments, row.instructor.id, date)) &&
            (|row.assignedCourses| > 0 <==> IsAssigned(data.assignments, row.instructor.id, date)) &&
            |row.assignedCourses| == |AssignmentsOn(data, row.instructor.id, date)| &&
            (forall i :: 0 <= i < |row.assignedCourses| ==>
               row.assignedCourses[i] == CourseTitleOrEmpty(AssignmentsOn(data, row.instructor.id, date)[i], data)) &&
            (row.effectiveStatus == NoStatus <==>
               !IsAssigned(data.assignments, row.instructor.id, date) &&
               forall j :: 0 <= j < |avs| ==> !RecordFor(avs[j], row.instructor.id, date)) &&
            (row.effectiveStatus.Reported? ==>
               exists j :: 0 <= j < |avs| && RecordFor(avs[j], row.instructor.id, date) &&
                 avs[j].status == row.effectiveStatus.status &&
                 forall i :: 0 <= i < j ==> !RecordFor(avs[i], row.instructor.id, date))
  {
    var row := AdminRows(data, avs, date)[k];
    var inst := row.instructor;
    assert inst in ActiveInstructors(data);
    FilterMembership(data.instructors, (i: Instructor) => i.isActive, inst);
    var on := AssignmentsOn(data, inst.id, date);
    assert row.assignedCourses == Map(on, (a: Assignment) => CourseTitleOrEmpty(a, data));
    if IsAssigned(data.assignments, inst.id, date) {
      var j :| 0 <= j < |data.assignments| && AssignedOn(data.assignments[j], inst.id, date);
      FilterMembership(data.assignments, (a: Assignment) => AssignedOn(a, inst.id, date), data.assignments[j]);
    } else if |on| > 0 {
      FilterMembership(data.assignments, (a: Assignment) => AssignedOn(a, inst.id, date), on[0]);
    }
  }

  /** The admin date list: every date that has a record, once each, in ascending order. */
  function AdminDates(avs: seq<Availability>): seq<string>
  {
    SortedUnique(Map(avs, (av: Availability) => av.date))
  }

  lemma AdminDatesMeaning(avs: seq<Availability>, d: string)
    ensures d in AdminDates(avs) <==> exists k :: 0 <= k < |avs| && avs[k].date == d
    ensures forall i, j :: 0 <= i < j < |AdminDates(avs)| ==>
              Lt(AdminDates(avs)[i], AdminDates(avs)[j]) && AdminDates(avs)[i] != AdminDates(avs)[j]
  {
    var dates := Map(avs, (av: Availability) => av.date);
    if d in dates {
      var k :| 0 <= k < |dates| && dates[k] == d;
      assert avs[k].date == d;
    }
    var r := AdminDates(avs);
    forall i, j | 0 <= i < j < |r|
      ensures Lt(r[i], r[j]) && r[i] != r[j]
    {
      StrictlyAscendingPairs(r, i, j);
    }
  }
}

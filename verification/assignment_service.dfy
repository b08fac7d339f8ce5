/**
 * The assignment service (backend/services/assignment_service.py): the double-booking guard in
 * front of the assignment repository, and the list of instructors free on a date.
 */
module AssignmentService {
  import opened Wrappers
  import opened Seqs
  import opened Strs
  import opened BackendTypes
  import opened AssignmentStore
  import AvailabilityStore
  import InstructorStore

  /** The instructor ids a list of rows names (`{a["instructor_id"] for a in rows}`). */
  function InstructorIds<T(==)>(rows: seq<T>, instructorOf: T -> string): (ids: set<string>)
    ensures forall id :: id in ids <==> exists a :: a in rows && instructorOf(a) == id
  {
    set a | a in rows :: instructorOf(a)
  }

  function AssignmentInstructor(a: AssignmentRecord): string
  {
    a.instructorId
  }

  function RecordInstructor(a: AvailabilityRecord): string
  {
    a.instructorId
  }

  /** The instructors booked by a list of assignments. */
  function AssignedIds(booked: seq<AssignmentRecord>): set<string>
  {
    InstructorIds(booked, AssignmentInstructor)
  }

  /** The instructors holding a record in a list of availability records, whatever its status. */
  function RecordedIds(records: seq<AvailabilityRecord>): set<string>
  {
    InstructorIds(records, RecordInstructor)
  }

  /** The instructor ids of the records that say "unavailable". */
  function UnavailableIds(records: seq<AvailabilityRecord>): (ids: set<string>)
    ensures forall id :: id in ids <==> exists a :: a in records && a.instructorId == id && a.status == "unavailable"
  {
    set a | a in records && a.status == "unavailable" :: a.instructorId
  }

  /**
   * The list comprehension of `get_available_instructors`, as written: drops every active
   * instructor booked on the date or holding any availability record on it; `records` is None
   * when the service has no availability repository.
   */
  function AvailableInstructors(active: seq<InstructorRecord>, booked: seq<AssignmentRecord>,
                                records: Option<seq<AvailabilityRecord>>): seq<InstructorRecord>
  {
    var assignedIds := AssignedIds(booked);
    var blockedIds := if records.Some? then RecordedIds(records.value) else {};
    Filter(active, (i: InstructorRecord) => i.id !in assignedIds && i.id !in blockedIds)
  }

  /** The result is the active instructors with no booking and (given records) no record at all, in order. */
  lemma AvailableInstructorsMeaning(active: seq<InstructorRecord>, booked: seq<AssignmentRecord>,
                                    records: Option<seq<AvailabilityRecord>>, i: InstructorRecord)
    ensures i in AvailableInstructors(active, booked, records) <==>
              i in active &&
              (forall a :: a in booked ==> a.instructorId != i.id) &&
              (records.Some? ==> forall a :: a in records.value ==> a.instructorId != i.id)
    ensures IsSubsequence(AvailableInstructors(active, booked, records), active)
  {
    var assignedIds := AssignedIds(booked);
    var blockedIds := if records.Some? then RecordedIds(records.value) else {};
    var keep := (i: InstructorRecord) => i.id !in assignedIds && i.id !in blockedIds;
    FilterMembership(active, keep, i);
    FilterIsSubsequence(active, keep);
  }

  /** Without an availability repository only the booking exclusion applies. */
  lemma NoRecordsOnlyBookingsExclude(active: seq<InstructorRecord>, booked: seq<AssignmentRecord>)
    ensures AvailableInstructors(active, booked, None) ==
            Filter(active, (i: InstructorRecord) => i.id !in AssignedIds(booked))
  {
    var none: set<string> := {};
    FilterCongruent(active,
      (i: InstructorRecord) => i.id !in AssignedIds(booked) && i.id !in none,
      (i: InstructorRecord) => i.id !in AssignedIds(booked));
  }

  /**
   * The same comprehension with only "unavailable" records excluding, which is what the
   * repository's purpose (tracking the days an instructor cannot teach) calls for.
   */
  function AvailableInstructorsIntended(active: seq<InstructorRecord>, booked: seq<AssignmentRecord>,
                                        records: Option<seq<AvailabilityRecord>>): seq<InstructorRecord>
  {
    var assignedIds := AssignedIds(booked);
    var blockedIds := if records.Some? then UnavailableIds(records.value) else {};
    Filter(active, (i: InstructorRecord) => i.id !in assignedIds && i.id !in blockedIds)
  }

  /**
   * The intended list keeps an instructor exactly when it is active, unbooked and has not said
   * "unavailable"; a record saying "available" no longer hides anyone, and the intended list
   * contains the as-written one.
   */
  lemma AvailableInstructorsIntendedMeaning(active: seq<InstructorRecord>, booked: seq<AssignmentRecord>,
                                            records: Option<seq<AvailabilityRecord>>, i: InstructorRecord)
    ensures i in AvailableInstructorsIntended(active, booked, records) <==>
              i in active &&
              (forall a :: a in booked ==> a.instructorId != i.id) &&
              (records.Some? ==> forall a :: a in records.value && a.status == "unavailable" ==> a.instructorId != i.id)
    ensures i in AvailableInstructors(active, booked, records) ==> i in AvailableInstructorsIntended(active, booked, records)
    ensures IsSubsequence(AvailableInstructorsIntended(active, booked, records), active)
  {
    var assignedIds := AssignedIds(booked);
    var blockedIds := if records.Some? then UnavailableIds(records.value) else {};
    var keep := (i: InstructorRecord) => i.id !in assignedIds && i.id !in blockedIds;
    FilterMembership(active, keep, i);
    FilterIsSubsequence(active, keep);
    AvailableInstructorsMeaning(active, booked, records, i);
  }

  /**
   * An active, unbooked instructor who marked the day "available" is missing from the list as
   * written, and present in the intended one.
   */
  lemma AvailableRecordHidesInstructor()
    ensures var inst := InstructorRecord("inst-1", "Kim", None, None, None, true);
      var rec := AvailabilityRecord("av-1", "inst-1", "2026-03-10", "available", None);
      AvailableInstructors([inst], [], Some([rec])) == [] &&
      AvailableInstructorsIntended([inst], [], Some([rec])) == [inst]
  {
    var inst := InstructorRecord("inst-1", "Kim", None, None, None, true);
    var rec := AvailabilityRecord("av-1", "inst-1", "2026-03-10", "available", None);
    assert rec in [rec] && RecordInstructor(rec) == "inst-1";
    assert "inst-1" in RecordedIds([rec]);
    assert UnavailableIds([rec]) == {};
  }

  /** The filters `{"instructor_id": ..., "date": ...}` pick the rows of that instructor on that date. */
  lemma MatchesSlot(a: AssignmentRecord, instructorId: string, date: string)
    ensures MatchesAll(a, [(InstructorIdField, instructorId), (DateField, date)]) <==>
              a.instructorId == instructorId && a.date == date
  {
    var filters := [(InstructorIdField, instructorId), (DateField, date)];
    assert FieldText(a, filters[0].0) == a.instructorId;
    assert FieldText(a, filters[1].0) == a.date;
  }

  /** The filter `{"date": ...}` picks the rows on that date. */
  lemma MatchesDate(a: AssignmentRecord, date: string)
    ensures MatchesAll(a, [(DateField, date)]) <==> a.date == date
  {
    assert FieldText(a, [(DateField, date)][0].0) == a.date;
  }

  /** A date-only range holds exactly the records on that date. */
  lemma SingleDayRange(date: string, d: string)
    ensures Le(date, d) && Le(d, date) <==> d == date
  {
    if Le(date, d) && Le(d, date) {
      LeAntisymmetric(date, d);
    }
  }

  class AssignmentService {
    const repo: FakeAssignmentRepository
    const instructorRepo: InstructorStore.FakeInstructorRepository
    /** The optional availability repository (`AvailabilityRepository | None`). */
    const availabilityRepo: AvailabilityStore.FakeAvailabilityRepository?

    constructor (repo: FakeAssignmentRepository, instructorRepo: InstructorStore.FakeInstructorRepository,
                 availabilityRepo: AvailabilityStore.FakeAvailabilityRepository?)
      ensures this.repo == repo && this.instructorRepo == instructorRepo
      ensures this.availabilityRepo == availabilityRepo
    {
      this.repo := repo;
      this.instructorRepo := instructorRepo;
      this.availabilityRepo := availabilityRepo;
    }

    /**
     * `create_assignment`: when the instructor already has an assignment on the date it raises
     * DuplicateAssignmentError and creates nothing; otherwise it makes exactly one create.
     */
    method CreateAssignment(data: AssignmentData, freshId: string) returns (r: Result<AssignmentRecord, ServiceError>)
      requires repo.Valid()
      requires forall a :: a in repo.items ==> a.id != freshId
      modifies repo
      ensures repo.Valid()
      ensures (exists a :: a in old(repo.items) && a.instructorId == data.instructorId && a.date == data.date) ==>
                r == Failure(DuplicateAssignment(data.instructorId, data.date)) &&
                repo.items == old(repo.items) && repo.uniqueIndex == old(repo.uniqueIndex)
      ensures (forall a :: a in old(repo.items) ==> a.instructorId != data.instructorId || a.date != data.date) ==>
                r == Success(WithId(freshId, data)) &&
                repo.items == old(repo.items) + [WithId(freshId, data)] &&
                repo.uniqueIndex == old(repo.uniqueIndex) + {(data.instructorId, data.date)}
    {
      var filters := [(InstructorIdField, data.instructorId), (DateField, data.date)];
      var existing := repo.ListAssignments(filters);
      forall a {
        MatchesSlot(a, data.instructorId, data.date);
      }
      if |existing| > 0 {
        assert existing[0] in existing;
        return Failure(DuplicateAssignment(data.instructorId, data.date));
      }
      assert (data.instructorId, data.date) !in repo.uniqueIndex;
      r := repo.CreateAssignment(data, freshId);
    }

    /**
     * `get_available_instructors`: the active instructors, in stored order, with no assignment on
     * the date and, when there is an availability repository, no availability record on it.
     */
    method GetAvailableInstructors(date: string) returns (r: seq<InstructorRecord>)
      ensures r == AvailableInstructors(instructorRepo.ListInstructors(Some(true)),
                                        Filter(repo.items, (a: AssignmentRecord) => a.date == date),
                                        if availabilityRepo == null then None
                                        else Some(Filter(availabilityRepo.items, AvailabilityStore.OnDate(date))))
      ensures forall i :: i in r <==>
                i in instructorRepo.items && i.isActive &&
                (forall a :: a in repo.items && a.date == date ==> a.instructorId != i.id) &&
                (availabilityRepo != null ==>
                   forall a :: a in availabilityRepo.items && a.date == date ==> a.instructorId != i.id)
      ensures IsSubsequence(r, instructorRepo.ListInstructors(Some(true)))
    {
      var allInstructors := instructorRepo.ListInstructors(Some(true));
      var onDate := [(DateField, date)];
      var assignments := repo.ListAssignments(onDate);
      forall a {
        MatchesDate(a, date);
      }
      FilterCongruent(repo.items, Matching(onDate), (a: AssignmentRecord) => a.date == date);
      var unavails: Option<seq<AvailabilityRecord>> := None;
      if availabilityRepo != null {
        var inRange := availabilityRepo.ListByDateRange(date, date);
        forall d {
          SingleDayRange(date, d);
        }
        FilterCongruent(availabilityRepo.items,
          (a: AvailabilityRecord) => Le(date, a.date) && Le(a.date, date), AvailabilityStore.OnDate(date));
        unavails := Some(inRange);
      }
      r := AvailableInstructors(allInstructors, assignments, unavails);
      forall i
        ensures i in r <==>
                i in instructorRepo.items && i.isActive &&
                (forall a :: a in repo.items && a.date == date ==> a.instructorId != i.id) &&
                (availabilityRepo != null ==>
                   forall a :: a in availabilityRepo.items && a.date == date ==> a.instructorId != i.id)
      {
        AvailableInstructorsMeaning(allInstructors, assignments, unavails, i);
        forall a {
          FilterMembership(repo.items, (a: AssignmentRecord) => a.date == date, a);
        }
        if availabilityRepo != null {
          forall a {
            FilterMembership(availabilityRepo.items, AvailabilityStore.OnDate(date), a);
          }
        }
      }
      AvailableInstructorsMeaning(allInstructors, assignments, unavails, InstructorRecord("", "", None, None, None, true));
    }
  }

  /**
   * Booking one payload twice: the first call succeeds and the second is refused, while the
   * same instructor on another date is accepted.
   */
  method BookTwice(svc: AssignmentService, data: AssignmentData, otherDate: string, id1: string, id2: string, id3: string)
      returns (first: Result<AssignmentRecord, ServiceError>, second: Result<AssignmentRecord, ServiceError>,
               third: Result<AssignmentRecord, ServiceError>)
    requires svc.repo.Valid() && svc.repo.items == []
    requires id1 != id2 && id1 != id3 && id2 != id3 && otherDate != data.date
    modifies svc.repo
    ensures first == Success(WithId(id1, data))
    ensures second == Failure(DuplicateAssignment(data.instructorId, data.date))
    ensures third == Success(WithId(id3, data.(date := otherDate)))
  {
    first := svc.CreateAssignment(data, id1);
    assert WithId(id1, data) in svc.repo.items;
    second := svc.CreateAssignment(data, id2);
    third := svc.CreateAssignment(data.(date := otherDate), id3);
  }
}

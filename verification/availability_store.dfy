/**
 * The in-memory availability repository (backend/tests/fakes/fake_availability_repository.py):
 * records in insertion order under distinct ids, range queries on ISO date strings, and an
 * upsert keyed on (instructor_id, date).
 */
module AvailabilityStore {
  import opened Wrappers
  import opened Seqs
  import opened Strs
  import opened BackendTypes
  import opened Keyed

  /** The payload of a create or upsert (`AvailabilityCreate`). */
  datatype AvailabilityData = AvailabilityData(instructorId: string, date: string, status: string, reason: Option<string>)

  /** `{"id": str(uuid4()), **data}`. */
  function WithId(id: string, data: AvailabilityData): AvailabilityRecord
  {
    AvailabilityRecord(id, data.instructorId, data.date, data.status, data.reason)
  }

  /** The fields an `update` may carry; an absent field is left as it is. */
  datatype AvailabilityPatch = AvailabilityPatch(status: Option<string>, reason: Option<Option<string>>)

  /** `item.update(data)` with a patch. */
  function Patched(a: AvailabilityRecord, p: AvailabilityPatch): (r: AvailabilityRecord)
    ensures r.id == a.id && r.instructorId == a.instructorId && r.date == a.date
  {
    AvailabilityRecord(a.id, a.instructorId, a.date,
      if p.status.Some? then p.status.value else a.status,
      if p.reason.Some? then p.reason.value else a.reason)
  }

  /** `item.update(data)` with a full payload: everything but the id is overwritten. */
  function Overwritten(a: AvailabilityRecord, data: AvailabilityData): AvailabilityRecord
  {
    WithId(a.id, data)
  }

  /** The record is the instructor's record for that date. */
  predicate SameSlot(a: AvailabilityRecord, instructorId: string, date: string)
  {
    a.instructorId == instructorId && a.date == date
  }

  /** `a["instructor_id"] == instructor_id`, as a predicate to filter with. */
  function OfInstructor(instructorId: string): AvailabilityRecord -> bool
  {
    (a: AvailabilityRecord) => a.instructorId == instructorId
  }

  /** `str(a["date"]) == date`, as a predicate to filter with. */
  function OnDate(date: string): AvailabilityRecord -> bool
  {
    (a: AvailabilityRecord) => a.date == date
  }

  /** Both of the above: the record of that instructor on that date. */
  function InSlot(instructorId: string, date: string): AvailabilityRecord -> bool
  {
    (a: AvailabilityRecord) => SameSlot(a, instructorId, date)
  }

  /** The dict key of a stored record. */
  function RecordId(a: AvailabilityRecord): string
  {
    a.id
  }

  /** The (instructor_id, date) pair an upsert matches on. */
  function SlotOf(a: AvailabilityRecord): (string, string)
  {
    (a.instructorId, a.date)
  }

  /** At most one record per (instructor, date). */
  predicate OnePerSlot(s: seq<AvailabilityRecord>)
  {
    UniqueBy(s, SlotOf)
  }

  /** Position of the record with that id, or -1. */
  function IndexOfId(s: seq<AvailabilityRecord>, id: string): (i: int)
    ensures -1 <= i < |s|
    ensures i >= 0 ==> s[i].id == id
    ensures i == -1 <==> forall a :: a in s ==> a.id != id
  {
    IndexOfKey(s, RecordId, id)
  }

  /** Replacing a record by one with the same id, instructor and date keeps both invariants. */
  lemma ReplaceKeepsInvariants(s: seq<AvailabilityRecord>, i: int, b: AvailabilityRecord)
    requires 0 <= i < |s| && b.id == s[i].id && SameSlot(b, s[i].instructorId, s[i].date)
    ensures UniqueBy(s, RecordId) ==> UniqueBy(s[i := b], RecordId)
    ensures OnePerSlot(s) ==> OnePerSlot(s[i := b])
  {
    ReplaceKeepsUnique(s, RecordId, i, b);
    ReplaceKeepsUnique(s, SlotOf, i, b);
  }

  class FakeAvailabilityRepository {
    /** `_store.values()`, in insertion order. */
    var items: seq<AvailabilityRecord>

    ghost predicate Valid()
      reads this
    {
      UniqueBy(items, RecordId)
    }

    constructor ()
      ensures Valid() && items == []
    {
      items := [];
    }

    /** `list_by_instructor`. */
    function ListByInstructor(instructorId: string): (r: seq<AvailabilityRecord>)
      reads this
      ensures forall a :: a in r <==> a in items && a.instructorId == instructorId
      ensures IsSubsequence(r, items)
    {
      var mine := OfInstructor(instructorId);
      FilterIsSubsequence(items, mine);
      assert forall a :: a in Filter(items, mine) <==> a in items && mine(a) by {
        forall a {
          FilterMembership(items, mine, a);
        }
      }
      Filter(items, mine)
    }

    /** `list_by_date_range`: records with start <= date <= end, both bounds included. */
    function ListByDateRange(start: string, end: string): (r: seq<AvailabilityRecord>)
      reads this
      ensures forall a :: a in r <==> a in items && Le(start, a.date) && Le(a.date, end)
      ensures IsSubsequence(r, items)
    {
      var inRange := (a: AvailabilityRecord) => Le(start, a.date) && Le(a.date, end);
      FilterIsSubsequence(items, inRange);
      assert forall a :: a in Filter(items, inRange) <==> a in items && inRange(a) by {
        forall a {
          FilterMembership(items, inRange, a);
        }
      }
      Filter(items, inRange)
    }

    /** `list_by_instructor_and_date_range`: the instructor's records in the range. */
    function ListByInstructorAndDateRange(instructorId: string, start: string, end: string): (r: seq<AvailabilityRecord>)
      reads this
      ensures forall a :: a in r <==> a in ListByInstructor(instructorId) && a in ListByDateRange(start, end)
      ensures IsSubsequence(r, items)
    {
      var both := (a: AvailabilityRecord) => a.instructorId == instructorId && Le(start, a.date) && Le(a.date, end);
      FilterIsSubsequence(items, both);
      assert forall a :: a in Filter(items, both) <==> a in items && both(a) by {
        forall a {
          FilterMembership(items, both, a);
        }
      }
      Filter(items, both)
    }

    /** `create`: one new record under a fresh id, appended; nothing else changes. */
    method Create(data: AvailabilityData, freshId: string) returns (r: AvailabilityRecord)
      requires Valid()
      requires forall a :: a in items ==> a.id != freshId
      modifies this
      ensures Valid()
      ensures r == WithId(freshId, data) && items == old(items) + [r]
    {
      r := WithId(freshId, data);
      items := items + [r];
    }

    /**
     * `upsert`: the first record of the same instructor and date is overwritten in place and
     * returned; without one, a new record is created. One record per slot stays one per slot.
     */
    method Upsert(data: AvailabilityData, freshId: string) returns (r: AvailabilityRecord)
      requires Valid()
      requires forall a :: a in items ==> a.id != freshId
      modifies this
      ensures Valid()
      ensures var i := IndexWhere(old(items), InSlot(data.instructorId, data.date));
        if i >= 0 then r == Overwritten(old(items)[i], data) && items == old(items)[i := r]
        else r == WithId(freshId, data) && items == old(items) + [r]
      ensures OnePerSlot(old(items)) ==> OnePerSlot(items)
    {
      var slot := InSlot(data.instructorId, data.date);
      var k := 0;
      while k < |items|
        invariant 0 <= k <= |items|
        invariant forall j :: 0 <= j < k ==> !slot(items[j])
      {
        if slot(items[k]) {
          r := Overwritten(items[k], data);
          ReplaceKeepsInvariants(items, k, r);
          items := items[k := r];
          return;
        }
        k := k + 1;
      }
      r := Create(data, freshId);
    }

    /** `update`: None and no change for an unknown id; otherwise only the supplied fields change. */
    method Update(id: string, patch: AvailabilityPatch) returns (r: Option<AvailabilityRecord>)
      requires Valid()
      modifies this
      ensures Valid()
      ensures var i := IndexOfId(old(items), id);
        if i == -1 then r.None? && items == old(items)
        else r == Some(Patched(old(items)[i], patch)) && items == old(items)[i := r.value]
      ensures OnePerSlot(old(items)) ==> OnePerSlot(items)
    {
      var i := IndexOfId(items, id);
      if i == -1 {
        return None;
      }
      var item := Patched(items[i], patch);
      ReplaceKeepsInvariants(items, i, item);
      items := items[i := item];
      r := Some(item);
    }

    /** `delete`: true exactly when the id was stored; the record is gone and nothing else changes. */
    method Delete(id: string) returns (deleted: bool)
      requires Valid()
      modifies this
      ensures Valid()
      ensures deleted <==> exists a :: a in old(items) && a.id == id
      ensures !deleted ==> items == old(items)
      ensures forall a :: a in items <==> a in old(items) && a.id != id
      ensures OnePerSlot(old(items)) ==> OnePerSlot(items)
    {
      var i := IndexOfId(items, id);
      if i == -1 {
        return false;
      }
      var rest := items[..i] + items[i + 1..];
      RemoveKeepsUnique(items, RecordId, i, rest);
      RemoveKeepsUnique(items, SlotOf, i, rest);
      RemoveByKey(items, RecordId, i, rest);
      items := rest;
      deleted := true;
    }
  }
}

/**
 * The availability service (backend/services/availability_service.py): registering a day
 * updates the instructor's existing record for that date instead of adding a second one, and
 * deleting an unknown record is a 404.
 */
module AvailabilityService {
  import opened Wrappers
  import opened Seqs
  import opened BackendTypes
  import opened AvailabilityStore
  import opened Keyed

  const RecordNotFound: string := "가용성 레코드를 찾을 수 없습니다"

  class AvailabilityService {
    const repo: FakeAvailabilityRepository

    constructor (repo: FakeAvailabilityRepository)
      ensures this.repo == repo
    {
      this.repo := repo;
    }

    /**
     * `create`: walks the instructor's records and updates the first one on the same date with
     * the new status and reason; with none, creates one. The outcome is exactly the repository's
     * own upsert, so at most one record per instructor and date stays at most one.
     */
    method Create(data: AvailabilityData, freshId: string) returns (r: AvailabilityRecord)
      requires repo.Valid()
      requires forall a :: a in repo.items ==> a.id != freshId
      modifies repo
      ensures repo.Valid()
      ensures var i := IndexWhere(old(repo.items), InSlot(data.instructorId, data.date));
        if i >= 0 then r == Overwritten(old(repo.items)[i], data) && repo.items == old(repo.items)[i := r]
        else r == WithId(freshId, data) && repo.items == old(repo.items) + [r]
      ensures OnePerSlot(old(repo.items)) ==> OnePerSlot(repo.items)
    {
      var existing := repo.ListByInstructor(data.instructorId);
      assert existing == Filter(repo.items, OfInstructor(data.instructorId));
      var k := 0;
      while k < |existing|
        invariant 0 <= k <= |existing|
        invariant repo.items == old(repo.items)
        invariant forall j :: 0 <= j < k ==> existing[j].date != data.date
      {
        if existing[k].date == data.date {
          FirstDateMatch(repo.items, data.instructorId, data.date, existing, k);
          var updated := repo.Update(existing[k].id, AvailabilityPatch(Some(data.status), Some(data.reason)));
          if updated.Some? {
            return updated.value;
          }
        }
        k := k + 1;
      }
      NoDateMatch(repo.items, data.instructorId, data.date, existing);
      r := repo.Create(data, freshId);
    }

    /** `delete`: true when the record was removed, otherwise a 404 and no change. */
    method Delete(id: string) returns (r: Result<bool, ServiceError>)
      requires repo.Valid()
      modifies repo
      ensures repo.Valid()
      ensures r.Success? <==> exists a :: a in old(repo.items) && a.id == id
      ensures r.Success? ==> r.value
      ensures r.Failure? ==> r.error == NotFound(RecordNotFound) && repo.items == old(repo.items)
      ensures forall a :: a in repo.items <==> a in old(repo.items) && a.id != id
    {
      var deleted := repo.Delete(id);
      if !deleted {
        return Failure(NotFound(RecordNotFound));
      }
      r := Success(deleted);
    }
  }

  /** The first of the instructor's records on the date is the store's first record of that slot. */
  lemma FirstDateMatch(items: seq<AvailabilityRecord>, instructorId: string, date: string,
                       existing: seq<AvailabilityRecord>, k: int)
    requires UniqueBy(items, RecordId)
    requires existing == Filter(items, OfInstructor(instructorId))
    requires 0 <= k < |existing| && existing[k].date == date
    requires forall j :: 0 <= j < k ==> existing[j].date != date
    ensures var i := IndexWhere(items, InSlot(instructorId, date));
      0 <= i && items[i] == existing[k] && IndexOfId(items, existing[k].id) == i
  {
    FindFilter(items, OfInstructor(instructorId), OnDate(date), InSlot(instructorId, date));
    FindAt(existing, OnDate(date), k);
    var i := IndexWhere(items, InSlot(instructorId, date));
    IndexOfStoredKey(items, RecordId, i);
  }

  /** When none of the instructor's records is on the date, the store holds no record of that slot. */
  lemma NoDateMatch(items: seq<AvailabilityRecord>, instructorId: string, date: string,
                    existing: seq<AvailabilityRecord>)
    requires existing == Filter(items, OfInstructor(instructorId))
    requires forall j :: 0 <= j < |existing| ==> existing[j].date != date
    ensures IndexWhere(items, InSlot(instructorId, date)) == -1
  {
    FindFilter(items, OfInstructor(instructorId), OnDate(date), InSlot(instructorId, date));
    assert Find(existing, OnDate(date)).None?;
  }
}

/**
 * The in-memory instructor repository (backend/tests/fakes/fake_instructor_repository.py):
 * instructors in insertion order under distinct ids, listed all or by their active flag.
 */
module InstructorStore {
  import opened Wrappers
  import opened Seqs
  import opened Keyed
  import opened BackendTypes

  /** The payload of a create: an instructor without its id. */
  datatype InstructorData = InstructorData(
    name: string,
    email: Option<string>,
    phone: Option<string>,
    specialty: Option<string>,
    isActive: bool)

  /** `{"id": str(uuid4()), **data}`. */
  function WithId(id: string, d: InstructorData): InstructorRecord
  {
    InstructorRecord(id, d.name, d.email, d.phone, d.specialty, d.isActive)
  }

  /** The fields an update may carry; an absent field keeps its value. */
  datatype InstructorPatch = InstructorPatch(
    name: Option<string>,
    email: Option<Option<string>>,
    phone: Option<Option<string>>,
    specialty: Option<Option<string>>,
    isActive: Option<bool>)

  /** `record.update(data)`. */
  function Merged(a: InstructorRecord, p: InstructorPatch): (r: InstructorRecord)
    ensures r.id == a.id
    ensures r.name == (if p.name.Some? then p.name.value else a.name)
    ensures r.email == (if p.email.Some? then p.email.value else a.email)
    ensures r.phone == (if p.phone.Some? then p.phone.value else a.phone)
    ensures r.specialty == (if p.specialty.Some? then p.specialty.value else a.specialty)
    ensures r.isActive == (if p.isActive.Some? then p.isActive.value else a.isActive)
  {
    InstructorRecord(a.id,
      if p.name.Some? then p.name.value else a.name,
      if p.email.Some? then p.email.value else a.email,
      if p.phone.Some? then p.phone.value else a.phone,
      if p.specialty.Some? then p.specialty.value else a.specialty,
      if p.isActive.Some? then p.isActive.value else a.isActive)
  }

  /** An empty patch changes nothing. */
  lemma EmptyPatchIsIdentity(a: InstructorRecord)
    ensures Merged(a, InstructorPatch(None, None, None, None, None)) == a
  {
  }

  /** Merging twice is merging once with the later fields winning. */
  lemma MergeTwice(a: InstructorRecord, p: InstructorPatch, q: InstructorPatch)
    ensures Merged(Merged(a, p), q) == Merged(a, InstructorPatch(
      if q.name.Some? then q.name else p.name,
      if q.email.Some? then q.email else p.email,
      if q.phone.Some? then q.phone else p.phone,
      if q.specialty.Some? then q.specialty else p.specialty,
      if q.isActive.Some? then q.isActive else p.isActive))
  {
  }

  /** The dict key of a stored instructor. */
  function InstructorId(a: InstructorRecord): string
  {
    a.id
  }

  /** `i["is_active"] == is_active`, as a predicate to filter with. */
  function ActiveIs(flag: bool): InstructorRecord -> bool
  {
    (a: InstructorRecord) => a.isActive == flag
  }

  class FakeInstructorRepository {
    /** `_store.values()`, in insertion order. */
    var items: seq<InstructorRecord>

    ghost predicate Valid()
      reads this
    {
      UniqueBy(items, InstructorId)
    }

    constructor ()
      ensures Valid() && items == []
    {
      items := [];
    }

    /** `list_instructors(is_active)`: everything for None, otherwise those with that flag, in order. */
    function ListInstructors(isActive: Option<bool>): (r: seq<InstructorRecord>)
      reads this
      ensures isActive.None? ==> r == items
      ensures isActive.Some? ==> forall a :: a in r <==> a in items && a.isActive == isActive.value
      ensures IsSubsequence(r, items)
    {
      if isActive.None? then
        var all := (a: InstructorRecord) => true;
        FilterAll(items, all);
        FilterIsSubsequence(items, all);
        items
      else
        var flag := ActiveIs(isActive.value);
        FilterIsSubsequence(items, flag);
        assert forall a :: a in Filter(items, flag) <==> a in items && flag(a) by {
          forall a {
            FilterMembership(items, flag, a);
          }
        }
        Filter(items, flag)
    }

    /** `get_instructor`: the stored instructor with that id, or None. */
    function GetInstructor(id: string): (r: Option<InstructorRecord>)
      reads this
      ensures r.None? <==> forall a :: a in items ==> a.id != id
      ensures r.Some? ==> r.value in items && r.value.id == id
    {
      var i := IndexOfKey(items, InstructorId, id);
      if i == -1 then None else Some(items[i])
    }

    /** `create_instructor`: one new instructor under a fresh id, appended; nothing else changes. */
    method CreateInstructor(data: InstructorData, freshId: string) returns (r: InstructorRecord)
      requires Valid()
      requires forall a :: a in items ==> a.id != freshId
      modifies this
      ensures Valid()
      ensures r == WithId(freshId, data) && items == old(items) + [r]
      ensures GetInstructor(freshId) == Some(r)
    {
      r := WithId(freshId, data);
      AppendKeepsUnique(items, InstructorId, r);
      items := items + [r];
      IndexOfStoredKey(items, InstructorId, |items| - 1);
    }

    /**
     * `update_instructor`: merges the given fields into the stored instructor and returns it;
     * an unknown id raises KeyError and changes nothing. Every other instructor is untouched.
     */
    method UpdateInstructor(id: string, patch: InstructorPatch) returns (r: Result<InstructorRecord, ServiceError>)
      requires Valid()
      modifies this
      ensures Valid()
      ensures var i := IndexOfKey(old(items), InstructorId, id);
        if i == -1 then r == Failure(MissingKey(id)) && items == old(items)
        else r == Success(Merged(old(items)[i], patch)) && items == old(items)[i := r.value]
    {
      var i := IndexOfKey(items, InstructorId, id);
      if i == -1 {
        return Failure(MissingKey(id));
      }
      var merged := Merged(items[i], patch);
      ReplaceKeepsUnique(items, InstructorId, i, merged);
      items := items[i := merged];
      r := Success(merged);
    }

    /** `delete_instructor`: true exactly when the id was stored; afterwards a get finds nothing. */
    method DeleteInstructor(id: string) returns (deleted: bool)
      requires Valid()
      modifies this
      ensures Valid()
      ensures deleted <==> exists a :: a in old(items) && a.id == id
      ensures !deleted ==> items == old(items)
      ensures forall a :: a in items <==> a in old(items) && a.id != id
      ensures GetInstructor(id).None?
    {
      var i := IndexOfKey(items, InstructorId, id);
      if i == -1 {
        return false;
      }
      var rest := items[..i] + items[i + 1..];
      RemoveKeepsUnique(items, InstructorId, i, rest);
      RemoveByKey(items, InstructorId, i, rest);
      items := rest;
      deleted := true;
    }
  }

  /** The active and the inactive lists split the full list. */
  lemma ActiveSplit(repo: FakeInstructorRepository)
    ensures |repo.ListInstructors(Some(true))| + |repo.ListInstructors(Some(false))| == |repo.items|
  {
    var all := (a: InstructorRecord) => true;
    FilterPartition(repo.items, all, ActiveIs(true), ActiveIs(false), ActiveIs(true));
    FilterAll(repo.items, all);
  }
}

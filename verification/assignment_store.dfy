/**
 * The in-memory assignment repository (backend/tests/fakes/fake_assignment_repository.py): the
 * stored rows in insertion order, plus a unique index of (instructor_id, date) pairs that
 * refuses a second booking of one instructor on one date.
 */
module AssignmentStore {
  import opened Wrappers
  import opened Seqs
  import opened Strs
  import opened BackendTypes

  /** The payload of a create: an assignment without its id. */
  datatype AssignmentData = AssignmentData(
    courseDateId: string,
    instructorId: string,
    date: string,
    className: Option<string>)

  /** `{"id": str(uuid4()), **data}`. */
  function WithId(id: string, data: AssignmentData): AssignmentRecord
  {
    AssignmentRecord(id, data.courseDateId, data.instructorId, data.date, data.className)
  }

  /** The unique-index key `(instructor_id, str(date))`. */
  function KeyOf(a: AssignmentRecord): (string, string)
  {
    (a.instructorId, a.date)
  }

  /** The keys of a list of rows. */
  function Keys(s: seq<AssignmentRecord>): set<(string, string)>
  {
    set a | a in s :: KeyOf(a)
  }

  /** The columns a filter of `list_assignments` may name; any other name reads as missing. */
  datatype Field = IdField | CourseDateIdField | InstructorIdField | DateField | ClassNameField | OtherField(name: string)

  /** `str(i.get(key))`: a missing key or a null value prints as "None". */
  function FieldText(a: AssignmentRecord, f: Field): string
  {
    match f
    case IdField => a.id
    case CourseDateIdField => a.courseDateId
    case InstructorIdField => a.instructorId
    case DateField => a.date
    case ClassNameField => if a.className.Some? then a.className.value else "None"
    case OtherField(_) => "None"
  }

  /** The row passes every (column, value) filter. */
  predicate MatchesAll(a: AssignmentRecord, filters: seq<(Field, string)>)
  {
    forall k :: 0 <= k < |filters| ==> FieldText(a, filters[k].0) == filters[k].1
  }

  /** Passing the first `k + 1` filters is passing the first `k` and then filter `k`. */
  lemma MatchesAllSnoc(a: AssignmentRecord, filters: seq<(Field, string)>, k: int)
    requires 0 <= k < |filters|
    ensures MatchesAll(a, filters[..k + 1]) == (MatchesAll(a, filters[..k]) && FieldText(a, filters[k].0) == filters[k].1)
  {
    var ext, pre := filters[..k + 1], filters[..k];
    assert forall j :: 0 <= j < k ==> ext[j] == pre[j];
    assert ext[k] == filters[k];
  }

  /** `MatchesAll` as a predicate to filter with. */
  function Matching(filters: seq<(Field, string)>): AssignmentRecord -> bool
  {
    (a: AssignmentRecord) => MatchesAll(a, filters)
  }

  /** One filter, as a predicate to filter with. */
  function FieldIs(f: (Field, string)): AssignmentRecord -> bool
  {
    (a: AssignmentRecord) => FieldText(a, f.0) == f.1
  }

  /** One pass of the filter loop: narrowing by filter `k` leaves the rows passing the first `k + 1`. */
  method NarrowBy(items: seq<AssignmentRecord>, r: seq<AssignmentRecord>, filters: seq<(Field, string)>, k: int)
    returns (r': seq<AssignmentRecord>)
    requires 0 <= k < |filters|
    requires r == Filter(items, Matching(filters[..k]))
    ensures r' == Filter(items, Matching(filters[..k + 1]))
  {
    forall a: AssignmentRecord
      ensures Matching(filters[..k + 1])(a) == (Matching(filters[..k])(a) && FieldIs(filters[k])(a))
    {
      MatchesAllSnoc(a, filters, k);
    }
    FilterFilter(items, Matching(filters[..k]), FieldIs(filters[k]), Matching(filters[..k + 1]));
    r' := Filter(r, FieldIs(filters[k]));
  }

  /** The rows a filter list keeps are those of the store that pass it, in store order. */
  lemma MatchingListing(items: seq<AssignmentRecord>, filters: seq<(Field, string)>)
    ensures forall a :: a in Filter(items, Matching(filters)) <==> a in items && MatchesAll(a, filters)
    ensures IsSubsequence(Filter(items, Matching(filters)), items)
  {
    forall a {
      FilterMembership(items, Matching(filters), a);
    }
    FilterIsSubsequence(items, Matching(filters));
  }

  /** Distinct ids and distinct keys, position by position. */
  predicate RowsDistinct(s: seq<AssignmentRecord>)
  {
    forall i, j :: 0 <= i < j < |s| ==> s[i].id != s[j].id && KeyOf(s[i]) != KeyOf(s[j])
  }

  /** Appending a row adds its key. */
  lemma KeysAppend(s: seq<AssignmentRecord>, a: AssignmentRecord)
    ensures Keys(s + [a]) == Keys(s) + {KeyOf(a)}
  {
    assert forall x :: x in s + [a] <==> x in s || x == a;
  }

  /** Removing the row at `i` removes exactly its key, since no other row carries it. */
  lemma KeysRemove(s: seq<AssignmentRecord>, i: int)
    requires RowsDistinct(s) && 0 <= i < |s|
    ensures Keys(s[..i] + s[i + 1..]) == Keys(s) - {KeyOf(s[i])}
    ensures RowsDistinct(s[..i] + s[i + 1..])
  {
    var t := s[..i] + s[i + 1..];
    assert forall j :: 0 <= j < i ==> t[j] == s[j];
    assert forall j :: i <= j < |t| ==> t[j] == s[j + 1];
    KeysOfRemoved(s, i, t);
    forall j, l | 0 <= j < l < |t|
      ensures t[j].id != t[l].id && KeyOf(t[j]) != KeyOf(t[l])
    {
      var j', l' := if j < i then j else j + 1, if l < i then l else l + 1;
      assert t[j] == s[j'] && t[l] == s[l'];
    }
  }

  /** The keys left once the row at `i` is gone. */
  lemma KeysOfRemoved(s: seq<AssignmentRecord>, i: int, t: seq<AssignmentRecord>)
    requires RowsDistinct(s) && 0 <= i < |s|
    requires |t| == |s| - 1
    requires forall j :: 0 <= j < i ==> t[j] == s[j]
    requires forall j :: i <= j < |t| ==> t[j] == s[j + 1]
    ensures Keys(t) == Keys(s) - {KeyOf(s[i])}
  {
    forall k | k in Keys(s) - {KeyOf(s[i])}
      ensures k in Keys(t)
    {
      var a :| a in s && KeyOf(a) == k;
      var j :| 0 <= j < |s| && s[j] == a;
      assert j != i;
      if j < i {
        assert t[j] == a;
      } else {
        assert t[j - 1] == a;
      }
    }
    forall k | k in Keys(t)
      ensures k in Keys(s) - {KeyOf(s[i])}
    {
      var a :| a in t && KeyOf(a) == k;
      var j :| 0 <= j < |t| && t[j] == a;
      if j < i {
        assert s[j] == a;
        assert KeyOf(s[j]) != KeyOf(s[i]);
      } else {
        assert s[j + 1] == a;
        assert KeyOf(s[i]) != KeyOf(s[j + 1]);
      }
    }
  }

  class FakeAssignmentRepository {
    /** `_store.values()`, in insertion order. */
    var items: seq<AssignmentRecord>
    /** `_unique_index`. */
    var uniqueIndex: set<(string, string)>

    /** The index holds exactly the keys of the stored rows, and no id or key is stored twice. */
    ghost predicate Valid()
      reads this
    {
      RowsDistinct(items) && uniqueIndex == Keys(items)
    }

    constructor ()
      ensures Valid()
      ensures items == [] && uniqueIndex == {}
    {
      items := [];
      uniqueIndex := {};
    }

    /** `list_assignments_by_date_range`: the rows whose date lies in [start, end], bounds included. */
    function ListByDateRange(start: string, end: string): (r: seq<AssignmentRecord>)
      reads this
      ensures forall a :: a in r <==> a in items && Le(start, a.date) && Le(a.date, end)
      ensures IsSubsequence(r, items)
    {
      var inRange := (a: AssignmentRecord) => Le(start, a.date) && Le(a.date, end);
      FilterIsSubsequence(items, inRange);
      assert forall a :: a in Filter(items, inRange) <==> a in items && inRange(a) by {
        forall a {
          FilterMembership(items, inRange, a);
        }
      }
      Filter(items, inRange)
    }

    /** `list_assignments(filters)`: the rows whose printed column equals the printed value, for each filter. */
    method ListAssignments(filters: seq<(Field, string)>) returns (r: seq<AssignmentRecord>)
      ensures r == Filter(items, Matching(filters))
      ensures forall a :: a in r <==> a in items && MatchesAll(a, filters)
      ensures IsSubsequence(r, items)
    {
      r := items;
      FilterAll(items, Matching(filters[..0]));
      var k := 0;
      while k < |filters|
        invariant 0 <= k <= |filters|
        invariant r == Filter(items, Matching(filters[..k]))
      {
        r := NarrowBy(items, r, filters, k);
        k := k + 1;
      }
      assert filters[..k] == filters;
      MatchingListing(items, filters);
    }

    /**
     * `create_assignment`: refused with DuplicateAssignmentError, changing nothing, when the
     * instructor is already booked on that date; otherwise the row is stored under a fresh id.
     */
    method CreateAssignment(data: AssignmentData, freshId: string) returns (r: Result<AssignmentRecord, ServiceError>)
      requires Valid()
      requires forall a :: a in items ==> a.id != freshId
      modifies this
      ensures Valid()
      ensures (data.instructorId, data.date) in old(uniqueIndex) ==>
                r == Failure(DuplicateAssignment(data.instructorId, data.date)) &&
                items == old(items) && uniqueIndex == old(uniqueIndex)
      ensures (data.instructorId, data.date) !in old(uniqueIndex) ==>
                r == Success(WithId(freshId, data)) &&
                items == old(items) + [WithId(freshId, data)] &&
                uniqueIndex == old(uniqueIndex) + {(data.instructorId, data.date)}
    {
      var key := (data.instructorId, data.date);
      if key in uniqueIndex {
        return Failure(DuplicateAssignment(data.instructorId, data.date));
      }
      uniqueIndex := uniqueIndex + {key};
      var assignment := WithId(freshId, data);
      KeysAppend(items, assignment);
      assert forall a :: a in items ==> KeyOf(a) in Keys(items);
      items := items + [assignment];
      r := Success(assignment);
    }

    /** `delete_assignment`: removes the row and frees its key when the id is stored; otherwise changes nothing. */
    method DeleteAssignment(id: string) returns (deleted: bool)
      requires Valid()
      modifies this
      ensures Valid()
      ensures deleted <==> exists a :: a in old(items) && a.id == id
      ensures !deleted ==> items == old(items) && uniqueIndex == old(uniqueIndex)
      ensures deleted ==>
                exists i :: 0 <= i < |old(items)| && old(items)[i].id == id &&
                  items == old(items)[..i] + old(items)[i + 1..] &&
                  uniqueIndex == old(uniqueIndex) - {KeyOf(old(items)[i])}
    {
      var i := IndexWhere(items, (a: AssignmentRecord) => a.id == id);
      if i == -1 {
        return false;
      }
      KeysRemove(items, i);
      uniqueIndex := uniqueIndex - {KeyOf(items[i])};
      items := items[..i] + items[i + 1..];
      deleted := true;
    }
  }

  /** After a row is deleted, its instructor can be booked on its date again. */
  method RebookAfterDelete(repo: FakeAssignmentRepository, id: string, data: AssignmentData, freshId: string)
      returns (deleted: bool, again: Result<AssignmentRecord, ServiceError>)
    requires repo.Valid()
    requires WithId(id, data) in repo.items
    requires forall a :: a in repo.items ==> a.id != freshId
    modifies repo
    ensures deleted && again == Success(WithId(freshId, data))
  {
    ghost var before := repo.items;
    deleted := repo.DeleteAssignment(id);
    ghost var i :| 0 <= i < |before| && before[i].id == id && repo.items == before[..i] + before[i + 1..];
    ghost var k :| 0 <= k < |before| && before[k] == WithId(id, data);
    assert k == i;
    again := repo.CreateAssignment(data, freshId);
  }
}

/**
 * The in-memory course date repository (backend/tests/fakes/fake_course_date_repository.py):
 * course dates in insertion order under distinct ids.
 */
module CourseDateStore {
  import opened Wrappers
  import opened Seqs
  import opened Keyed
  import opened BackendTypes

  /**
   * One entry handed to `create_dates`: a date and its day number, and possibly its own
   * course id, which then wins over the one passed alongside.
   */
  datatype CourseDateData = CourseDateData(courseId: Option<string>, date: string, dayNumber: int)

  /** `{"id": str(uuid4()), "course_id": course_id, **d}`. */
  function Created(id: string, courseId: string, d: CourseDateData): (r: CourseDateRecord)
    ensures r.id == id && r.date == d.date && r.dayNumber == d.dayNumber
    ensures d.courseId.None? ==> r.courseId == courseId
    ensures d.courseId.Some? ==> r.courseId == d.courseId.value
  {
    CourseDateRecord(id, if d.courseId.Some? then d.courseId.value else courseId, d.date, d.dayNumber)
  }

  /** The dict key of a stored course date. */
  function CourseDateId(c: CourseDateRecord): string
  {
    c.id
  }

  /** `d["course_id"] == course_id`, as a predicate to filter with. */
  function OfCourse(courseId: string): CourseDateRecord -> bool
  {
    (c: CourseDateRecord) => c.courseId == courseId
  }

  class FakeCourseDateRepository {
    /** `_store.values()`, in insertion order. */
    var items: seq<CourseDateRecord>

    ghost predicate Valid()
      reads this
    {
      UniqueBy(items, CourseDateId)
    }

    constructor ()
      ensures Valid() && items == []
    {
      items := [];
    }

    /** `list_dates_by_course`: the stored dates of that course, in order. */
    function ListDatesByCourse(courseId: string): (r: seq<CourseDateRecord>)
      reads this
      ensures forall c :: c in r <==> c in items && c.courseId == courseId
      ensures IsSubsequence(r, items)
    {
      FilterIsSubsequence(items, OfCourse(courseId));
      assert forall c :: c in Filter(items, OfCourse(courseId)) <==> c in items && OfCourse(courseId)(c) by {
        forall c {
          FilterMembership(items, OfCourse(courseId), c);
        }
      }
      Filter(items, OfCourse(courseId))
    }

    /**
     * `create_dates`: stores one new item per entry, in entry order, each under its own fresh id,
     * and returns them; the store grows by exactly the number of entries.
     */
    method CreateDates(courseId: string, dates: seq<CourseDateData>, freshIds: seq<string>)
        returns (result: seq<CourseDateRecord>)
      requires Valid()
      requires |freshIds| == |dates| && Distinct(freshIds)
      requires forall c, id :: c in items && id in freshIds ==> c.id != id
      modifies this
      ensures Valid()
      ensures items == old(items) + result
      ensures |result| == |dates|
      ensures forall k :: 0 <= k < |dates| ==> result[k] == Created(freshIds[k], courseId, dates[k])
    {
      result := [];
      var k := 0;
      while k < |dates|
        invariant 0 <= k <= |dates|
        invariant Valid()
        invariant items == old(items) + result
        invariant |result| == k
        invariant forall j :: 0 <= j < k ==> result[j] == Created(freshIds[j], courseId, dates[j])
      {
        var item := Created(freshIds[k], courseId, dates[k]);
        forall c | c in items
          ensures c.id != item.id
        {
          assert freshIds[k] in freshIds;
          if c !in old(items) {
            assert c in result;
            var j :| 0 <= j < |result| && result[j] == c;
            assert c.id == freshIds[j];
          }
        }
        AppendKeepsUnique(items, CourseDateId, item);
        items := items + [item];
        result := result + [item];
        k := k + 1;
      }
    }

    /** `delete_date`: true exactly when the id was stored; only that item is removed. */
    method DeleteDate(id: string) returns (deleted: bool)
      requires Valid()
      modifies this
      ensures Valid()
      ensures deleted <==> exists c :: c in old(items) && c.id == id
      ensures !deleted ==> items == old(items)
      ensures deleted ==> exists i :: 0 <= i < |old(items)| && old(items)[i].id == id &&
                                      items == old(items)[..i] + old(items)[i + 1..]
      ensures forall c :: c in items <==> c in old(items) && c.id != id
    {
      var i := IndexOfKey(items, CourseDateId, id);
      if i == -1 {
        return false;
      }
      var rest := items[..i] + items[i + 1..];
      RemoveKeepsUnique(items, CourseDateId, i, rest);
      RemoveByKey(items, CourseDateId, i, rest);
      items := rest;
      deleted := true;
    }
  }
}

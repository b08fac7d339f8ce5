/**
 * The assignments page (frontend/src/pages/Assignments.tsx): after-the-fact detection of
 * double bookings, i.e. two assignments of one instructor on one date, and the selected course's
 * dates in day order.
 */
module AssignmentsPage {
  import opened Wrappers
  import opened Seqs
  import opened Strs
  import opened FrontTypes
  import opened MockData

  /** The grouping key `${date}::${instructor_id}`. */
  function Key(a: Assignment): string
  {
    a.date + "::" + a.instructorId
  }

  /** Everything before the first ':' of a key is the date, as long as dates hold no ':'. */
  lemma {:induction false} BeforeFirstOfJoin(d: string, rest: string)
    requires ':' !in d
    ensures BeforeFirst(d + ":" + rest, ':') == d
  {
    if d != [] {
      assert (d + ":" + rest)[1..] == d[1..] + ":" + rest;
      BeforeFirstOfJoin(d[1..], rest);
    }
  }

  /** For dates without ':' (ISO dates), equal keys mean the same date and instructor. */
  lemma KeyInjective(a: Assignment, b: Assignment)
    requires ':' !in a.date && ':' !in b.date
    requires Key(a) == Key(b)
    ensures a.date == b.date && a.instructorId == b.instructorId
  {
    KeyDate(a);
    KeyDate(b);
    var prefix := a.date + "::";
    assert Key(a) == prefix + a.instructorId;
    assert Key(b) == prefix + b.instructorId;
    assert a.instructorId == Key(a)[|prefix|..];
    assert b.instructorId == Key(b)[|prefix|..];
  }

  /** The date is what precedes the first ':' of the key. */
  lemma KeyDate(a: Assignment)
    requires ':' !in a.date
    ensures BeforeFirst(Key(a), ':') == a.date
  {
    assert Key(a) == a.date + ":" + (":" + a.instructorId);
    BeforeFirstOfJoin(a.date, ":" + a.instructorId);
  }

  /** How many assignments carry `key`. */
  function CountOf(assignments: seq<Assignment>, key: string): nat
  {
    |Filter(assignments, (a: Assignment) => Key(a) == key)|
  }

  /** A JavaScript `Map<string, number>`: entries in insertion order, each key once. */
  type Counts = seq<(string, nat)>

  predicate KeysDistinct(c: Counts)
  {
    forall i, j :: 0 <= i < j < |c| ==> c[i].0 != c[j].0
  }

  /** `map.get(key) ?? 0`. */
  function Get(c: Counts, key: string): nat
  {
    if c == [] then 0
    else if c[|c| - 1].0 == key then c[|c| - 1].1
    else Get(c[..|c| - 1], key)
  }

  /** `map.set(key, v)`: overwrite in place, or append a new entry. */
  function Set(c: Counts, key: string, v: nat): (r: Counts)
    ensures |r| == |c| || |r| == |c| + 1
  {
    if c == [] then [(key, v)]
    else if c[|c| - 1].0 == key then c[..|c| - 1] + [(key, v)]
    else Set(c[..|c| - 1], key, v) + [c[|c| - 1]]
  }

  /** Sum of the counts. */
  function Total(c: Counts): nat
  {
    if c == [] then 0 else Total(c[..|c| - 1]) + c[|c| - 1].1
  }

  /** Setting a key changes its value, keeps the keys distinct, and shifts the total accordingly. */
  lemma SetFacts(c: Counts, key: string, v: nat)
    requires KeysDistinct(c)
    ensures KeysDistinct(Set(c, key, v))
    ensures forall k :: Get(Set(c, key, v), k) == if k == key then v else Get(c, k)
    ensures Total(Set(c, key, v)) == Total(c) - Get(c, key) + v
  {
    SetKeys(c, key, v);
    forall k
      ensures Get(Set(c, key, v), k) == if k == key then v else Get(c, k)
    {
      SetGet(c, key, v, k);
    }
    SetTotal(c, key, v);
  }

  /**
   * Setting a key keeps the keys distinct; every entry afterwards is either the key's or an
   * entry that was there before.
   */
  lemma {:induction false} SetKeys(c: Counts, key: string, v: nat)
    requires KeysDistinct(c)
    ensures KeysDistinct(Set(c, key, v))
    ensures forall i :: 0 <= i < |Set(c, key, v)| ==>
              Set(c, key, v)[i].0 == key || exists j :: 0 <= j < |c| && c[j] == Set(c, key, v)[i]
  {
    if c != [] {
      var init := c[..|c| - 1];
      var last := c[|c| - 1];
      var r := Set(c, key, v);
      assert KeysDistinct(init);
      if last.0 == key {
        assert r == init + [(key, v)];
        forall i | 0 <= i < |r| && r[i].0 != key
          ensures exists j :: 0 <= j < |c| && c[j] == r[i]
        {
          assert c[i] == r[i];
        }
      } else {
        SetKeys(init, key, v);
        var s := Set(init, key, v);
        assert r == s + [last];
        forall i | 0 <= i < |s|
          ensures s[i].0 != last.0
        {
          if s[i].0 != key {
            var j :| 0 <= j < |init| && init[j] == s[i];
            assert c[j] == init[j];
          }
        }
        forall i | 0 <= i < |r| && r[i].0 != key
          ensures exists j :: 0 <= j < |c| && c[j] == r[i]
        {
          if i < |s| {
            var j :| 0 <= j < |init| && init[j] == s[i];
            assert c[j] == r[i];
          } else {
            assert c[|c| - 1] == r[i];
          }
        }
      }
    }
  }

  /** After setting `key` to `v`, `key` reads `v` and every other key reads as before. */
  lemma {:induction false} SetGet(c: Counts, key: string, v: nat, k: string)
    ensures Get(Set(c, key, v), k) == if k == key then v else Get(c, k)
  {
    if c != [] {
      var init := c[..|c| - 1];
      var last := c[|c| - 1];
      if last.0 == key {
        assert Set(c, key, v)[..|init|] == init;
      } else {
        SetGet(init, key, v, k);
        assert Set(c, key, v)[..|Set(init, key, v)|] == Set(init, key, v);
      }
    }
  }

  /** Setting `key` to `v` trades its old reading for `v` in the total. */
  lemma {:induction false} SetTotal(c: Counts, key: string, v: nat)
    requires KeysDistinct(c)
    ensures Total(Set(c, key, v)) == Total(c) - Get(c, key) + v
  {
    if c != [] {
      var init := c[..|c| - 1];
      var last := c[|c| - 1];
      assert KeysDistinct(init);
      if last.0 == key {
        GetAbsent(init, key);
        assert Set(c, key, v)[..|init|] == init;
      } else {
        SetTotal(init, key, v);
        assert Set(c, key, v)[..|Set(init, key, v)|] == Set(init, key, v);
      }
    }
  }

  /** A key absent from every entry reads as 0. */
  lemma {:induction false} GetAbsent(c: Counts, key: string)
    requires forall i :: 0 <= i < |c| ==> c[i].0 != key
    ensures Get(c, key) == 0
  {
    if c != [] {
      GetAbsent(c[..|c| - 1], key);
    }
  }

  /** With distinct keys, an entry's value is what `Get` reads for its key. */
  lemma {:induction false} GetAt(c: Counts, i: int)
    requires KeysDistinct(c)
    requires 0 <= i < |c|
    ensures Get(c, c[i].0) == c[i].1
  {
    if i < |c| - 1 {
      assert c[..|c| - 1][i] == c[i];
      GetAt(c[..|c| - 1], i);
    }
  }

  /** A key with a nonzero reading has an entry. */
  lemma {:induction false} GetPresent(c: Counts, key: string)
    requires Get(c, key) > 0
    ensures exists i :: 0 <= i < |c| && c[i].0 == key
  {
    if c[|c| - 1].0 != key {
      GetPresent(c[..|c| - 1], key);
      var i :| 0 <= i < |c| - 1 && c[..|c| - 1][i].0 == key;
      assert c[i].0 == key;
    }
  }

  /** The keys with more than one assignment among the first `j` entries. */
  function DuplicatesIn(c: Counts, j: int): set<string>
    requires 0 <= j <= |c|
  {
    set i | 0 <= i < j && c[i].1 > 1 :: c[i].0
  }

  /**
   * The detection on the page: count assignments per key in a `Map`, then collect the keys
   * counted more than once. Every assignment is counted, whatever its course.
   */
  method DetectDuplicates(assignments: seq<Assignment>) returns (counts: Counts, duplicateKeys: set<string>)
    ensures KeysDistinct(counts)
    ensures forall key :: Get(counts, key) == CountOf(assignments, key)
    ensures Total(counts) == |assignments|
    ensures forall key :: key in duplicateKeys <==> CountOf(assignments, key) >= 2
  {
    counts := [];
    var i := 0;
    while i < |assignments|
      invariant 0 <= i <= |assignments|
      invariant KeysDistinct(counts)
      invariant forall key :: Get(counts, key) == CountOf(assignments[..i], key)
      invariant Total(counts) == i
    {
      counts := CountOne(assignments, i, counts);
      i := i + 1;
    }
    assert assignments[..|assignments|] == assignments;
    duplicateKeys := {};
    var j := 0;
    while j < |counts|
      invariant 0 <= j <= |counts|
      invariant duplicateKeys == DuplicatesIn(counts, j)
    {
      if counts[j].1 > 1 {
        duplicateKeys := duplicateKeys + {counts[j].0};
      }
      j := j + 1;
    }
    DuplicatesMeaning(assignments, counts);
  }

  /** One pass of the counting loop: the key of assignment `i` goes up by one. */
  method CountOne(assignments: seq<Assignment>, i: int, counts: Counts) returns (counts': Counts)
    requires 0 <= i < |assignments|
    requires KeysDistinct(counts)
    requires forall key :: Get(counts, key) == CountOf(assignments[..i], key)
    requires Total(counts) == i
    ensures KeysDistinct(counts')
    ensures forall key :: Get(counts', key) == CountOf(assignments[..i + 1], key)
    ensures Total(counts') == i + 1
  {
    var a := assignments[i];
    var key := Key(a);
    SetFacts(counts, key, Get(counts, key) + 1);
    assert assignments[..i + 1] == assignments[..i] + [a];
    forall k ensures CountOf(assignments[..i + 1], k) == CountOf(assignments[..i], k) + (if Key(a) == k then 1 else 0) {
      FilterAppend(assignments[..i], [a], (b: Assignment) => Key(b) == k);
      FilterSingleton(a, (b: Assignment) => Key(b) == k);
    }
    counts' := Set(counts, key, Get(counts, key) + 1);
  }

  /** Over complete counts, the keys counted more than once are the keys carried twice or more. */
  lemma DuplicatesMeaning(assignments: seq<Assignment>, counts: Counts)
    requires KeysDistinct(counts)
    requires forall key :: Get(counts, key) == CountOf(assignments, key)
    ensures forall key :: key in DuplicatesIn(counts, |counts|) <==> CountOf(assignments, key) >= 2
  {
    forall key ensures key in DuplicatesIn(counts, |counts|) <==> CountOf(assignments, key) >= 2 {
      if key in DuplicatesIn(counts, |counts|) {
        var i :| 0 <= i < |counts| && counts[i].1 > 1 && counts[i].0 == key;
        GetAt(counts, i);
      }
      if CountOf(assignments, key) >= 2 {
        GetPresent(counts, key);
        var i :| 0 <= i < |counts| && counts[i].0 == key;
        GetAt(counts, i);
        assert counts[i].0 in DuplicatesIn(counts, |counts|);
      }
    }
  }

  /** A row is flagged when its key is a duplicate key; every member of a group is flagged alike. */
  function IsDuplicateRow(a: Assignment, duplicateKeys: set<string>): bool
  {
    Key(a) in duplicateKeys
  }

  /** Two elements satisfying `p` stand behind any filter of size two or more. */
  lemma {:induction false} FilterTwo<T>(s: seq<T>, p: T -> bool)
    requires |Filter(s, p)| >= 2
    ensures exists i, j :: 0 <= i < j < |s| && p(s[i]) && p(s[j])
  {
    if p(s[0]) {
      FilterMembership(s[1..], p, Filter(s[1..], p)[0]);
      var j :| 0 <= j < |s[1..]| && s[1..][j] == Filter(s[1..], p)[0];
      assert p(s[0]) && p(s[j + 1]);
    } else {
      FilterTwo(s[1..], p);
      var i, j :| 0 <= i < j < |s[1..]| && p(s[1..][i]) && p(s[1..][j]);
      assert p(s[i + 1]) && p(s[j + 1]);
    }
  }

  /** Two elements satisfying `p` give a filter of size two or more. */
  lemma FilterAtLeastTwo<T>(s: seq<T>, p: T -> bool, i: int, j: int)
    requires 0 <= i < j < |s| && p(s[i]) && p(s[j])
    ensures |Filter(s, p)| >= 2
  {
    assert s == s[..j] + s[j..];
    FilterAppend(s[..j], s[j..], p);
    FilterMembership(s[..j], p, s[i]);
    FilterMembership(s[j..], p, s[j]);
  }

  /**
   * With the keys `DetectDuplicates` collects, a row is flagged exactly when another row has the
   * same date and instructor (dates being free of ':').
   */
  lemma DuplicateRowMeaning(assignments: seq<Assignment>, duplicateKeys: set<string>, k: int)
    requires forall key :: key in duplicateKeys <==> CountOf(assignments, key) >= 2
    requires forall i :: 0 <= i < |assignments| ==> ':' !in assignments[i].date
    requires 0 <= k < |assignments|
    ensures IsDuplicateRow(assignments[k], duplicateKeys) <==>
      exists j :: 0 <= j < |assignments| && j != k && assignments[j].date == assignments[k].date &&
                  assignments[j].instructorId == assignments[k].instructorId
  {
    var a := assignments[k];
    var key := Key(a);
    var p := (b: Assignment) => Key(b) == key;
    assert CountOf(assignments, key) == |Filter(assignments, p)|;
    if IsDuplicateRow(a, duplicateKeys) {
      FilterTwo(assignments, p);
      var i, j :| 0 <= i < j < |assignments| && p(assignments[i]) && p(assignments[j]);
      var other := if i != k then i else j;
      KeyInjective(assignments[other], a);
    } else {
      forall j | 0 <= j < |assignments| && j != k
        ensures !(assignments[j].date == a.date && assignments[j].instructorId == a.instructorId)
      {
        if assignments[j].date == a.date && assignments[j].instructorId == a.instructorId {
          if j < k {
            FilterAtLeastTwo(assignments, p, j, k);
          } else {
            FilterAtLeastTwo(assignments, p, k, j);
          }
        }
      }
    }
  }

  /** Removing one of exactly two assignments that share a key leaves one, so the key stops being a duplicate. */
  lemma RemoveOneOfTwo(assignments: seq<Assignment>, i: int)
    requires 0 <= i < |assignments|
    requires CountOf(assignments, Key(assignments[i])) == 2
    ensures CountOf(assignments[..i] + assignments[i + 1..], Key(assignments[i])) == 1
  {
    var key := Key(assignments[i]);
    var p := (a: Assignment) => Key(a) == key;
    assert assignments == assignments[..i] + [assignments[i]] + assignments[i + 1..];
    FilterAppend(assignments[..i] + [assignments[i]], assignments[i + 1..], p);
    FilterAppend(assignments[..i], [assignments[i]], p);
    FilterAppend(assignments[..i], assignments[i + 1..], p);
    FilterSingleton(assignments[i], p);
  }

  /** Three elements satisfying `p` stand behind any filter of size three or more. */
  lemma {:induction false} FilterThree<T>(s: seq<T>, p: T -> bool)
    requires |Filter(s, p)| >= 3
    ensures exists i, j, k :: 0 <= i < j < k < |s| && p(s[i]) && p(s[j]) && p(s[k])
  {
    var t := s[1..];
    if p(s[0]) {
      assert |Filter(t, p)| >= 2;
      FilterTwo(t, p);
      var i, j :| 0 <= i < j < |t| && p(t[i]) && p(t[j]);
      assert t[i] == s[i + 1] && t[j] == s[j + 1];
      assert 0 < i + 1 < j + 1 < |s| && p(s[0]) && p(s[i + 1]) && p(s[j + 1]);
    } else {
      assert |Filter(t, p)| >= 3;
      FilterThree(t, p);
      var i, j, k :| 0 <= i < j < k < |t| && p(t[i]) && p(t[j]) && p(t[k]);
      assert t[i] == s[i + 1] && t[j] == s[j + 1] && t[k] == s[k + 1];
      assert 0 <= i + 1 < j + 1 < k + 1 < |s| && p(s[i + 1]) && p(s[j + 1]) && p(s[k + 1]);
    }
  }

  /** The mock dates are ISO dates, free of ':'. */
  lemma MockDates()
    ensures forall i :: 0 <= i < |MockAssignments| ==> ':' !in MockAssignments[i].date
  {
  }

  /** In the mock data only asgn-3 and asgn-8 share a date and an instructor. */
  lemma MockPairs(i: int, j: int)
    requires 0 <= i < j < |MockAssignments|
    requires MockAssignments[i].date == MockAssignments[j].date
    requires MockAssignments[i].instructorId == MockAssignments[j].instructorId
    ensures i == 2 && j == 7
  {
  }

  /** The key asgn-3 and asgn-8 share. */
  lemma MockDuplicateKey()
    ensures Key(MockAssignments[2]) == Key(MockAssignments[7]) == "2026-02-18::inst-1"
  {
  }

  /** A key carried twice or more in the mock data is that of asgn-3 and asgn-8. */
  lemma MockSharedKey(key: string)
    requires CountOf(MockAssignments, key) >= 2
    ensures key == "2026-02-18::inst-1"
  {
    var s := MockAssignments;
    var p := (a: Assignment) => Key(a) == key;
    MockDates();
    MockDuplicateKey();
    FilterTwo(s, p);
    var i, j :| 0 <= i < j < |s| && p(s[i]) && p(s[j]);
    KeyInjective(s[i], s[j]);
    MockPairs(i, j);
  }

  /** No key is carried three times in the mock data. */
  lemma MockNoTriple(key: string)
    ensures CountOf(MockAssignments, key) <= 2
  {
    var s := MockAssignments;
    var p := (a: Assignment) => Key(a) == key;
    if CountOf(s, key) >= 3 {
      MockDates();
      FilterThree(s, p);
      var a, b, c :| 0 <= a < b < c < |s| && p(s[a]) && p(s[b]) && p(s[c]);
      KeyInjective(s[a], s[b]);
      MockPairs(a, b);
      assert false;
    }
  }

  /** asgn-3 and asgn-8 both carry the key of inst-1 on 2026-02-18. */
  lemma MockSharedKeyCount()
    ensures CountOf(MockAssignments, "2026-02-18::inst-1") >= 2
  {
    var s := MockAssignments;
    var p := (a: Assignment) => Key(a) == "2026-02-18::inst-1";
    MockDuplicateKey();
    assert s == s[..2] + [s[2]] + s[3..7] + [s[7]];
    FilterAppend(s[..2] + [s[2]] + s[3..7], [s[7]], p);
    FilterAppend(s[..2] + [s[2]], s[3..7], p);
    FilterAppend(s[..2], [s[2]], p);
  }

  /** Every key of the mock data is carried once, except inst-1 on 2026-02-18, which is carried twice. */
  lemma MockKeys(key: string)
    ensures key == "2026-02-18::inst-1" ==> CountOf(MockAssignments, key) == 2
    ensures key != "2026-02-18::inst-1" ==> CountOf(MockAssignments, key) <= 1
  {
    MockNoTriple(key);
    if CountOf(MockAssignments, key) >= 2 {
      MockSharedKey(key);
    }
    if key == "2026-02-18::inst-1" {
      MockSharedKeyCount();
    }
  }

  /** On the mock data exactly one pair is double-booked: inst-1 on 2026-02-18. */
  method MockDuplicateCount() returns (duplicateKeys: set<string>, duplicateCount: nat)
    ensures duplicateKeys == {"2026-02-18::inst-1"}
    ensures duplicateCount == 1
  {
    var counts;
    counts, duplicateKeys := DetectDuplicates(MockAssignments);
    forall key ensures key in duplicateKeys <==> key == "2026-02-18::inst-1" {
      MockKeys(key);
    }
    duplicateCount := |duplicateKeys|;
  }

  /** Non-decreasing by day number. */
  predicate SortedByDay(s: seq<CourseDate>)
  {
    forall i :: 0 <= i < |s| - 1 ==> s[i].dayNumber <= s[i + 1].dayNumber
  }

  /** Insert `x` after every element whose day number is not larger, which keeps the sort stable. */
  function InsertByDay(l: seq<CourseDate>, x: CourseDate): (r: seq<CourseDate>)
    requires SortedByDay(l)
    ensures SortedByDay(r)
    ensures multiset(r) == multiset(l) + multiset{x}
    ensures |r| > 0 && (r[0] == x || (l != [] && r[0] == l[0]))
  {
    if l == [] then [x]
    else if x.dayNumber < l[0].dayNumber then [x] + l
    else
      assert l == [l[0]] + l[1..];
      [l[0]] + InsertByDay(l[1..], x)
  }

  /** `.sort((a, b) => a.day_number - b.day_number)`: ordered by day number, same elements. */
  function SortByDay(s: seq<CourseDate>): (r: seq<CourseDate>)
    ensures SortedByDay(r)
    ensures multiset(r) == multiset(s)
  {
    if s == [] then []
    else
      assert s == s[..|s| - 1] + [s[|s| - 1]];
      InsertByDay(SortByDay(s[..|s| - 1]), s[|s| - 1])
  }

  /** The dates shown for the selected course. */
  function CourseDatesShown(courseDates: seq<CourseDate>, selectedCourseId: string): seq<CourseDate>
  {
    SortByDay(Filter(courseDates, (cd: CourseDate) => cd.courseId == selectedCourseId))
  }

  /** The shown dates are exactly the selected course's dates, once each as often as stored, in day order. */
  lemma CourseDatesShownMeaning(courseDates: seq<CourseDate>, selectedCourseId: string, cd: CourseDate)
    ensures SortedByDay(CourseDatesShown(courseDates, selectedCourseId))
    ensures cd in CourseDatesShown(courseDates, selectedCourseId) <==> cd in courseDates && cd.courseId == selectedCourseId
    ensures |CourseDatesShown(courseDates, selectedCourseId)| ==
              |Filter(courseDates, (c: CourseDate) => c.courseId == selectedCourseId)|
  {
    var f := Filter(courseDates, (c: CourseDate) => c.courseId == selectedCourseId);
    FilterMembership(courseDates, (c: CourseDate) => c.courseId == selectedCourseId, cd);
    var r := SortByDay(f);
    assert cd in r <==> cd in multiset(r);
    assert cd in f <==> cd in multiset(f);
    assert |r| == |multiset(r)| == |multiset(f)| == |f|;
  }

  /** A course offered for selection: its status is not '완료' (a missing status is offered). */
  predicate Offered(c: Course)
  {
    c.status != Some("완료")
  }

  /** Courses offered for selection, in stored order. */
  function ActiveCourses(courses: seq<Course>): seq<Course>
  {
    Filter(courses, Offered)
  }

  /** The offered courses are exactly the stored ones not marked '완료', in stored order. */
  lemma ActiveCoursesMeaning(courses: seq<Course>)
    ensures forall c :: c in ActiveCourses(courses) <==> c in courses && c.status != Some("완료")
  {
    forall c {
      FilterMembership(courses, Offered, c);
    }
  }

  /**
   * The initially selected course, `activeCourses[0]?.id ?? ''`: the id of the first stored course
   * not marked '완료', or '' when every course is completed.
   */
  function InitialCourseId(courses: seq<Course>): (id: string)
    ensures (forall c :: c in courses ==> c.status == Some("완료")) ==> id == ""
    ensures forall k ::
      0 <= k < |courses| && courses[k].status != Some("완료") && (forall j :: 0 <= j < k ==> courses[j].status == Some("완료"))
      ==> id == courses[k].id
  {
    var active := ActiveCourses(courses);
    FilterHead(courses, Offered);
    if |active| > 0 then
      active[0].id
    else
      ActiveCoursesMeaning(courses);
      assert forall c :: c in courses ==> c !in active;
      ""
  }

}

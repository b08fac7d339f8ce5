/**
 * The instructor's own schedule page (frontend/src/pages/instructor/InstructorSchedule.tsx):
 * assignments grouped by date, the instructor's availability records by date, the click that
 * issues one availability mutation, the cell status and the month summary counters.
 */
module InstructorSchedule {
  import opened Wrappers
  import opened Seqs
  import opened Dates
  import opened CalendarGrid
  import opened FrontTypes
  import opened AvailabilityPage

  /** A calendar event as the calendar endpoint returns it, reduced to what the page reads. */
  datatype ScheduleEvent = ScheduleEvent(date: string, instructorId: string, assignmentId: string, courseTitle: string)

  /** The event belongs to the logged-in instructor (`null` matches no event). */
  predicate Mine(ev: ScheduleEvent, instructorId: Option<string>)
  {
    instructorId.Some? && ev.instructorId == instructorId.value
  }

  predicate MineOn(ev: ScheduleEvent, instructorId: Option<string>, d: string)
  {
    Mine(ev, instructorId) && ev.date == d
  }

  /** `assignedMap`: the instructor's events read front to back, each appended to its date's list. */
  function GroupByDate(events: seq<ScheduleEvent>, instructorId: Option<string>): map<string, seq<ScheduleEvent>>
  {
    if events == [] then map[]
    else
      var m := GroupByDate(events[..|events| - 1], instructorId);
      var ev := events[|events| - 1];
      if Mine(ev, instructorId) then m[ev.date := (if ev.date in m then m[ev.date] else []) + [ev]] else m
  }

  /**
   * A date is a key exactly when the instructor has an event on it; its list is that date's
   * events in input order, and never empty.
   */
  lemma {:induction false} GroupByDateMeaning(events: seq<ScheduleEvent>, instructorId: Option<string>, d: string)
    ensures d in GroupByDate(events, instructorId) <==>
              exists k :: 0 <= k < |events| && MineOn(events[k], instructorId, d)
    ensures d in GroupByDate(events, instructorId) ==>
              GroupByDate(events, instructorId)[d] == Filter(events, (ev: ScheduleEvent) => MineOn(ev, instructorId, d)) &&
              |GroupByDate(events, instructorId)[d]| > 0
    ensures d !in GroupByDate(events, instructorId) ==>
              Filter(events, (ev: ScheduleEvent) => MineOn(ev, instructorId, d)) == []
  {
    var p := (ev: ScheduleEvent) => MineOn(ev, instructorId, d);
    if events != [] {
      var init := events[..|events| - 1];
      var ev := events[|events| - 1];
      GroupByDateMeaning(init, instructorId, d);
      assert events == init + [ev];
      FilterAppend(init, [ev], p);
      FilterSingleton(ev, p);
      assert forall k :: 0 <= k < |init| ==> init[k] == events[k];
      if MineOn(ev, instructorId, d) {
        assert MineOn(events[|events| - 1], instructorId, d);
      } else if d !in GroupByDate(events, instructorId) {
        assert !MineOn(events[|events| - 1], instructorId, d);
      }
    }
  }

  /** The loop that fills `assignedMap`. */
  method BuildAssignedMap(events: seq<ScheduleEvent>, instructorId: Option<string>) returns (m: map<string, seq<ScheduleEvent>>)
    ensures m == GroupByDate(events, instructorId)
  {
    m := map[];
    var i := 0;
    while i < |events|
      invariant 0 <= i <= |events|
      invariant m == GroupByDate(events[..i], instructorId)
    {
      assert events[..i + 1][..i] == events[..i];
      var ev := events[i];
      if Mine(ev, instructorId) {
        var arr := if ev.date in m then m[ev.date] else [];
        m := m[ev.date := arr + [ev]];
      }
      i := i + 1;
    }
    assert events[..|events|] == events;
  }

  /** `availMap`: records read front to back, each one setting its date. */
  function LastByDate(avs: seq<Availability>): map<string, Availability>
  {
    if avs == [] then map[]
    else LastByDate(avs[..|avs| - 1])[avs[|avs| - 1].date := avs[|avs| - 1]]
  }

  /** A date is a key exactly when a record has it, and it maps to the last record with that date. */
  lemma {:induction false} LastByDateMeaning(avs: seq<Availability>, d: string)
    ensures d in LastByDate(avs) <==> exists k :: 0 <= k < |avs| && avs[k].date == d
    ensures d in LastByDate(avs) ==>
              exists k :: 0 <= k < |avs| && avs[k] == LastByDate(avs)[d] && avs[k].date == d &&
                forall j :: k < j < |avs| ==> avs[j].date != d
  {
    if avs != [] {
      var init := avs[..|avs| - 1];
      LastByDateMeaning(init, d);
      assert forall k :: 0 <= k < |init| ==> init[k] == avs[k];
      if avs[|avs| - 1].date != d && d in LastByDate(avs) {
        var k :| 0 <= k < |init| && init[k] == LastByDate(init)[d] && init[k].date == d &&
                 forall j :: k < j < |init| ==> init[j].date != d;
        assert forall j :: k < j < |avs| ==> avs[j].date != d;
      }
    }
  }

  /** The loop that fills `availMap`. */
  method BuildAvailMap(avs: seq<Availability>) returns (m: map<string, Availability>)
    ensures m == LastByDate(avs)
  {
    m := map[];
    var i := 0;
    while i < |avs|
      invariant 0 <= i <= |avs|
      invariant m == LastByDate(avs[..i])
    {
      assert avs[..i + 1][..i] == avs[..i];
      m := m[avs[i].date := avs[i]];
      i := i + 1;
    }
    assert avs[..|avs|] == avs;
  }

  /** The two availability calls a click can issue. */
  datatype Mutation = Upsert(instructorId: string, date: string, status: AvailStatus) | Delete(id: string)

  /** `!instructorId`: no instructor, or the empty id. */
  predicate NoInstructor(instructorId: Option<string>)
  {
    instructorId.None? || instructorId.value == ""
  }

  /**
   * The calls `handleDayClick` issues: none without an instructor or on an assigned date;
   * otherwise exactly one, chosen by the date's current record.
   */
  function ClickMutations(instructorId: Option<string>, assignedMap: map<string, seq<ScheduleEvent>>,
                          availMap: map<string, Availability>, dateStr: string): (r: seq<Mutation>)
    ensures |r| <= 1
    ensures r == [] <==> NoInstructor(instructorId) || dateStr in assignedMap
    ensures |r| == 1 ==> (r[0].Upsert? <==> dateStr !in availMap || availMap[dateStr].status == Available)
  {
    if NoInstructor(instructorId) || dateStr in assignedMap then []
    else if dateStr !in availMap then [Upsert(instructorId.value, dateStr, Available)]
    else if availMap[dateStr].status == Available then [Upsert(instructorId.value, dateStr, Unavailable)]
    else [Delete(availMap[dateStr].id)]
  }

  /**
   * What the refetched `availMap` becomes once the back end has applied a call: an upsert
   * changes the status of the date's record or creates one under `freshId`; a delete removes
   * the record with that id.
   */
  function ApplyMutation(availMap: map<string, Availability>, m: Mutation, freshId: string): map<string, Availability>
  {
    match m
    case Upsert(i, d, s) =>
      if d in availMap then availMap[d := availMap[d].(status := s)]
      else availMap[d := Availability(freshId, i, d, s)]
    case Delete(id) => map k | k in availMap && availMap[k].id != id :: availMap[k]
  }

  /**
   * From no record, three clicks issue upsert(available), upsert(unavailable) and a delete of
   * the record the first one created, and the map ends where it started.
   */
  lemma ThreeClicks(instructorId: Option<string>, assignedMap: map<string, seq<ScheduleEvent>>,
                    availMap: map<string, Availability>, dateStr: string, freshId: string)
    requires !NoInstructor(instructorId) && dateStr !in assignedMap
    requires dateStr !in availMap
    requires forall k :: k in availMap ==> availMap[k].id != freshId
    ensures var c1 := ClickMutations(instructorId, assignedMap, availMap, dateStr);
            var a1 := ApplyMutation(availMap, c1[0], freshId);
            var c2 := ClickMutations(instructorId, assignedMap, a1, dateStr);
            var a2 := ApplyMutation(a1, c2[0], freshId);
            var c3 := ClickMutations(instructorId, assignedMap, a2, dateStr);
            c1 == [Upsert(instructorId.value, dateStr, Available)] &&
            c2 == [Upsert(instructorId.value, dateStr, Unavailable)] &&
            c3 == [Delete(freshId)] &&
            ApplyMutation(a2, c3[0], freshId) == availMap
  {
    var c1 := ClickMutations(instructorId, assignedMap, availMap, dateStr);
    var a1 := ApplyMutation(availMap, c1[0], freshId);
    var c2 := ClickMutations(instructorId, assignedMap, a1, dateStr);
    var a2 := ApplyMutation(a1, c2[0], freshId);
    assert a2[dateStr] == Availability(freshId, instructorId.value, dateStr, Unavailable);
    var c3 := ClickMutations(instructorId, assignedMap, a2, dateStr);
    assert c3 == [Delete(freshId)];
    var a3 := ApplyMutation(a2, c3[0], freshId);
    assert a3.Keys == availMap.Keys;
  }

  /** The cell status: `assigned` when the day has events, else the record's status, else none. */
  function CellStatusOf(assignedMap: map<string, seq<ScheduleEvent>>, availMap: map<string, Availability>, dateStr: string)
    : CellStatus
  {
    var dayEvents := if dateStr in assignedMap then assignedMap[dateStr] else [];
    Effective(|dayEvents| > 0, if dateStr in availMap then Some(availMap[dateStr].status) else None)
  }

  /**
   * On the map the page builds, the cell shows `assigned` exactly on the dates the click
   * refuses to change, and otherwise no status exactly when the date has no record.
   */
  lemma CellStatusMatchesClickGuard(events: seq<ScheduleEvent>, instructorId: Option<string>,
                                    avs: seq<Availability>, dateStr: string)
    ensures CellStatusOf(GroupByDate(events, instructorId), LastByDate(avs), dateStr) == AssignedCell <==>
              dateStr in GroupByDate(events, instructorId)
    ensures dateStr !in GroupByDate(events, instructorId) ==>
              (CellStatusOf(GroupByDate(events, instructorId), LastByDate(avs), dateStr) == NoStatus <==>
                 forall k :: 0 <= k < |avs| ==> avs[k].date != dateStr)
  {
    GroupByDateMeaning(events, instructorId, dateStr);
    LastByDateMeaning(avs, dateStr);
  }

  /** Off the assigned dates, the cell shows the status of the date's last record. */
  lemma CellShowsLastRecord(events: seq<ScheduleEvent>, instructorId: Option<string>,
                            avs: seq<Availability>, dateStr: string, k: int)
    requires dateStr !in GroupByDate(events, instructorId)
    requires 0 <= k < |avs| && avs[k].date == dateStr
    requires forall j :: k < j < |avs| ==> avs[j].date != dateStr
    ensures CellStatusOf(GroupByDate(events, instructorId), LastByDate(avs), dateStr) == Reported(avs[k].status)
  {
    LastByDateMeaning(avs, dateStr);
    var last :| 0 <= last < |avs| && avs[last] == LastByDate(avs)[dateStr] && avs[last].date == dateStr &&
                forall j :: last < j < |avs| ==> avs[j].date != dateStr;
    assert !(k < last) && !(last < k);
  }

  /** The page's state: who is logged in, the two maps and the calls issued so far. */
  class SchedulePage {
    const instructorId: Option<string>
    var assignedMap: map<string, seq<ScheduleEvent>>
    var availMap: map<string, Availability>
    var calls: seq<Mutation>

    constructor (instructorId: Option<string>, events: seq<ScheduleEvent>, availData: seq<Availability>)
      ensures this.instructorId == instructorId
      ensures assignedMap == GroupByDate(events, instructorId)
      ensures availMap == LastByDate(availData)
      ensures calls == []
    {
      var am := BuildAssignedMap(events, instructorId);
      var av := BuildAvailMap(availData);
      this.instructorId := instructorId;
      assignedMap := am;
      availMap := av;
      calls := [];
    }

    /** `handleDayClick`: issue the click's calls; the maps change only when they are refetched. */
    method HandleDayClick(dateStr: string)
      modifies this
      ensures calls == old(calls) + ClickMutations(instructorId, assignedMap, availMap, dateStr)
      ensures assignedMap == old(assignedMap) && availMap == old(availMap)
    {
      if NoInstructor(instructorId) || dateStr in assignedMap {
        return;
      }
      if dateStr !in availMap {
        calls := calls + [Upsert(instructorId.value, dateStr, Available)];
      } else if availMap[dateStr].status == Available {
        calls := calls + [Upsert(instructorId.value, dateStr, Unavailable)];
      } else {
        calls := calls + [Delete(availMap[dateStr].id)];
      }
    }

    /**
     * A click on a cell, `day.isCurrentMonth && handleDayClick(day.dateStr)`: a day of the
     * neighbouring months issues no call.
     */
    method ClickDay(day: CalendarDay)
      modifies this
      ensures calls == old(calls) + if day.isCurrentMonth then ClickMutations(instructorId, assignedMap, availMap, day.dateStr) else []
      ensures assignedMap == old(assignedMap) && availMap == old(availMap)
    {
      if day.isCurrentMonth {
        HandleDayClick(day.dateStr);
      }
    }

    /** The refetch after a call: the back end's answer replaces `availMap`. */
    method Refetch(availData: seq<Availability>)
      modifies this
      ensures availMap == LastByDate(availData)
      ensures assignedMap == old(assignedMap) && calls == old(calls)
    {
      availMap := BuildAvailMap(availData);
    }
  }

  /** The four summary counters. */
  datatype Stats = Stats(assignedDays: nat, available: nat, unavailable: nat, pending: nat)

  datatype DayKind = AssignedDay | AvailableDay | UnavailableDay | PendingDay

  /** The counter a day goes to: assigned first, then the record's status, else pending. */
  function KindOf(d: CalendarDay, assignedMap: map<string, seq<ScheduleEvent>>, availMap: map<string, Availability>): DayKind
  {
    if d.dateStr in assignedMap then AssignedDay
    else if d.dateStr in availMap && availMap[d.dateStr].status == Available then AvailableDay
    else if d.dateStr in availMap && availMap[d.dateStr].status == Unavailable then UnavailableDay
    else PendingDay
  }

  function CountKind(days: seq<CalendarDay>, assignedMap: map<string, seq<ScheduleEvent>>,
                     availMap: map<string, Availability>, kind: DayKind): nat
  {
    |Filter(days, (d: CalendarDay) => KindOf(d, assignedMap, availMap) == kind)|
  }

  /** One day contributes one to exactly its kind's count. */
  lemma CountKindStep(days: seq<CalendarDay>, d: CalendarDay, assignedMap: map<string, seq<ScheduleEvent>>,
                      availMap: map<string, Availability>, kind: DayKind)
    ensures CountKind(days + [d], assignedMap, availMap, kind) ==
              CountKind(days, assignedMap, availMap, kind) + (if KindOf(d, assignedMap, availMap) == kind then 1 else 0)
  {
    var p := (c: CalendarDay) => KindOf(c, assignedMap, availMap) == kind;
    FilterAppend(days, [d], p);
    FilterSingleton(d, p);
  }

  /**
   * `stats`: every current-month day is counted once, under `assigned` when it has events
   * (whatever its record says), else under its record's status, else under `pending`.
   */
  method ComputeStats(days: seq<CalendarDay>, assignedMap: map<string, seq<ScheduleEvent>>,
                      availMap: map<string, Availability>) returns (st: Stats)
    ensures st.assignedDays + st.available + st.unavailable + st.pending == |Filter(days, IsCurrent)|
    ensures st.assignedDays == CountKind(Filter(days, IsCurrent), assignedMap, availMap, AssignedDay)
    ensures st.available == CountKind(Filter(days, IsCurrent), assignedMap, availMap, AvailableDay)
    ensures st.unavailable == CountKind(Filter(days, IsCurrent), assignedMap, availMap, UnavailableDay)
    ensures st.pending == CountKind(Filter(days, IsCurrent), assignedMap, availMap, PendingDay)
  {
    var current := Filter(days, IsCurrent);
    var onAssignment, available, unavailable, pending := 0, 0, 0, 0;
    var i := 0;
    while i < |current|
      invariant 0 <= i <= |current|
      invariant onAssignment + available + unavailable + pending == i
      invariant onAssignment == CountKind(current[..i], assignedMap, availMap, AssignedDay)
      invariant available == CountKind(current[..i], assignedMap, availMap, AvailableDay)
      invariant unavailable == CountKind(current[..i], assignedMap, availMap, UnavailableDay)
      invariant pending == CountKind(current[..i], assignedMap, availMap, PendingDay)
    {
      onAssignment, available, unavailable, pending :=
        CountDay(current, i, assignedMap, availMap, onAssignment, available, unavailable, pending);
      i := i + 1;
    }
    assert current[..|current|] == current;
    st := Stats(onAssignment, available, unavailable, pending);
  }

  /** One pass of the counting loop: day `i` goes to the counter of its kind. */
  method CountDay(current: seq<CalendarDay>, i: int, assignedMap: map<string, seq<ScheduleEvent>>,
                  availMap: map<string, Availability>, onAssignment: nat, available: nat, unavailable: nat, pending: nat)
    returns (onAssignment': nat, available': nat, unavailable': nat, pending': nat)
    requires 0 <= i < |current|
    requires onAssignment + available + unavailable + pending == i
    requires onAssignment == CountKind(current[..i], assignedMap, availMap, AssignedDay)
    requires available == CountKind(current[..i], assignedMap, availMap, AvailableDay)
    requires unavailable == CountKind(current[..i], assignedMap, availMap, UnavailableDay)
    requires pending == CountKind(current[..i], assignedMap, availMap, PendingDay)
    ensures onAssignment' + available' + unavailable' + pending' == i + 1
    ensures onAssignment' == CountKind(current[..i + 1], assignedMap, availMap, AssignedDay)
    ensures available' == CountKind(current[..i + 1], assignedMap, availMap, AvailableDay)
    ensures unavailable' == CountKind(current[..i + 1], assignedMap, availMap, UnavailableDay)
    ensures pending' == CountKind(current[..i + 1], assignedMap, availMap, PendingDay)
  {
    var day := current[i];
    assert current[..i + 1] == current[..i] + [day];
    CountKindStep(current[..i], day, assignedMap, availMap, AssignedDay);
    CountKindStep(current[..i], day, assignedMap, availMap, AvailableDay);
    CountKindStep(current[..i], day, assignedMap, availMap, UnavailableDay);
    CountKindStep(current[..i], day, assignedMap, availMap, PendingDay);
    onAssignment', available', unavailable', pending' := onAssignment, available, unavailable, pending;
    if day.dateStr in assignedMap {
      onAssignment' := onAssignment + 1;
    } else if day.dateStr in availMap && availMap[day.dateStr].status == Available {
      available' := available + 1;
    } else if day.dateStr in availMap && availMap[day.dateStr].status == Unavailable {
      unavailable' := unavailable + 1;
    } else {
      pending' := pending + 1;
    }
  }

  /** The fetch range: the first and last `dateStr` of the grid, or '' for an empty grid. */
  function QueryRange(days: seq<CalendarDay>): (string, string)
  {
    (if |days| > 0 then days[0].dateStr else "", if |days| > 0 then days[|days| - 1].dateStr else "")
  }

  /** The dates of a month grid never leave the span from its first cell to its last. */
  lemma GridWithinEnds(y: int, m: int)
    requires 0 <= m < 12
    ensures var ds := LayoutDates(y, m, Lead(y, m));
            |ds| > 0 &&
            forall k :: 0 <= k < |ds| ==> DayNumber(ds[0]) <= DayNumber(ds[k]) <= DayNumber(ds[|ds| - 1])
  {
    RoundUpToWeekFacts(Lead(y, m) + DaysInMonth(y, m));
    GridConsecutive(y, m);
    ConsecutiveWithinEnds(LayoutDates(y, m, Lead(y, m)));
  }

  /** On a month grid the fetch range runs from the first cell, a Sunday, to the last, a Saturday. */
  lemma QueryRangeOfGrid(y: int, m: int)
    requires 0 <= m < 12
    ensures var g := MonthGrid(y, m);
            |g| > 0 && QueryRange(g) == (g[0].dateStr, g[|g| - 1].dateStr) &&
            Weekday(g[0].date) == 0 && Weekday(g[|g| - 1].date) == 6
  {
    var g := MonthGrid(y, m);
    GridLength(y, m);
    var last := |g| - 1;
    LastColumn(|g|);
    CellWeekday(y, m, 0);
    CellWeekday(y, m, last);
    assert g[0] == LayoutCell(y, m, Lead(y, m), 0);
    assert g[last] == LayoutCell(y, m, Lead(y, m), last);
  }

  /** The last position of whole weeks is a Saturday column. */
  lemma LastColumn(n: int)
    requires n > 0 && n % 7 == 0
    ensures (n - 1) % 7 == 6
  {
  }
}

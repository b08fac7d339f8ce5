/**
 * The Notion side of the synchronisation (backend/services/notion_sync_service.py): the property
 * extractors and page parsers for the tutor, lecture and schedule databases, the choice of the
 * local course a schedule belongs to, the assignments a schedule asks for, and the per-course
 * assignment status.
 */
module NotionSync {
  import opened Wrappers
  import opened Seqs
  import opened Strs
  import opened NotionJson
  import opened BackendTypes
  import opened AssignmentStore

  /** A page of a Notion database: its page id and its `properties` object. */
  datatype NotionPage = NotionPage(id: string, properties: Json)

  /** `prop = props.get(key)`. */
  function Prop(props: Json, key: string): Json
  {
    Get(props, key)
  }

  // ---------------------------------------------------------------------------------------
  // Extractors

  /** `prop and prop.get("type") == typ and prop.get(typ)`: the property holds text of that type. */
  predicate HasText(props: Json, typ: string, key: string)
  {
    var prop := Prop(props, key);
    Truthy(prop) && IsType(prop, typ) && Has(prop, typ)
  }

  /** The text of a property of that type: its fragments joined. */
  function TextOf(props: Json, typ: string, key: string): string
  {
    JoinPlain(Items(Get(Prop(props, key), typ)))
  }

  /** The keys whose property holds text of type `typ`, as a predicate to search with. */
  function HoldsText(props: Json, typ: string): string -> bool
  {
    (key: string) => HasText(props, typ, key)
  }

  /**
   * `_extract_title` (typ "title") and `_extract_rich_text` (typ "rich_text"): the text of the
   * first key whose property has that type and a non-empty value, else "".
   */
  function ExtractTyped(props: Json, keys: seq<string>, typ: string): (r: string)
    ensures var i := IndexWhere(keys, HoldsText(props, typ));
      r == if i == -1 then "" else TextOf(props, typ, keys[i])
  {
    if keys == [] then ""
    else if HasText(props, typ, keys[0]) then TextOf(props, typ, keys[0])
    else
      assert forall j :: 0 <= j < |keys| - 1 ==> keys[1..][j] == keys[j + 1];
      ExtractTyped(props, keys[1..], typ)
  }

  function ExtractTitle(props: Json, keys: seq<string>): string
  {
    ExtractTyped(props, keys, "title")
  }

  function ExtractRichText(props: Json, keys: seq<string>): string
  {
    ExtractTyped(props, keys, "rich_text")
  }

  /** A later key is read only when no earlier key holds text of the type. */
  lemma ExtractTypedFirst(props: Json, keys: seq<string>, typ: string, i: int)
    requires 0 <= i < |keys| && HasText(props, typ, keys[i])
    requires forall j :: 0 <= j < i ==> !HasText(props, typ, keys[j])
    ensures ExtractTyped(props, keys, typ) == TextOf(props, typ, keys[i])
  {
    FindAt(keys, HoldsText(props, typ), i);
  }

  /** `_extract_text`: the title text when it is non-empty, otherwise the rich text. */
  function ExtractText(props: Json, keys: seq<string>): (r: string)
    ensures r == "" <==> ExtractTitle(props, keys) == "" && ExtractRichText(props, keys) == ""
    ensures r != "" ==> r == ExtractTitle(props, keys) || r == ExtractRichText(props, keys)
  {
    var title := ExtractTitle(props, keys);
    if title != "" then title else ExtractRichText(props, keys)
  }

  /** `_extract_email` (typ "email") and `_extract_phone` (typ "phone_number"). */
  function ExtractScalar(props: Json, key: string, typ: string): (r: string)
    ensures !(Truthy(Prop(props, key)) && IsType(Prop(props, key), typ)) ==> r == ""
    ensures r != "" ==> Get(Prop(props, key), typ) == JStr(r)
    ensures Truthy(Prop(props, key)) && IsType(Prop(props, key), typ) ==> r == Text(Get(Prop(props, key), typ))
  {
    var prop := Prop(props, key);
    if Truthy(prop) && IsType(prop, typ) then Text(Get(prop, typ)) else ""
  }

  /** `x.get("name", "")` of a select or status option. */
  function OptionName(option: Json): string
  {
    Text(GetOr(option, "name", JStr("")))
  }

  /** The select/status branch of `_extract_select`, once the property is known to be truthy. */
  function SelectName(prop: Json): (r: string)
    ensures r != "" ==> (IsType(prop, "select") && r == OptionName(Get(prop, "select"))) ||
                        (IsType(prop, "status") && r == OptionName(Get(prop, "status")))
    ensures IsType(prop, "select") && Has(prop, "select") ==> r == OptionName(Get(prop, "select"))
    ensures !(IsType(prop, "select") && Has(prop, "select")) && IsType(prop, "status") && Has(prop, "status") ==>
              r == OptionName(Get(prop, "status"))
    ensures !(IsType(prop, "select") && Has(prop, "select")) && !(IsType(prop, "status") && Has(prop, "status")) ==> r == ""
  {
    if IsType(prop, "select") && Has(prop, "select") then OptionName(Get(prop, "select"))
    else if IsType(prop, "status") && Has(prop, "status") then OptionName(Get(prop, "status"))
    else ""
  }

  /** `_extract_select`: the option name of a `select` or a `status` property, else "". */
  function ExtractSelect(props: Json, key: string): (r: string)
    ensures !Truthy(Prop(props, key)) ==> r == ""
    ensures r != "" ==> IsType(Prop(props, key), "select") || IsType(Prop(props, key), "status")
    ensures Truthy(Prop(props, key)) ==> r == SelectName(Prop(props, key))
  {
    var prop := Prop(props, key);
    if Truthy(prop) then SelectName(prop) else ""
  }

  /** Both property types a status can come in are read. */
  lemma SelectReadsBoth(name: string)
    ensures var props := JObj(map["s" := JObj(map["type" := JStr("select"), "select" := JObj(map["name" := JStr(name)])])]);
      ExtractSelect(props, "s") == name
    ensures var props := JObj(map["s" := JObj(map["type" := JStr("status"), "status" := JObj(map["name" := JStr(name)])])]);
      ExtractSelect(props, "s") == name
  {
    var sel := JObj(map["name" := JStr(name)]);
    assert "name" in sel.fields;
    var m1 := map["type" := JStr("select"), "select" := sel];
    var m2 := map["type" := JStr("status"), "status" := sel];
    assert "type" in m1 && "type" in m2;
    assert "s" in map["s" := JObj(m1)] && "s" in map["s" := JObj(m2)];
  }

  /** `_extract_number`: the number of a `number` property; None otherwise (and for an empty number). */
  function ExtractNumber(props: Json, key: string): (r: Option<int>)
    ensures r.Some? ==> IsType(Prop(props, key), "number") && Get(Prop(props, key), "number") == JNum(r.value)
    ensures r.Some? <==> Truthy(Prop(props, key)) && IsType(Prop(props, key), "number") && Get(Prop(props, key), "number").JNum?
  {
    var prop := Prop(props, key);
    if Truthy(prop) && IsType(prop, "number") && Get(prop, "number").JNum? then Some(Get(prop, "number").n)
    else None
  }

  /** `_extract_date_start`: the `start` of a `date` property, else "". */
  function ExtractDateStart(props: Json, key: string): (r: string)
    ensures !HasText(props, "date", key) ==> r == ""
    ensures r != "" ==> Get(Get(Prop(props, key), "date"), "start") == JStr(r)
    ensures HasText(props, "date", key) ==> r == Text(Get(Get(Prop(props, key), "date"), "start"))
  {
    var prop := Prop(props, key);
    if Truthy(prop) && IsType(prop, "date") && Has(prop, "date") then Text(Get(Get(prop, "date"), "start"))
    else ""
  }

  /** The `id` of a relation entry. */
  function RelationId(r: Json): string
  {
    Text(GetOr(r, "id", JStr("")))
  }

  /** `if r.get("id")`: the entry carries a non-empty id. */
  predicate HasRelationId(r: Json)
  {
    RelationId(r) != ""
  }

  /** `_extract_relation_ids`: the non-empty ids of a `relation` property in order, else []. */
  function ExtractRelationIds(props: Json, key: string): (r: seq<string>)
    ensures !(Truthy(Prop(props, key)) && IsType(Prop(props, key), "relation")) ==> r == []
    ensures forall i :: 0 <= i < |r| ==> r[i] != ""
    ensures forall id :: id in r <==>
      Truthy(Prop(props, key)) && IsType(Prop(props, key), "relation") &&
      id != "" && exists e :: e in Items(GetOr(Prop(props, key), "relation", JArr([]))) && RelationId(e) == id
  {
    var prop := Prop(props, key);
    if Truthy(prop) && IsType(prop, "relation") then
      var entries := Items(GetOr(prop, "relation", JArr([])));
      var kept := Filter(entries, HasRelationId);
      forall id | id in Map(kept, RelationId)
        ensures id != "" && exists e :: e in entries && RelationId(e) == id
      {
        var e := MapMemberInverse(kept, RelationId, id);
        FilterMembership(entries, HasRelationId, e);
      }
      forall id | id != "" && exists e :: e in entries && RelationId(e) == id
        ensures id in Map(kept, RelationId)
      {
        var e :| e in entries && RelationId(e) == id;
        FilterMembership(entries, HasRelationId, e);
        MapMember(kept, RelationId, e);
      }
      Map(kept, RelationId)
    else []
  }

  /** The text of a rollup array item: the joined fragments of a `title` or `rich_text` item, else "". */
  function RollupItemText(item: Json): string
  {
    if IsType(item, "title") then JoinPlain(Items(GetOr(item, "title", JArr([]))))
    else if IsType(item, "rich_text") then JoinPlain(Items(GetOr(item, "rich_text", JArr([]))))
    else ""
  }

  /** The array of a `rollup` property: `prop.get("rollup", {}).get("array", [])`. */
  function RollupArray(prop: Json): seq<Json>
  {
    Items(GetOr(GetOr(prop, "rollup", JObj(map[])), "array", JArr([])))
  }

  predicate NonEmpty(s: string)
  {
    s != ""
  }

  /** The property under `key` is a truthy `rollup`. */
  predicate IsRollup(props: Json, key: string)
  {
    Truthy(Prop(props, key)) && IsType(Prop(props, key), "rollup")
  }

  /** `_extract_rollup_texts`: the non-empty texts of the title and rich-text items, in order. */
  function ExtractRollupTexts(props: Json, key: string): (r: seq<string>)
    ensures !IsRollup(props, key) ==> r == []
    ensures forall i :: 0 <= i < |r| ==> r[i] != ""
    ensures IsRollup(props, key) ==> |r| <= |RollupArray(Prop(props, key))|
    ensures forall t :: t in r <==>
      IsRollup(props, key) && t != "" && exists item :: item in RollupArray(Prop(props, key)) && RollupItemText(item) == t
  {
    var prop := Prop(props, key);
    if !IsRollup(props, key) then []
    else
      var items := RollupArray(prop);
      var texts := Map(items, RollupItemText);
      forall t | t in Filter(texts, NonEmpty)
        ensures exists item :: item in items && RollupItemText(item) == t
      {
        FilterMembership(texts, NonEmpty, t);
        var item := MapMemberInverse(items, RollupItemText, t);
      }
      forall t | t != "" && exists item :: item in items && RollupItemText(item) == t
        ensures t in Filter(texts, NonEmpty)
      {
        var item :| item in items && RollupItemText(item) == t;
        MapMember(items, RollupItemText, item);
        FilterMembership(texts, NonEmpty, t);
      }
      Filter(texts, NonEmpty)
  }

  /** A rollup item that is a truthy `date`. */
  predicate IsDateItem(item: Json)
  {
    IsType(item, "date") && Has(item, "date")
  }

  /** `item["date"].get("start") or ""`. */
  function DateStart(item: Json): string
  {
    Text(Get(Get(item, "date"), "start"))
  }

  /**
   * `_extract_rollup_date`: the start of a direct `date` rollup; for an `array` rollup the start of
   * its first date item (even an empty one); else "".
   */
  function ExtractRollupDate(props: Json, key: string): (r: string)
    ensures !IsRollup(props, key) ==> r == ""
    ensures var rollup := GetOr(Prop(props, key), "rollup", JObj(map[]));
      IsRollup(props, key) && !IsType(rollup, "date") && !IsType(rollup, "array") ==> r == ""
    ensures var rollup := GetOr(Prop(props, key), "rollup", JObj(map[]));
      IsRollup(props, key) && IsType(rollup, "array") ==>
        var items := Items(Get(rollup, "array"));
        var i := IndexWhere(items, IsDateItem);
        r == if i == -1 then "" else DateStart(items[i])
    ensures var rollup := GetOr(Prop(props, key), "rollup", JObj(map[]));
      IsRollup(props, key) && IsType(rollup, "date") ==> r == if Has(rollup, "date") then DateStart(rollup) else ""
  {
    var prop := Prop(props, key);
    if !IsRollup(props, key) then ""
    else
      var rollup := GetOr(prop, "rollup", JObj(map[]));
      if IsType(rollup, "date") && Has(rollup, "date") then DateStart(rollup)
      else if IsType(rollup, "array") then
        var items := Items(GetOr(rollup, "array", JArr([])));
        var i := IndexWhere(items, IsDateItem);
        if i == -1 then "" else DateStart(items[i])
      else ""
  }

  /** A rollup item that is a truthy `url`. */
  predicate IsUrlItem(item: Json)
  {
    IsType(item, "url") && Has(item, "url")
  }

  /** `_extract_rollup_url`: the url of the first truthy url item of a rollup, else "". */
  function ExtractRollupUrl(props: Json, key: string): (r: string)
    ensures !IsRollup(props, key) ==> r == ""
    ensures r != "" ==> exists item :: item in RollupArray(Prop(props, key)) && IsUrlItem(item) && Get(item, "url") == JStr(r)
    ensures IsRollup(props, key) ==>
      var items := RollupArray(Prop(props, key));
      var i := IndexWhere(items, IsUrlItem);
      r == if i == -1 then "" else Text(Get(items[i], "url"))
  {
    if !IsRollup(props, key) then ""
    else
      var items := RollupArray(Prop(props, key));
      var i := IndexWhere(items, IsUrlItem);
      if i == -1 then "" else
        assert items[i] in items;
        Text(Get(items[i], "url"))
  }

  // ---------------------------------------------------------------------------------------
  // Parsers

  /** What `_parse_tutor` returns. */
  datatype TutorData = TutorData(
    notionPageId: string,
    name: string,
    email: Option<string>,
    phone: Option<string>,
    specialty: Option<string>,
    isActive: bool)

  /**
   * `_parse_tutor`: the name from `real_name` (rich text), falling back to `unique_name` (title);
   * an empty email, phone or level becomes None; the tutor is always active.
   */
  function ParseTutor(page: NotionPage): (t: TutorData)
    ensures t.notionPageId == page.id && t.isActive
    ensures ExtractRichText(page.properties, ["real_name"]) != "" ==> t.name == ExtractRichText(page.properties, ["real_name"])
    ensures ExtractRichText(page.properties, ["real_name"]) == "" ==> t.name == ExtractTitle(page.properties, ["unique_name"])
    ensures t.email.Some? ==> t.email.value != "" && Get(Prop(page.properties, "email"), "email") == JStr(t.email.value)
    ensures t.phone.Some? ==> t.phone.value != "" && Get(Prop(page.properties, "phone_number"), "phone_number") == JStr(t.phone.value)
    ensures t.specialty.None? <==> ExtractSelect(page.properties, "tutor_level") == ""
    ensures t.email == OrNone(ExtractScalar(page.properties, "email", "email"))
    ensures t.phone == OrNone(ExtractScalar(page.properties, "phone_number", "phone_number"))
    ensures t.specialty == OrNone(ExtractSelect(page.properties, "tutor_level"))
  {
    var props := page.properties;
    var realName := ExtractRichText(props, ["real_name"]);
    TutorData(
      page.id,
      if realName != "" then realName else ExtractTitle(props, ["unique_name"]),
      OrNone(ExtractScalar(props, "email", "email")),
      OrNone(ExtractScalar(props, "phone_number", "phone_number")),
      OrNone(ExtractSelect(props, "tutor_level")),
      true)
  }

  /** What `_parse_lecture` returns. */
  datatype LectureData = LectureData(
    notionPageId: string,
    title: string,
    status: string,
    target: Option<string>,
    lectureStart: Option<string>,
    lectureEnd: Option<string>,
    students: Option<int>,
    workbookFullUrl: Option<string>,
    scheduleIds: seq<string>)

  /** The keys a lecture title is looked up under, in order. */
  const TitleKeys: seq<string> := ["lecture_dashboard", "이름", "Name", "title"]

  /** `", ".join(texts) if texts else None`. */
  function JoinedOrNone(texts: seq<string>): (r: Option<string>)
    ensures r.None? <==> texts == []
    ensures r.Some? ==> r.value == Join(texts, ", ")
  {
    if texts != [] then Some(Join(texts, ", ")) else None
  }

  /**
   * `_parse_lecture`: the title from the first of four keys, the `lecture_state` option name,
   * the target names joined by ", " (None without any), the rollup dates and url (None when
   * empty), the student count and the schedule relation ids.
   */
  function ParseLecture(page: NotionPage): (l: LectureData)
    ensures l.notionPageId == page.id
    ensures l.title == ExtractTitle(page.properties, TitleKeys)
    ensures l.target.None? <==> ExtractRollupTexts(page.properties, "target_name") == []
    ensures l.lectureStart.Some? ==> l.lectureStart.value != ""
    ensures l.lectureEnd.Some? ==> l.lectureEnd.value != ""
    ensures l.workbookFullUrl.Some? ==> l.workbookFullUrl.value != ""
    ensures forall i :: 0 <= i < |l.scheduleIds| ==> l.scheduleIds[i] != ""
    ensures l.status == ExtractSelect(page.properties, "lecture_state")
    ensures l.target == JoinedOrNone(ExtractRollupTexts(page.properties, "target_name"))
    ensures l.lectureStart == OrNone(ExtractRollupDate(page.properties, "lecture_start"))
    ensures l.lectureEnd == OrNone(ExtractRollupDate(page.properties, "lecture_end"))
    ensures l.students == ExtractNumber(page.properties, "students")
    ensures l.workbookFullUrl == OrNone(ExtractRollupUrl(page.properties, "workbook_full_URL"))
    ensures l.scheduleIds == ExtractRelationIds(page.properties, "lecture_schedules")
  {
    var props := page.properties;
    LectureData(
      page.id,
      ExtractTitle(props, TitleKeys),
      ExtractSelect(props, "lecture_state"),
      JoinedOrNone(ExtractRollupTexts(props, "target_name")),
      OrNone(ExtractRollupDate(props, "lecture_start")),
      OrNone(ExtractRollupDate(props, "lecture_end")),
      ExtractNumber(props, "students"),
      OrNone(ExtractRollupUrl(props, "workbook_full_URL")),
      ExtractRelationIds(props, "lecture_schedules"))
  }

  /** What `_parse_schedule` returns. */
  datatype ScheduleData = ScheduleData(
    notionPageId: string,
    name: string,
    date: string,
    place: string,
    startTime: Option<int>,
    endTime: Option<int>,
    mainTutorIds: seq<string>,
    techTutorIds: seq<string>,
    lectureDashboardIds: seq<string>,
    dayNumber: int)

  /**
   * `_parse_schedule`: the date's start, the place (rich text, else any text), the tutor and
   * lecture relation ids, the title, the start and end numbers, and day number 1.
   */
  function ParseSchedule(page: NotionPage): (s: ScheduleData)
    ensures s.notionPageId == page.id && s.dayNumber == 1
    ensures s.date == ExtractDateStart(page.properties, "date")
    ensures s.mainTutorIds == ExtractRelationIds(page.properties, "main_tutor")
    ensures s.techTutorIds == ExtractRelationIds(page.properties, "tech_tutor")
    ensures s.lectureDashboardIds == ExtractRelationIds(page.properties, "lecture_dashboard")
    ensures s.name == ExtractTitle(page.properties, ["lecture_schedule_name"])
    ensures s.startTime == ExtractNumber(page.properties, "start_time")
    ensures s.endTime == ExtractNumber(page.properties, "end_time")
  {
    var props := page.properties;
    var richPlace := ExtractRichText(props, ["place"]);
    ScheduleData(
      page.id,
      ExtractTitle(props, ["lecture_schedule_name"]),
      ExtractDateStart(props, "date"),
      if richPlace != "" then richPlace else ExtractText(props, ["place"]),
      ExtractNumber(props, "start_time"),
      ExtractNumber(props, "end_time"),
      ExtractRelationIds(props, "main_tutor"),
      ExtractRelationIds(props, "tech_tutor"),
      ExtractRelationIds(props, "lecture_dashboard"),
      1)
  }

  /** The place is the rich text of `place` when there is any, and otherwise its title text. */
  lemma PlaceIsRichOrTitle(page: NotionPage)
    ensures var props := page.properties;
      ParseSchedule(page).place ==
        if ExtractRichText(props, ["place"]) != "" then ExtractRichText(props, ["place"])
        else ExtractTitle(props, ["place"])
  {
  }

  // ---------------------------------------------------------------------------------------
  // Schedules

  /** A lecture page id mapped to a non-empty local course id. */
  function MappedIn(courseMap: map<string, string>): string -> bool
  {
    (lid: string) => lid in courseMap && courseMap[lid] != ""
  }

  /**
   * The course a schedule goes to: the lecture ids are tried in order and the first one mapped to
   * a (non-empty) local course id decides; None when the schedule has no date or no mapped lecture,
   * which makes the sync skip it.
   */
  method ScheduleCourse(parsed: ScheduleData, courseMap: map<string, string>) returns (courseId: Option<string>)
    ensures parsed.date == "" ==> courseId.None?
    ensures parsed.date != "" ==>
      var ids := parsed.lectureDashboardIds;
      var i := IndexWhere(ids, MappedIn(courseMap));
      courseId == if i == -1 then None else Some(courseMap[ids[i]])
  {
    if parsed.date == "" {
      return None;
    }
    var ids := parsed.lectureDashboardIds;
    var current: Option<string> := None;
    var k := 0;
    while k < |ids|
      invariant 0 <= k <= |ids|
      invariant forall j :: 0 <= j < k ==> !MappedIn(courseMap)(ids[j])
      invariant k > 0 ==> current == (if ids[k - 1] in courseMap then Some(courseMap[ids[k - 1]]) else None)
    {
      current := if ids[k] in courseMap then Some(courseMap[ids[k]]) else None;
      if current.Some? && current.value != "" {
        FindAt(ids, MappedIn(courseMap), k);
        return current;
      }
      k := k + 1;
    }
    courseId := None;
  }

  /** A schedule whose lecture ids are all unmapped is skipped, however many there are. */
  lemma UnmappedScheduleSkipped(ids: seq<string>, courseMap: map<string, string>)
    requires forall j :: 0 <= j < |ids| ==> ids[j] !in courseMap
    ensures IndexWhere(ids, MappedIn(courseMap)) == -1
  {
  }

  /** The class names the sync gives main and technical tutors. */
  const MainTutorClass: string := "A반"
  const TechTutorClass: string := "기술지원"

  /** `request` names the instructor a known tutor `t` maps to. */
  predicate RequestedFor(request: AssignmentData, t: string, tutorMap: map<string, string>)
  {
    t in tutorMap && tutorMap[t] != "" && request.instructorId == tutorMap[t]
  }

  /** The assignment requests for `tutorIds`, skipping tutors the tutor map does not know (or maps to ""). */
  function TutorRequests(tutorIds: seq<string>, tutorMap: map<string, string>, courseDateId: string,
                         date: string, className: string): (r: seq<AssignmentData>)
    ensures |r| <= |tutorIds|
    ensures forall i :: 0 <= i < |r| ==>
      r[i].courseDateId == courseDateId && r[i].date == date && r[i].className == Some(className)
  {
    if tutorIds == [] then []
    else
      var rest := TutorRequests(tutorIds[1..], tutorMap, courseDateId, date, className);
      var head := tutorIds[0];
      if head in tutorMap && tutorMap[head] != "" then
        [AssignmentData(courseDateId, tutorMap[head], date, Some(className))] + rest
      else rest
  }

  /** Every request names the instructor of one of the listed, known tutors. */
  lemma {:induction false} RequestFromTutor(tutorIds: seq<string>, tutorMap: map<string, string>, courseDateId: string,
                                            date: string, className: string, i: int)
    requires 0 <= i < |TutorRequests(tutorIds, tutorMap, courseDateId, date, className)|
    ensures exists t :: t in tutorIds && RequestedFor(TutorRequests(tutorIds, tutorMap, courseDateId, date, className)[i], t, tutorMap)
  {
    var r := TutorRequests(tutorIds, tutorMap, courseDateId, date, className);
    var rest := TutorRequests(tutorIds[1..], tutorMap, courseDateId, date, className);
    var head := tutorIds[0];
    var known := head in tutorMap && tutorMap[head] != "";
    if known && i == 0 {
      assert RequestedFor(r[0], head, tutorMap);
    } else {
      var j := if known then i - 1 else i;
      assert r[i] == rest[j];
      RequestFromTutor(tutorIds[1..], tutorMap, courseDateId, date, className, j);
      var t :| t in tutorIds[1..] && RequestedFor(rest[j], t, tutorMap);
      assert t in tutorIds;
    }
  }

  /** Every mapped tutor gets a request. */
  lemma {:induction false} MappedTutorRequested(tutorIds: seq<string>, tutorMap: map<string, string>, courseDateId: string,
                                                date: string, className: string, t: string)
    requires t in tutorIds && t in tutorMap && tutorMap[t] != ""
    ensures AssignmentData(courseDateId, tutorMap[t], date, Some(className)) in
              TutorRequests(tutorIds, tutorMap, courseDateId, date, className)
  {
    if tutorIds[0] != t {
      MappedTutorRequested(tutorIds[1..], tutorMap, courseDateId, date, className, t);
    }
  }

  /**
   * The assignments a synced schedule asks for: one per mapped main tutor with class "A반",
   * then one per mapped technical tutor with class "기술지원", all on the new course date.
   */
  method AssignmentRequests(parsed: ScheduleData, tutorMap: map<string, string>, courseDateId: string)
    returns (requests: seq<AssignmentData>)
    ensures requests ==
      TutorRequests(parsed.mainTutorIds, tutorMap, courseDateId, parsed.date, MainTutorClass) +
      TutorRequests(parsed.techTutorIds, tutorMap, courseDateId, parsed.date, TechTutorClass)
  {
    var main := PushRequests([], parsed.mainTutorIds, tutorMap, courseDateId, parsed.date, MainTutorClass);
    requests := PushRequests(main, parsed.techTutorIds, tutorMap, courseDateId, parsed.date, TechTutorClass);
  }

  /** One tutor loop of the schedule sync: append a request for every mapped tutor, in order. */
  method PushRequests(start: seq<AssignmentData>, tutorIds: seq<string>, tutorMap: map<string, string>,
                      courseDateId: string, date: string, className: string) returns (requests: seq<AssignmentData>)
    ensures requests == start + TutorRequests(tutorIds, tutorMap, courseDateId, date, className)
  {
    requests := start;
    var k := 0;
    while k < |tutorIds|
      invariant 0 <= k <= |tutorIds|
      invariant requests + TutorRequests(tutorIds[k..], tutorMap, courseDateId, date, className) ==
                start + TutorRequests(tutorIds, tutorMap, courseDateId, date, className)
    {
      assert tutorIds[k..][1..] == tutorIds[k + 1..];
      var tutorId := tutorIds[k];
      if tutorId in tutorMap && tutorMap[tutorId] != "" {
        requests := requests + [AssignmentData(courseDateId, tutorMap[tutorId], date, Some(className))];
      }
      k := k + 1;
    }
    assert tutorIds[k..] == [];
  }

  /** Main-tutor requests come first and carry "A반"; the rest carry "기술지원". */
  lemma RequestClasses(parsed: ScheduleData, tutorMap: map<string, string>, courseDateId: string)
    ensures var main := TutorRequests(parsed.mainTutorIds, tutorMap, courseDateId, parsed.date, MainTutorClass);
      var all := main + TutorRequests(parsed.techTutorIds, tutorMap, courseDateId, parsed.date, TechTutorClass);
      (forall i :: 0 <= i < |main| ==> all[i].className == Some("A반")) &&
      (forall i :: |main| <= i < |all| ==> all[i].className == Some("기술지원")) &&
      |all| <= |parsed.mainTutorIds| + |parsed.techTutorIds|
  {
  }

  // ---------------------------------------------------------------------------------------
  // Assignment status

  /** What `_compute_assignment_status` writes into a course. */
  datatype StatusUpdate = StatusUpdate(assignmentStatus: Option<string>, totalDates: nat, assignedDates: nat)

  function DateId(d: CourseDateRecord): string
  {
    d.id
  }

  /** `cd_ids`: the ids of the course's dates. */
  function DateIds(dates: seq<CourseDateRecord>): set<string>
  {
    set d | d in dates :: d.id
  }

  /** `assigned_cd_ids`: the ids of the course dates that some assignment refers to. */
  function AssignedDateIds(dates: seq<CourseDateRecord>, assignments: seq<AssignmentRecord>): set<string>
  {
    set a | a in assignments && a.courseDateId in DateIds(dates) :: a.courseDateId
  }

  /** There are no more date ids than dates, and as many when the ids are distinct. */
  lemma DateIdsCard(dates: seq<CourseDateRecord>)
    ensures |DateIds(dates)| <= |dates|
    ensures Distinct(Map(dates, DateId)) ==> |DateIds(dates)| == |dates|
  {
    assert DateIds(dates) == Image(dates, DateId) by {
      forall x | x in Image(dates, DateId)
        ensures x in DateIds(dates)
      {
        var i :| 0 <= i < |dates| && DateId(dates[i]) == x;
        assert dates[i] in dates;
      }
    }
    if Distinct(Map(dates, DateId)) {
      DistinctCard(Map(dates, DateId));
      ImageOfMap(dates, DateId);
    }
  }

  /**
   * The status of one course: None without dates, "배정 완료" once at least as many distinct
   * course dates are covered as there are dates, else "배정 미완료".
   */
  function CourseStatus(dates: seq<CourseDateRecord>, assignments: seq<AssignmentRecord>): (u: StatusUpdate)
    ensures u.totalDates == |dates| && u.assignedDates == |AssignedDateIds(dates, assignments)|
    ensures u.assignedDates <= u.totalDates
    ensures u.assignmentStatus.None? <==> u.totalDates == 0
    ensures u.assignmentStatus == Some("배정 완료") <==> 0 < u.totalDates <= u.assignedDates
    ensures u.assignmentStatus == Some("배정 미완료") <==> u.assignedDates < u.totalDates
  {
    var covered := AssignedDateIds(dates, assignments);
    SubsetCard(covered, DateIds(dates));
    DateIdsCard(dates);
    var total := |dates|;
    var status := if total == 0 then None else if |covered| >= total then Some("배정 완료") else Some("배정 미완료");
    StatusUpdate(status, total, |covered|)
  }

  /** A subset is no larger, and a subset as large as its superset is all of it. */
  lemma {:induction false} SubsetCard<T>(a: set<T>, b: set<T>)
    requires a <= b
    ensures |a| <= |b|
    ensures |a| >= |b| ==> a == b
    decreases |b|
  {
    if b != {} {
      var x :| x in b;
      if x in a {
        SubsetCard(a - {x}, b - {x});
        assert a == (a - {x}) + {x};
      } else {
        SubsetCard(a, b - {x});
      }
    }
  }

  /** With distinct date ids, a course is complete exactly when it has dates and every one of them is covered. */
  lemma CompleteIffEveryDateAssigned(dates: seq<CourseDateRecord>, assignments: seq<AssignmentRecord>)
    requires Distinct(Map(dates, DateId))
    ensures CourseStatus(dates, assignments).assignmentStatus == Some("배정 완료") <==>
      dates != [] && forall d :: d in dates ==> exists a :: a in assignments && a.courseDateId == d.id
  {
    var ids := DateIds(dates);
    var covered := AssignedDateIds(dates, assignments);
    DateIdsCard(dates);
    SubsetCard(covered, ids);
    if dates != [] && forall d :: d in dates ==> exists a :: a in assignments && a.courseDateId == d.id {
      forall x | x in ids
        ensures x in covered
      {
        var d :| d in dates && d.id == x;
        var a :| a in assignments && a.courseDateId == d.id;
      }
      assert covered == ids;
    }
    if CourseStatus(dates, assignments).assignmentStatus == Some("배정 완료") {
      assert covered == ids;
      forall d | d in dates
        ensures exists a :: a in assignments && a.courseDateId == d.id
      {
        assert d.id in ids;
        assert d.id in covered;
      }
    }
  }

  /** `list_dates_by_course(cid)`, as a predicate to filter with. */
  function OfCourse(courseId: string): CourseDateRecord -> bool
  {
    (d: CourseDateRecord) => d.courseId == courseId
  }

  /** The update written for one course: its id and the status of its dates. */
  function StatusRow(courseId: string, dates: seq<CourseDateRecord>, assignments: seq<AssignmentRecord>): (string, StatusUpdate)
  {
    (courseId, CourseStatus(Filter(dates, OfCourse(courseId)), assignments))
  }

  /** The updates for a list of courses, in order. */
  function StatusRows(courseIds: seq<string>, dates: seq<CourseDateRecord>, assignments: seq<AssignmentRecord>)
    : (r: seq<(string, StatusUpdate)>)
    ensures |r| == |courseIds|
    ensures forall i :: 0 <= i < |courseIds| ==> r[i] == StatusRow(courseIds[i], dates, assignments)
  {
    if courseIds == [] then []
    else StatusRows(courseIds[..|courseIds| - 1], dates, assignments) + [StatusRow(courseIds[|courseIds| - 1], dates, assignments)]
  }

  /**
   * `_compute_assignment_status`: for every course, in order, the update it writes, computed from
   * that course's dates and all assignments.
   */
  method ComputeAssignmentStatus(courseIds: seq<string>, dates: seq<CourseDateRecord>, assignments: seq<AssignmentRecord>)
    returns (updates: seq<(string, StatusUpdate)>)
    ensures updates == StatusRows(courseIds, dates, assignments)
  {
    updates := [];
    var k := 0;
    while k < |courseIds|
      invariant 0 <= k <= |courseIds|
      invariant updates == StatusRows(courseIds[..k], dates, assignments)
    {
      assert courseIds[..k + 1][..k] == courseIds[..k];
      var courseDates := Filter(dates, OfCourse(courseIds[k]));
      updates := updates + [(courseIds[k], CourseStatus(courseDates, assignments))];
      k := k + 1;
    }
    assert courseIds[..k] == courseIds;
  }
}

/**
 * The read-only course repository over the Notion lecture database
 * (backend/repositories/impl/notion_course_repository.py): one page becomes one course, and every
 * write is refused.
 */
module NotionCourseRepository {
  import opened Wrappers
  import opened Seqs
  import opened Strs
  import opened NotionJson
  import opened BackendTypes
  import opened NotionSync

  /** The course a lecture page becomes. */
  datatype CourseData = CourseData(
    notionPageId: string,
    title: string,
    status: string,
    target: Option<string>,
    students: Option<int>,
    lectureStart: Option<string>,
    lectureEnd: Option<string>,
    workbookFullUrl: Option<string>)

  /** The keys a status is looked up under, in order. */
  const StatusKeys: seq<string> := ["lecture_state", "상태", "Status"]

  /**
   * `props.get("lecture_state") or props.get("상태") or props.get("Status")`: the first truthy
   * value, else the last one.
   */
  function StatusProp(props: Json): (r: Json)
    ensures Truthy(Get(props, "lecture_state")) ==> r == Get(props, "lecture_state")
    ensures !Truthy(Get(props, "lecture_state")) && Truthy(Get(props, "상태")) ==> r == Get(props, "상태")
    ensures !Truthy(Get(props, "lecture_state")) && !Truthy(Get(props, "상태")) ==> r == Get(props, "Status")
    ensures !Truthy(r) <==> forall k :: k in StatusKeys ==> !Truthy(Get(props, k))
  {
    var a := Get(props, "lecture_state");
    var b := Get(props, "상태");
    if Truthy(a) then a else if Truthy(b) then b else Get(props, "Status")
  }

  /** The status block: the select or status name of the status property, when it is truthy. */
  function StatusOf(props: Json): (r: string)
    ensures r != "" ==> Truthy(StatusProp(props))
    ensures Truthy(StatusProp(props)) ==> r == SelectName(StatusProp(props))
    ensures Truthy(Get(props, "lecture_state")) ==> r == ExtractSelect(props, "lecture_state")
    ensures !Truthy(Get(props, "lecture_state")) && Truthy(Get(props, "상태")) ==> r == ExtractSelect(props, "상태")
    ensures !Truthy(Get(props, "lecture_state")) && !Truthy(Get(props, "상태")) ==> r == ExtractSelect(props, "Status")
  {
    var statusProp := StatusProp(props);
    if Truthy(statusProp) then SelectName(statusProp) else ""
  }

  /** Joining parts that are all non-empty gives the empty string only for no parts at all. */
  lemma JoinNonEmptyParts(parts: seq<string>, sep: string)
    requires forall i :: 0 <= i < |parts| ==> parts[i] != ""
    ensures Join(parts, sep) == "" <==> parts == []
  {
    if |parts| > 1 {
      assert Join(parts, sep) == parts[0] + sep + Join(parts[1..], sep);
    }
  }

  /**
   * `", ".join(t for t in texts if t) or None` for a rollup `target_name`; None otherwise. It is
   * the sync parser's `", ".join(target_names) if target_names else None`.
   */
  function TargetOf(props: Json): (r: Option<string>)
    ensures r == JoinedOrNone(ExtractRollupTexts(props, "target_name"))
    ensures r.Some? ==> r.value != ""
  {
    var texts := ExtractRollupTexts(props, "target_name");
    JoinNonEmptyParts(texts, ", ");
    if IsRollup(props, "target_name") then OrNone(Join(texts, ", ")) else None
  }

  /**
   * `_parse_page`: the title from the first of four keys; the select or status name of the first
   * truthy status property (no later key is tried once one is truthy); the non-empty target names
   * joined by ", "; the student number; the rollup dates and the first url.
   */
  function ParsePage(page: NotionPage): (c: CourseData)
    ensures c.notionPageId == page.id
    ensures c.title == ExtractTitle(page.properties, TitleKeys)
    ensures c.status == StatusOf(page.properties)
    ensures c.students == ExtractNumber(page.properties, "students")
    ensures c.target == JoinedOrNone(ExtractRollupTexts(page.properties, "target_name"))
    ensures c.lectureStart == OrNone(ExtractRollupDate(page.properties, "lecture_start"))
    ensures c.lectureEnd == OrNone(ExtractRollupDate(page.properties, "lecture_end"))
    ensures c.workbookFullUrl == OrNone(ExtractRollupUrl(page.properties, "workbook_full_URL"))
  {
    var props := page.properties;
    CourseData(
      page.id,
      ExtractTitle(props, TitleKeys),
      StatusOf(props),
      TargetOf(props),
      ExtractNumber(props, "students"),
      OrNone(ExtractRollupDate(props, "lecture_start")),
      OrNone(ExtractRollupDate(props, "lecture_end")),
      OrNone(ExtractRollupUrl(props, "workbook_full_URL")))
  }

  /**
   * The repository's parser and the sync's lecture parser read a page alike, except that the
   * repository falls back to "상태" and "Status" when `lecture_state` is not truthy.
   */
  lemma AgreesWithLectureParser(page: NotionPage)
    ensures var c := ParsePage(page);
      var l := ParseLecture(page);
      c.notionPageId == l.notionPageId && c.title == l.title && c.target == l.target &&
      c.students == l.students && c.lectureStart == l.lectureStart && c.lectureEnd == l.lectureEnd &&
      c.workbookFullUrl == l.workbookFullUrl
    ensures Truthy(Get(page.properties, "lecture_state")) ==> ParsePage(page).status == ParseLecture(page).status
  {
  }

  /** Properties without `lecture_state` take their status from "상태", where the lecture parser reads "". */
  lemma StatusFallsBack(name: string)
    requires name != ""
    ensures var option := JObj(map["name" := JStr(name)]);
      var props := JObj(map["상태" := JObj(map["type" := JStr("status"), "status" := option])]);
      StatusOf(props) == name && ExtractSelect(props, "lecture_state") == ""
  {
    var option := JObj(map["name" := JStr(name)]);
    assert "name" in option.fields;
    var fields := map["type" := JStr("status"), "status" := option];
    assert "type" in fields;
    var props := map["상태" := JObj(fields)];
    assert "상태" in props && "lecture_state" !in props;
  }

  /** `list_courses`: one course per page, in the order of the pages. */
  function ListCourses(pages: seq<NotionPage>): (r: seq<CourseData>)
    ensures |r| == |pages|
    ensures forall i :: 0 <= i < |pages| ==> r[i].notionPageId == pages[i].id && r[i] == ParsePage(pages[i])
  {
    Map(pages, ParsePage)
  }

  /** `get_course`: the parsed page, or None when there is no page. */
  function GetCourse(page: Option<NotionPage>): (r: Option<CourseData>)
    ensures r.None? <==> page.None?
    ensures r.Some? ==> r.value.notionPageId == page.value.id
  {
    if page.Some? then Some(ParsePage(page.value)) else None
  }

  /** The four writes the repository interface declares. */
  datatype CourseWrite =
    | CreateCourse(data: Json)
    | UpdateCourse(courseId: string, data: Json)
    | DeleteCourse(courseId: string)
    | UpsertCourse(data: Json)

  /** Notion is a read-only source: every write fails with NotImplementedError. */
  function Write(op: CourseWrite): (r: Result<CourseData, ServiceError>)
    ensures r.Failure? && r.error == NotImplemented
  {
    Failure(NotImplemented)
  }
}

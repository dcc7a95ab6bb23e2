/** app/routers/courses.py: create-or-replace from a JSON body or an upload,
    list, get and delete. */
module CoursesRouter {
  import opened Wrappers
  import opened Db
  import opened Ordering

  /** A JSON object body `{id, content}`; a body that is absent, not JSON or
      not an object is `None` where it is passed. */
  datatype CourseBody = CourseBody(id: Option<string>, content: Option<string>)

  /** The course id and GPX text a request selects. */
  datatype Selection = Selection(courseId: string, content: string)

  datatype CourseCreated = CourseCreated(courseId: string, createdAt: string)

  /** `GET /courses` rows: only id and time. */
  datatype CourseSummary = CourseSummary(courseId: string, createdAt: string)

  /** `GET /courses/{course_id}`: the content under the key `gpx`. */
  datatype CourseOut = CourseOut(courseId: string, gpx: string, createdAt: string)

  /** The id and content `create_course` uses: a JSON body with non-empty
      `content` wins over an uploaded `file` (its text, already decoded);
      the id is the body's non-empty `id`, else the non-empty `course_id`
      query parameter, else the generated `freshId`. With neither content
      nor file the request is refused with 422. */
  function SelectCourse(body: Option<CourseBody>, file: Option<string>, courseIdParam: Option<string>, freshId: string): (r: Result<Selection>)
    ensures body.Some? && Truthy(body.value.content) ==>
              && r.Ok? && r.value.content == body.value.content.value
              && r.value.courseId == (if Truthy(body.value.id) then body.value.id.value
                                      else if Truthy(courseIdParam) then courseIdParam.value
                                      else freshId)
    ensures !(body.Some? && Truthy(body.value.content)) && file.Some? ==>
              && r.Ok? && r.value.content == file.value
              && r.value.courseId == (if Truthy(courseIdParam) then courseIdParam.value else freshId)
    ensures r.Err? <==> !(body.Some? && Truthy(body.value.content)) && file.None?
    ensures r.Err? ==> r.error == Unprocessable("no course content provided")
    ensures r.Ok? && freshId != "" ==> r.value.courseId != ""
  {
    if body.Some? && Truthy(body.value.content) then
      var cid := if Truthy(body.value.id) then body.value.id.value
                 else if Truthy(courseIdParam) then courseIdParam.value
                 else freshId;
      Ok(Selection(cid, body.value.content.value))
    else if file.Some? then
      Ok(Selection(if Truthy(courseIdParam) then courseIdParam.value else freshId, file.value))
    else
      Err(Unprocessable("no course content provided"))
  }

  /** `POST /courses`: `REPLACE INTO courses` under the selected id, so a
      resubmitted id keeps one row with the new content and time. */
  method CreateCourse(db: Database, body: Option<CourseBody>, file: Option<string>, courseIdParam: Option<string>,
                      freshId: string, now: string) returns (r: Result<CourseCreated>)
    requires db.Valid()
    modifies db`courses
    ensures db.Valid()
    ensures SelectCourse(body, file, courseIdParam, freshId).Err? ==>
              r == Err(Unprocessable("no course content provided")) && db.courses == old(db.courses)
    ensures SelectCourse(body, file, courseIdParam, freshId).Ok? && Courses !in db.tables ==>
              r == Err(NoSuchTable(Courses)) && db.courses == old(db.courses)
    ensures SelectCourse(body, file, courseIdParam, freshId).Ok? && Courses in db.tables ==>
              var sel := SelectCourse(body, file, courseIdParam, freshId).value;
              && r == Ok(CourseCreated(sel.courseId, now))
              && db.courses == old(db.courses)[sel.courseId := Course(sel.courseId, sel.content, now)]
  {
    var selected := SelectCourse(body, file, courseIdParam, freshId);
    if selected.Err? {
      return Err(selected.error);
    }
    if Courses !in db.tables {
      return Err(NoSuchTable(Courses));
    }
    var cid, text := selected.value.courseId, selected.value.content;
    db.courses := db.courses[cid := Course(cid, text, now)];
    r := Ok(CourseCreated(cid, now));
  }

  /** Each course's `created_at`, by id. */
  function CourseTimes(m: map<string, Course>): map<string, string> {
    TimesOf(m, (c: Course) => c.createdAt)
  }

  /** Each listed course's id. */
  function SummaryIds(rows: seq<CourseSummary>): seq<string> {
    KeysOf(rows, (c: CourseSummary) => c.courseId)
  }

  /** `GET /courses`: every course as `{course_id, created_at}`, largest `created_at` text first. */
  method ListCourses(db: Database) returns (r: Result<seq<CourseSummary>>)
    requires db.Valid()
    ensures Courses !in db.tables ==> r == Err(NoSuchTable(Courses))
    ensures Courses in db.tables ==> r.Ok?
    ensures r.Ok? ==> NewestLimited(SummaryIds(r.value), CourseTimes(db.courses), |db.courses|)
    ensures r.Ok? ==> forall id :: id in db.courses ==> id in SummaryIds(r.value)
    ensures r.Ok? ==> forall i :: 0 <= i < |r.value| ==>
              && r.value[i].courseId in db.courses
              && r.value[i].createdAt == db.courses[r.value[i].courseId].createdAt
  {
    if Courses !in db.tables {
      return Err(NoSuchTable(Courses));
    }
    var table := db.courses;
    var ts := CourseTimes(table);
    var keys := OrderNewestFirst(ts);
    FullListing(keys, ts);
    var rows := seq(|keys|, i requires 0 <= i < |keys| => CourseSummary(keys[i], table[keys[i]].createdAt));
    assert SummaryIds(rows) == keys;
    r := Ok(rows);
  }

  /** `GET /courses/{course_id}`: the stored content under `gpx`, or 404. */
  function GetCourse(db: Database, courseId: string): (r: Result<CourseOut>)
    reads db
    requires db.Valid()
    ensures Courses !in db.tables ==> r == Err(NoSuchTable(Courses))
    ensures Courses in db.tables ==> (r.Ok? <==> courseId in db.courses)
    ensures Courses in db.tables && r.Err? ==> r.error == NotFound("course not found")
    ensures r.Ok? ==>
              r.value == CourseOut(courseId, db.courses[courseId].gpxContent, db.courses[courseId].createdAt)
  {
    if Courses !in db.tables then Err(NoSuchTable(Courses))
    else if courseId in db.courses then
      var row := db.courses[courseId];
      Ok(CourseOut(row.courseId, row.gpxContent, row.createdAt))
    else Err(NotFound("course not found"))
  }

  /** `DELETE /courses/{course_id}`: removes that id if present, keeps every
      other course, and answers `{deleted: true}` either way. */
  method DeleteCourse(db: Database, courseId: string) returns (r: Result<bool>)
    requires db.Valid()
    modifies db`courses
    ensures db.Valid()
    ensures Courses !in db.tables ==> r == Err(NoSuchTable(Courses)) && db.courses == old(db.courses)
    ensures Courses in db.tables ==> r == Ok(true) && db.courses == old(db.courses) - {courseId}
  {
    if Courses !in db.tables {
      return Err(NoSuchTable(Courses));
    }
    db.courses := db.courses - {courseId};
    r := Ok(true);
  }
}

/** app/routers/class_course.py: two setters (JSON body and path parameter)
    and a getter over the singleton `class_course` row. */
module ClassCourseRouter {
  import opened Wrappers
  import opened Db

  /** The `{course_id, set_at}` record both setters return. */
  datatype ClassCourseSet = ClassCourseSet(courseId: string, setAt: string)

  /** The `{course_id, set_at}` record the getter returns; `set_at` is a
      nullable column. */
  datatype ClassCourseOut = ClassCourseOut(courseId: string, setAt: Option<string>)

  /** The JSON body `{course_id}` of `POST /class_course/set`. */
  datatype CourseSetRequest = CourseSetRequest(courseId: string)

  /** `POST /class_course/set`. */
  method SetClassCourseJson(db: Database, payload: CourseSetRequest, now: string) returns (r: Result<ClassCourseSet>)
    requires db.Valid()
    modifies db`classCourse
    ensures db.Valid()
    ensures ClassCourse !in db.tables ==> r == Err(NoSuchTable(ClassCourse)) && db.classCourse == old(db.classCourse)
    ensures ClassCourse in db.tables ==>
              && r == Ok(ClassCourseSet(payload.courseId, now))
              && db.classCourse == map[PointerId := PointerRow(Some(payload.courseId), Some(now))]
  {
    var courseId := payload.courseId;
    var written := UpsertPointer(db, 1, courseId, now);
    if written.Err? {
      return Err(written.error);
    }
    r := Ok(ClassCourseSet(courseId, now));
  }

  /** `POST /class_course/{course_id}`: the same statement and the same
      result as the JSON route for the same id. */
  method SetClassCoursePath(db: Database, courseId: string, now: string) returns (r: Result<ClassCourseSet>)
    requires db.Valid()
    modifies db`classCourse
    ensures db.Valid()
    ensures ClassCourse !in db.tables ==> r == Err(NoSuchTable(ClassCourse)) && db.classCourse == old(db.classCourse)
    ensures ClassCourse in db.tables ==>
              && r == Ok(ClassCourseSet(courseId, now))
              && db.classCourse == map[PointerId := PointerRow(Some(courseId), Some(now))]
  {
    var written := UpsertPointer(db, 1, courseId, now);
    if written.Err? {
      return Err(written.error);
    }
    r := Ok(ClassCourseSet(courseId, now));
  }

  /** `GET /class_course`: the stored id and time, or 404 when the row is
      missing or its `course_id` is NULL or empty. */
  function GetClassCourse(db: Database): (r: Result<ClassCourseOut>)
    reads db
    requires db.Valid()
    ensures ClassCourse !in db.tables ==> r == Err(NoSuchTable(ClassCourse))
    ensures ClassCourse in db.tables ==>
              (r.Err? <==> db.PointerRowOf().None? || !Truthy(db.PointerRowOf().value.courseId))
    ensures ClassCourse in db.tables && r.Err? ==> r.error == NotFound("no class course set")
    ensures r.Ok? ==>
              && PointerId in db.classCourse
              && db.classCourse[PointerId] == PointerRow(Some(r.value.courseId), r.value.setAt)
              && r.value.courseId != ""
  {
    if ClassCourse !in db.tables then Err(NoSuchTable(ClassCourse))
    else match db.PointerRowOf()
      case Some(row) =>
        if Truthy(row.courseId) then Ok(ClassCourseOut(row.courseId.value, row.setAt))
        else Err(NotFound("no class course set"))
      case None => Err(NotFound("no class course set"))
  }
}

/** app/routers/control.py: the teacher's control surface. It writes the same
    `class_course` row as app/routers/class_course.py and the same
    `statuses` log as app/routers/status.py, but its status route does not
    validate. */
module ControlRouter {
  import opened Wrappers
  import opened Db

  /** The `{course_of_day, set_at}` record `POST /control/course_of_day` returns. */
  datatype CourseOfDaySet = CourseOfDaySet(courseOfDay: string, setAt: string)

  /** `POST /control/course_of_day`: overwrites the singleton row, whatever it held. */
  method SetCourseOfDay(db: Database, courseId: string, now: string) returns (r: Result<CourseOfDaySet>)
    requires db.Valid()
    modifies db`classCourse
    ensures db.Valid()
    ensures ClassCourse !in db.tables ==> r == Err(NoSuchTable(ClassCourse)) && db.classCourse == old(db.classCourse)
    ensures ClassCourse in db.tables ==>
              && r == Ok(CourseOfDaySet(courseId, now))
              && db.classCourse == map[PointerId := PointerRow(Some(courseId), Some(now))]
  {
    var written := UpsertPointer(db, 1, courseId, now);
    if written.Err? {
      return Err(written.error);
    }
    r := Ok(CourseOfDaySet(courseId, now));
  }

  /** `GET /control/course_of_day`: the stored id, or 404 when the row is
      missing or its `course_id` is NULL or empty. */
  function GetCourseOfDay(db: Database): (r: Result<string>)
    reads db
    requires db.Valid()
    ensures ClassCourse !in db.tables ==> r == Err(NoSuchTable(ClassCourse))
    ensures ClassCourse in db.tables ==>
              (r.Err? <==> db.PointerRowOf().None? || !Truthy(db.PointerRowOf().value.courseId))
    ensures ClassCourse in db.tables && r.Err? ==> r.error == NotFound("no course of day set")
    ensures r.Ok? ==> PointerId in db.classCourse && db.classCourse[PointerId].courseId == Some(r.value) && r.value != ""
  {
    if ClassCourse !in db.tables then Err(NoSuchTable(ClassCourse))
    else match db.PointerRowOf()
      case Some(row) =>
        if Truthy(row.courseId) then Ok(row.courseId.value) else Err(NotFound("no course of day set"))
      case None => Err(NotFound("no course of day set"))
  }

  /** `POST /control/status`: appends any string, allowed or not. */
  method SetStatus(db: Database, status: string, now: string) returns (r: Result<StatusOut>)
    requires db.Valid()
    modifies db`statuses
    ensures db.Valid()
    ensures Statuses !in db.tables ==> r == Err(NoSuchTable(Statuses)) && db.statuses == old(db.statuses)
    ensures Statuses in db.tables ==>
              && r == Ok(StatusOut(status, now))
              && db.statuses == old(db.statuses) + [StatusRow(|old(db.statuses)| + 1, status, now)]
  {
    var inserted := InsertStatus(db, status, now);
    if inserted.Err? {
      return Err(inserted.error);
    }
    r := Ok(StatusOut(status, now));
  }

  /** `GET /control/status`: the same query as `GET /status`. */
  function GetStatus(db: Database): (r: Result<StatusOut>)
    reads db
    requires db.Valid()
    ensures Statuses !in db.tables ==> r == Err(NoSuchTable(Statuses))
    ensures Statuses in db.tables ==> (r.Err? <==> db.statuses == [])
    ensures Statuses in db.tables && db.statuses == [] ==> r == Err(NotFound("no status set"))
    ensures r.Ok? ==>
              && db.statuses != []
              && r.value == StatusOut(db.statuses[|db.statuses| - 1].status, db.statuses[|db.statuses| - 1].createdAt)
  {
    match LatestStatusRow(db)
    case Err(e) => Err(e)
    case Ok(None) => Err(NotFound("no status set"))
    case Ok(Some(row)) => Ok(StatusOut(row.status, row.createdAt))
  }
}

/** Request sequences across the routers: the flows of tests/test_basic.py
    and tests/test_new_endpoints.py, the row that `control` and
    `class_course` share, the status log both status routers use, and what
    `init_db` does and does not create. */
module Scenarios {
  import opened Wrappers
  import opened Db
  import opened Ordering
  import StatusRouter
  import ControlRouter
  import ClassCourseRouter
  import CommentsRouter
  import UsersRouter
  import StudentsRouter
  import CoursesRouter
  import StatusControl
  import GroqRouter

  /** Running `init_db` twice is running it once: the same tables, an empty
      `comments`, every other table's rows as they were. */
  method InitTwice(db: Database)
    requires db.Valid()
    modifies db`tables, db`comments
    ensures db.Valid()
    ensures db.tables == old(db.tables) + InitTables && db.comments == map[]
    ensures db.users == old(db.users) && db.courses == old(db.courses) && db.students == old(db.students)
    ensures db.classCourse == old(db.classCourse) && db.statuses == old(db.statuses) && db.groqLogs == old(db.groqLogs)
  {
    InitDb(db);
    InitDb(db);
  }

  /** On a new database file, `init_db` does not create `students`, so
      `create_student` fails with the missing-table error. */
  method FreshStoreHasNoStudents(name: string, freshId: string, now: string) returns (r: Result<Student>)
    ensures r == Err(NoSuchTable(Students))
  {
    var db := new Database();
    InitDb(db);
    r := StudentsRouter.CreateStudent(db, name, freshId, now);
  }

  /** On a new database file, `init_db` seeds no status, so reading the
      latest status is a 404. */
  method FreshStoreHasNoStatus() returns (r: Result<StatusOut>)
    ensures r == Err(NotFound("no status set"))
  {
    var db := new Database();
    InitDb(db);
    r := StatusRouter.GetLatestStatus(db);
  }

  /** Both status routers read the same log with the same query. */
  lemma SameStatusQuery(db: Database)
    requires db.Valid()
    ensures ControlRouter.GetStatus(db) == StatusRouter.GetLatestStatus(db)
  {
  }

  /** Posting a status on `/status` and reading it back. An allowed status
      is read back; any other leaves the log, and so the read, as it was. */
  method StatusPostThenGet(db: Database, status: string, now: string) returns (read: Result<StatusOut>)
    requires db.Valid() && Statuses in db.tables
    modifies db`statuses
    ensures db.Valid()
    ensures status in StatusRouter.Allowed ==> read == Ok(StatusOut(status, now))
    ensures status !in StatusRouter.Allowed ==> db.statuses == old(db.statuses) && read == StatusRouter.GetLatestStatus(db)
  {
    var posted := StatusRouter.SetStatus(db, status, now);
    read := StatusRouter.GetLatestStatus(db);
  }

  /** The control router accepts any status and reads it back. */
  method ControlStatusRoundTrip(db: Database, status: string, now: string) returns (read: Result<StatusOut>)
    requires db.Valid() && Statuses in db.tables
    modifies db`statuses
    ensures db.Valid()
    ensures read == Ok(StatusOut(status, now))
    ensures StatusRouter.GetLatestStatus(db) == read
  {
    var posted := ControlRouter.SetStatus(db, status, now);
    read := ControlRouter.GetStatus(db);
  }

  /** Setting the course of the day twice: the second write is what is read. */
  method CourseOfDayLastWins(db: Database, first: string, second: string, t1: string, t2: string)
    returns (read: Result<string>)
    requires db.Valid() && ClassCourse in db.tables
    modifies db`classCourse
    ensures db.Valid()
    ensures second != "" ==> read == Ok(second)
    ensures second == "" ==> read == Err(NotFound("no course of day set"))
  {
    var r1 := ControlRouter.SetCourseOfDay(db, first, t1);
    var r2 := ControlRouter.SetCourseOfDay(db, second, t2);
    read := ControlRouter.GetCourseOfDay(db);
  }

  /** A course of the day set through `control` is the class course. */
  method ControlThenClassCourse(db: Database, courseId: string, now: string)
    returns (read: Result<ClassCourseRouter.ClassCourseOut>)
    requires db.Valid() && ClassCourse in db.tables
    modifies db`classCourse
    ensures db.Valid()
    ensures courseId != "" ==> read == Ok(ClassCourseRouter.ClassCourseOut(courseId, Some(now)))
    ensures courseId == "" ==> read == Err(NotFound("no class course set"))
  {
    var written := ControlRouter.SetCourseOfDay(db, courseId, now);
    read := ClassCourseRouter.GetClassCourse(db);
  }

  /** A class course set through either `class_course` route is the course
      of the day, and both routes leave the same row. */
  method ClassCourseThenControl(db: Database, courseId: string, now: string, byPath: bool)
    returns (read: Result<string>)
    requires db.Valid() && ClassCourse in db.tables
    modifies db`classCourse
    ensures db.Valid()
    ensures db.classCourse == map[PointerId := PointerRow(Some(courseId), Some(now))]
    ensures courseId != "" ==> read == Ok(courseId)
    ensures courseId == "" ==> read == Err(NotFound("no course of day set"))
  {
    var written;
    if byPath {
      written := ClassCourseRouter.SetClassCoursePath(db, courseId, now);
    } else {
      written := ClassCourseRouter.SetClassCourseJson(db, ClassCourseRouter.CourseSetRequest(courseId), now);
    }
    read := ControlRouter.GetCourseOfDay(db);
  }

  /** Two identical submissions get two rows, told apart only by their
      generated ids and times. */
  method TwoIdenticalComments(db: Database, payload: CommentsRouter.CommentIn, id1: string, id2: string, t1: string, t2: string)
    returns (c1: Result<Comment>, c2: Result<Comment>)
    requires db.Valid() && Comments in db.tables
    requires id1 != id2 && id1 !in db.comments && id2 !in db.comments
    modifies db`comments
    ensures db.Valid()
    ensures c1.Ok? && c2.Ok? && c1.value.commentId != c2.value.commentId
    ensures c1.value.userId == c2.value.userId && c1.value.text == c2.value.text
    ensures c1.value.replyTo == c2.value.replyTo && c1.value.genre == c2.value.genre
    ensures db.comments == old(db.comments)[id1 := c1.value][id2 := c2.value]
  {
    c1 := CommentsRouter.CreateComment(db, payload, id1, t1);
    c2 := CommentsRouter.CreateComment(db, payload, id2, t2);
  }

  /** A created comment is what `get_comment_v2` returns for its id. */
  method CommentCreateThenGet(db: Database, payload: CommentsRouter.CommentIn, freshId: string, now: string)
    returns (read: Result<Comment>)
    requires db.Valid() && Comments in db.tables && freshId !in db.comments
    modifies db`comments
    ensures db.Valid()
    ensures read == Ok(Comment(freshId, payload.userId, payload.text, payload.replyTo, payload.genre, now))
  {
    var made := CommentsRouter.CreateCommentV2(db, payload, freshId, now);
    read := CommentsRouter.GetCommentV2(db, freshId);
  }

  /** The same name registered twice: two rows under distinct ids, each
      found again by its id. */
  method SameNameTwice(db: Database, name: string, id1: string, id2: string, t1: string, t2: string)
    returns (u1: Result<User>, u2: Result<User>)
    requires db.Valid() && Users in db.tables
    requires id1 != id2 && id1 !in db.users && id2 !in db.users
    modifies db`users
    ensures db.Valid()
    ensures u1 == Ok(User(id1, name, t1)) && u2 == Ok(User(id2, name, t2))
    ensures UsersRouter.GetUser(db, id1) == u1 && UsersRouter.GetUser(db, id2) == u2
  {
    u1 := UsersRouter.CreateUser(db, name, id1, t1);
    u2 := UsersRouter.RegisterUser(db, name, id2, t2);
  }

  /** A created student is found again by its id, with its name. */
  method StudentCreateThenGet(db: Database, name: string, freshId: string, now: string)
    returns (read: Result<Student>)
    requires db.Valid() && Students in db.tables && freshId !in db.students
    modifies db`students
    ensures db.Valid()
    ensures read == Ok(Student(freshId, name, now))
  {
    var made := StudentsRouter.CreateStudent(db, name, freshId, now);
    read := StudentsRouter.GetStudent(db, freshId);
  }

  /** Submitting the same course id twice keeps one row, holding the second
      content and time. */
  method ResubmitCourse(db: Database, courseId: string, first: string, second: string, t1: string, t2: string)
    returns (read: Result<CoursesRouter.CourseOut>)
    requires db.Valid() && Courses in db.tables
    requires courseId != "" && first != "" && second != ""
    modifies db`courses
    ensures db.Valid()
    ensures db.courses == old(db.courses)[courseId := Course(courseId, second, t2)]
    ensures read == Ok(CoursesRouter.CourseOut(courseId, second, t2))
  {
    var c1 := CoursesRouter.CreateCourse(db, Some(CoursesRouter.CourseBody(Some(courseId), Some(first))), None, None, "", t1);
    var c2 := CoursesRouter.CreateCourse(db, Some(CoursesRouter.CourseBody(Some(courseId), Some(second))), None, None, "", t2);
    read := CoursesRouter.GetCourse(db, courseId);
  }

  /** A deleted course is no longer found. */
  method DeleteThenGet(db: Database, courseId: string) returns (read: Result<CoursesRouter.CourseOut>)
    requires db.Valid() && Courses in db.tables
    modifies db`courses
    ensures db.Valid()
    ensures read == Err(NotFound("course not found"))
  {
    var deleted := CoursesRouter.DeleteCourse(db, courseId);
    read := CoursesRouter.GetCourse(db, courseId);
  }

  /** A stored comment with fewer than 500 other comments at least as new
      is in every listing. */
  lemma CommentListedUnlessCrowded(db: Database, listed: seq<Comment>, id: string)
    requires db.Valid()
    requires NewestLimited(CommentsRouter.CommentIds(listed), CommentsRouter.CommentTimes(db.comments), CommentsRouter.ListLimit)
    requires id in db.comments && |AtLeastAsNew(CommentsRouter.CommentTimes(db.comments), id)| < CommentsRouter.ListLimit
    ensures exists i :: 0 <= i < |listed| && listed[i].commentId == id
  {
    var ids := CommentsRouter.CommentIds(listed);
    ListedUnlessCrowded(ids, CommentsRouter.CommentTimes(db.comments), CommentsRouter.ListLimit, id);
    var i :| 0 <= i < |ids| && ids[i] == id;
    assert listed[i].commentId == id;
  }

  /** The comment half of tests/test_basic.py, on an empty `comments`
      table: the posted comment echoes its input and is listed. */
  method PostAndList(db: Database, userId: string, commentId: string, now: string)
    returns (posted: Result<Comment>, listed: Result<seq<Comment>>)
    requires db.Valid() && Comments in db.tables && db.comments == map[]
    modifies db`comments
    ensures db.Valid()
    ensures posted.Ok? && posted.value.userId == userId && posted.value.text == "hello"
    ensures listed.Ok? && exists i :: 0 <= i < |listed.value| && listed.value[i].commentId == posted.value.commentId
  {
    var payload := CommentsRouter.CommentIn(userId, "hello", None, Some("general"));
    posted := CommentsRouter.CreateComment(db, payload, commentId, now);
    listed := CommentsRouter.ListComments(db);
    var ts := CommentsRouter.CommentTimes(db.comments);
    assert db.comments.Keys == {commentId};
    assert |AtLeastAsNew(ts, commentId)| == 0 by {
      assert AtLeastAsNew(ts, commentId) == {};
    }
    CommentListedUnlessCrowded(db, listed.value, commentId);
  }

  /** tests/test_basic.py after start-up, which empties `comments`: create a
      user, post a comment as that user, and find it in the listing. */
  method CommentsPostGet(db: Database, userId: string, commentId: string, t1: string, t2: string)
    returns (user: Result<User>, posted: Result<Comment>, listed: Result<seq<Comment>>)
    requires db.Valid() && userId !in db.users
    modifies db`tables, db`comments, db`users
    ensures db.Valid()
    ensures user.Ok? && user.value.name == "tester"
    ensures posted.Ok? && posted.value.userId == user.value.userId && posted.value.text == "hello"
    ensures listed.Ok? && exists i :: 0 <= i < |listed.value| && listed.value[i].commentId == posted.value.commentId
  {
    InitDb(db);
    user := UsersRouter.CreateUser(db, "tester", userId, t1);
    posted, listed := PostAndList(db, user.value.userId, commentId, t2);
  }

  /** The first half of tests/test_new_endpoints.py: register a user,
      create `course1` and make it the course of the day. */
  method RegisterAndPublishCourse(db: Database, userId: string, courseFresh: string, now: string)
    returns (user: Result<User>, courseOfDay: Result<string>)
    requires db.Valid() && InitTables <= db.tables && userId !in db.users
    modifies db`users, db`courses, db`classCourse
    ensures db.Valid()
    ensures user == Ok(User(userId, "alice", now))
    ensures courseOfDay == Ok("course1")
    ensures "course1" in db.courses && db.courses["course1"] == Course("course1", "<gpx>...</gpx>", now)
  {
    user := UsersRouter.RegisterUser(db, "alice", userId, now);
    var body := CoursesRouter.CourseBody(Some("course1"), Some("<gpx>...</gpx>"));
    assert CoursesRouter.SelectCourse(Some(body), None, None, courseFresh)
        == Ok(CoursesRouter.Selection("course1", "<gpx>...</gpx>"));
    var created := CoursesRouter.CreateCourse(db, Some(body), None, None, courseFresh, now);
    var chosen := ControlRouter.SetCourseOfDay(db, "course1", now);
    courseOfDay := ControlRouter.GetCourseOfDay(db);
  }

  /** The second half of tests/test_new_endpoints.py: set the status to
      running, read it back, and post and read a comment. */
  method RunAndComment(db: Database, userId: string, commentId: string, now: string)
    returns (status: Result<StatusOut>, comment: Result<Comment>)
    requires db.Valid() && Statuses in db.tables && Comments in db.tables && commentId !in db.comments
    modifies db`statuses, db`comments
    ensures db.Valid()
    ensures status == Ok(StatusOut("実行中", now))
    ensures comment.Ok? && comment.value.commentId == commentId && comment.value.userId == userId
  {
    var posted := ControlRouter.SetStatus(db, "実行中", now);
    status := ControlRouter.GetStatus(db);
    var payload := CommentsRouter.CommentIn(userId, "hi", None, Some("test"));
    var made := CommentsRouter.CreateCommentV2(db, payload, commentId, now);
    comment := CommentsRouter.GetCommentV2(db, made.value.commentId);
  }

  /** tests/test_new_endpoints.py after start-up; `chat` is whatever the
      language-model client does with the final text request. */
  method NewEndpointsFlow(db: Database, userId: string, courseFresh: string, commentId: string,
                          chat: GroqRouter.Chat, now: string)
    returns (courseOfDay: Result<string>, status: Result<StatusOut>, comment: Result<Comment>, output: Result<string>)
    requires db.Valid() && userId !in db.users
    modifies db`tables, db`comments, db`users, db`courses, db`classCourse, db`statuses, db`groqLogs
    ensures db.Valid()
    ensures courseOfDay == Ok("course1")
    ensures status == Ok(StatusOut("実行中", now))
    ensures comment.Ok? && comment.value.commentId == commentId && comment.value.userId == userId
    ensures output == Ok(GroqRouter.TextOutput("find me query", chat))
  {
    InitDb(db);
    var user;
    user, courseOfDay := RegisterAndPublishCourse(db, userId, courseFresh, now);
    status, comment := RunAndComment(db, user.value.userId, commentId, now);
    output := GroqRouter.GroqText(db, "find me query", None, chat, now);
  }

  /** The client's status names are the five statuses the server accepts. */
  lemma ClientKnowsAllowedStatuses()
    ensures StatusRouter.Allowed == {StatusControl.Tutorial, StatusControl.Running, StatusControl.Results,
                                     StatusControl.Break, StatusControl.Debug}
  {
  }

  /** How many of the four main screens the client would show. */
  function ScreensShown(c: StatusControl.StatusControl): (n: nat)
    reads c
    ensures n <= if c.isLoading then 2 else 1
  {
    (if c.ShouldShowTutorial() then 1 else 0) + (if c.ShouldShowLoading() then 1 else 0)
    + (if c.ShouldShowMap() then 1 else 0) + (if c.ShouldShowResult() then 1 else 0)
  }

  /** Once loaded, every status the server accepts selects exactly one
      screen; a status it does not know (or none) selects none. */
  lemma OneScreenPerStatus(c: StatusControl.StatusControl)
    requires !c.isLoading
    ensures ScreensShown(c) == 1 <==> c.currentStatus in StatusRouter.Allowed
    ensures ScreensShown(c) <= 1
  {
  }
}

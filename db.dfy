/** The SQLite file `data/app.db` (app/db.py): which tables exist, their rows,
    `init_db`, and the few statements that two routers share.

    Every handler runs one statement on its own connection and commits, so
    each operation is atomic here. A statement on a table that does not exist
    raises `sqlite3.OperationalError`, which the framework turns into a 500;
    an INSERT whose primary key is taken raises `sqlite3.IntegrityError`,
    also a 500. */
module Db {
  import opened Wrappers

  datatype Table = Comments | Users | Students | Courses | ClassCourse | Statuses | GroqLogs

  function TableName(t: Table): string {
    match t
    case Comments => "comments"
    case Users => "users"
    case Students => "students"
    case Courses => "courses"
    case ClassCourse => "class_course"
    case Statuses => "statuses"
    case GroqLogs => "groq_logs"
  }

  /** The error a statement on a missing table raises. */
  function NoSuchTable(t: Table): HttpError {
    ServerError("no such table: " + TableName(t))
  }

  /** The error an INSERT raises when the primary key is already present. */
  function UniqueFailed(column: string): HttpError {
    ServerError("UNIQUE constraint failed: " + column)
  }

  /** A row of `comments`: the columns created at app/db.py:22-29. */
  datatype Comment = Comment(
    commentId: string, userId: string, text: string,
    replyTo: Option<string>, genre: Option<string>, createdAt: string)

  datatype User = User(userId: string, name: string, createdAt: string)

  datatype Student = Student(studentId: string, name: string, createdAt: string)

  datatype Course = Course(courseId: string, gpxContent: string, createdAt: string)

  /** The two nullable columns of the `class_course` row. */
  datatype PointerRow = PointerRow(courseId: Option<string>, setAt: Option<string>)

  datatype StatusRow = StatusRow(id: nat, status: string, createdAt: string)

  /** The `{status, created_at}` record both status routers return. */
  datatype StatusOut = StatusOut(status: string, createdAt: string)

  datatype GroqLog = GroqLog(
    id: nat, kind: string, input: string, output: string,
    userId: Option<string>, createdAt: string)

  /** The tables `init_db` creates: every table but `students`. */
  const InitTables: set<Table> := {Comments, Users, Courses, ClassCourse, Statuses, GroqLogs}

  /** The id the CHECK constraint of `class_course` allows. */
  const PointerId: int := 1

  class Database {
    /** The tables present in the file. */
    var tables: set<Table>
    var comments: map<string, Comment>
    var users: map<string, User>
    var students: map<string, Student>
    var courses: map<string, Course>
    /** `class_course`, keyed by its INTEGER PRIMARY KEY `id`. */
    var classCourse: map<int, PointerRow>
    var statuses: seq<StatusRow>
    var groqLogs: seq<GroqLog>

    ghost predicate Valid()
      reads this
    {
      EmptyWhenAbsent() && RowsKeyed()
    }

    /** A table that does not exist holds no rows. */
    ghost predicate EmptyWhenAbsent()
      reads this
    {
      && (Comments !in tables ==> comments == map[])
      && (Users !in tables ==> users == map[])
      && (Students !in tables ==> students == map[])
      && (Courses !in tables ==> courses == map[])
      && (ClassCourse !in tables ==> classCourse == map[])
      && (Statuses !in tables ==> statuses == [])
      && (GroqLogs !in tables ==> groqLogs == [])
    }

    /** Every row is stored under its own key. */
    ghost predicate RowsKeyed()
      reads this`comments, this`users, this`students, this`courses, this`classCourse, this`statuses, this`groqLogs
    {
      // every row is stored under its own primary key
      && (forall id :: id in comments ==> comments[id].commentId == id)
      && (forall id :: id in users ==> users[id].userId == id)
      && (forall id :: id in students ==> students[id].studentId == id)
      && (forall id :: id in courses ==> courses[id].courseId == id)
      // CHECK (id = 1)
      && (forall id :: id in classCourse ==> id == PointerId)
      // AUTOINCREMENT ids of append-only logs: 1, 2, 3, ...
      && (forall i :: 0 <= i < |statuses| ==> statuses[i].id == i + 1)
      && (forall i :: 0 <= i < |groqLogs| ==> groqLogs[i].id == i + 1)
    }

    /** A new, empty database file: no tables at all. */
    constructor ()
      ensures Valid()
      ensures tables == {}
    {
      tables := {};
      comments, users, students, courses := map[], map[], map[], map[];
      classCourse := map[];
      statuses, groqLogs := [], [];
    }

    /** `SELECT ... FROM class_course WHERE id = 1`: the row found is the
        only row of the table, and none is found only when it is empty. */
    function PointerRowOf(): (r: Option<PointerRow>)
      reads this
      requires Valid()
      ensures r.None? <==> classCourse == map[]
      ensures r.Some? ==> classCourse == map[PointerId := r.value]
    {
      assert forall k :: k in classCourse ==> k == PointerId;
      if PointerId in classCourse then
        assert classCourse.Keys == {PointerId};
        assert classCourse == map[PointerId := classCourse[PointerId]];
        Some(classCourse[PointerId])
      else
        assert classCourse.Keys == {};
        None
    }
  }

  /** `DROP TABLE IF EXISTS comments` followed by `CREATE TABLE comments`. */
  method RecreateComments(db: Database)
    requires db.Valid()
    modifies db`tables, db`comments
    ensures db.Valid()
    ensures db.tables == old(db.tables) + {Comments}
    ensures db.comments == map[]
  {
    // DROP TABLE IF EXISTS comments
    db.tables := db.tables - {Comments};
    db.comments := map[];
    // CREATE TABLE comments (...)
    db.tables := db.tables + {Comments};
  }

  /** `CREATE TABLE IF NOT EXISTS` for each table of `ts`: a table that
      exists keeps its rows, a missing one is created empty. */
  method CreateIfNotExists(db: Database, ts: set<Table>)
    requires db.Valid()
    modifies db`tables
    ensures db.Valid()
    ensures db.tables == old(db.tables) + ts
  {
    db.tables := db.tables + ts;
  }

  /** `init_db`: recreates `comments` empty and creates the other tables
      it knows only where they are missing. It inserts no row anywhere and
      never creates `students`. */
  method InitDb(db: Database)
    requires db.Valid()
    modifies db`tables, db`comments
    ensures db.Valid()
    ensures db.tables == old(db.tables) + InitTables
    ensures db.comments == map[]
  {
    RecreateComments(db);
    CreateIfNotExists(db, {Users, Courses, ClassCourse, Statuses, GroqLogs});
  }

  /** `INSERT OR REPLACE INTO class_course (id, course_id, set_at)`: the row
      with that id is replaced; an id other than 1 fails the CHECK. */
  method UpsertPointer(db: Database, id: int, courseId: string, setAt: string) returns (r: Result<()>)
    requires db.Valid()
    modifies db`classCourse
    ensures db.Valid()
    ensures ClassCourse !in db.tables ==> r == Err(NoSuchTable(ClassCourse)) && db.classCourse == old(db.classCourse)
    ensures ClassCourse in db.tables && id != PointerId ==>
              r == Err(ServerError("CHECK constraint failed: id = 1")) && db.classCourse == old(db.classCourse)
    ensures ClassCourse in db.tables && id == PointerId ==>
              r == Ok(()) && db.classCourse == map[PointerId := PointerRow(Some(courseId), Some(setAt))]
  {
    if ClassCourse !in db.tables {
      return Err(NoSuchTable(ClassCourse));
    }
    if id != PointerId {
      return Err(ServerError("CHECK constraint failed: id = 1"));
    }
    var row := PointerRow(Some(courseId), Some(setAt));
    db.classCourse := db.classCourse[id := row];
    assert db.classCourse.Keys == {PointerId} by {
      forall k | k in db.classCourse ensures k == PointerId { }
    }
    r := Ok(());
  }

  /** `INSERT INTO statuses (status, created_at)`: appends with the next id. */
  method InsertStatus(db: Database, status: string, now: string) returns (r: Result<StatusRow>)
    requires db.Valid()
    modifies db`statuses
    ensures db.Valid()
    ensures Statuses !in db.tables ==> r == Err(NoSuchTable(Statuses)) && db.statuses == old(db.statuses)
    ensures Statuses in db.tables ==>
              r == Ok(StatusRow(|old(db.statuses)| + 1, status, now)) && db.statuses == old(db.statuses) + [r.value]
  {
    if Statuses !in db.tables {
      return Err(NoSuchTable(Statuses));
    }
    var row := StatusRow(|db.statuses| + 1, status, now);
    db.statuses := db.statuses + [row];
    r := Ok(row);
  }

  /** `SELECT status, created_at FROM statuses ORDER BY id DESC LIMIT 1`. */
  function LatestStatusRow(db: Database): (r: Result<Option<StatusRow>>)
    reads db
    requires db.Valid()
    ensures Statuses !in db.tables ==> r == Err(NoSuchTable(Statuses))
    ensures Statuses in db.tables ==> r.Ok? && (r.value.None? <==> db.statuses == [])
    ensures r.Ok? && r.value.Some? ==>
              && r.value.value in db.statuses
              && (forall i :: 0 <= i < |db.statuses| ==> db.statuses[i].id <= r.value.value.id)
    ensures r.Ok? && r.value.Some? ==> r.value.value == db.statuses[|db.statuses| - 1]
  {
    if Statuses !in db.tables then Err(NoSuchTable(Statuses))
    else if db.statuses == [] then Ok(None)
    else Ok(Some(db.statuses[|db.statuses| - 1]))
  }
}

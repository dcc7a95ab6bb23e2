/** app/routers/students.py: create with a fresh id, the list by descending `created_at` text,
    lookup by id. `init_db` never creates the `students` table, so on a file
    created by it every one of these fails with "no such table". */
module StudentsRouter {
  import opened Wrappers
  import opened Db
  import opened Ordering

  /** Each student's `created_at`, by id. */
  function StudentTimes(m: map<string, Student>): map<string, string> {
    TimesOf(m, (s: Student) => s.createdAt)
  }

  /** Each listed student's id. */
  function StudentIds(rows: seq<Student>): seq<string> {
    KeysOf(rows, (s: Student) => s.studentId)
  }

  /** `POST /students`: adds exactly one row and changes no other. */
  method CreateStudent(db: Database, name: string, freshId: string, now: string) returns (r: Result<Student>)
    requires db.Valid()
    modifies db`students
    ensures db.Valid()
    ensures Students !in db.tables ==> r == Err(NoSuchTable(Students)) && db.students == old(db.students)
    ensures Students in db.tables && freshId in old(db.students) ==>
              r == Err(UniqueFailed("students.student_id")) && db.students == old(db.students)
    ensures Students in db.tables && freshId !in old(db.students) ==>
              r == Ok(Student(freshId, name, now)) && db.students == old(db.students)[freshId := r.value]
  {
    if Students !in db.tables {
      return Err(NoSuchTable(Students));
    }
    if freshId in db.students {
      return Err(UniqueFailed("students.student_id"));
    }
    var row := Student(freshId, name, now);
    db.students := db.students[freshId := row];
    r := Ok(row);
  }

  /** `GET /students`: every stored student, largest `created_at` text first. */
  method ListStudents(db: Database) returns (r: Result<seq<Student>>)
    requires db.Valid()
    ensures Students !in db.tables ==> r == Err(NoSuchTable(Students))
    ensures Students in db.tables ==> r.Ok?
    ensures r.Ok? ==> NewestLimited(StudentIds(r.value), StudentTimes(db.students), |db.students|)
    ensures r.Ok? ==> forall id :: id in db.students ==> id in StudentIds(r.value)
    ensures r.Ok? ==> forall i :: 0 <= i < |r.value| ==>
              r.value[i].studentId in db.students && db.students[r.value[i].studentId] == r.value[i]
  {
    if Students !in db.tables {
      return Err(NoSuchTable(Students));
    }
    var table := db.students;
    var ts := StudentTimes(table);
    var keys := OrderNewestFirst(ts);
    FullListing(keys, ts);
    var rows := seq(|keys|, i requires 0 <= i < |keys| => table[keys[i]]);
    assert StudentIds(rows) == keys;
    r := Ok(rows);
  }

  /** `GET /students/{student_id}`: the stored row, or 404. */
  function GetStudent(db: Database, studentId: string): (r: Result<Student>)
    reads db
    requires db.Valid()
    ensures Students !in db.tables ==> r == Err(NoSuchTable(Students))
    ensures Students in db.tables ==> (r.Ok? <==> studentId in db.students)
    ensures Students in db.tables && r.Err? ==> r.error == NotFound("student not found")
    ensures r.Ok? ==> r.value == db.students[studentId] && r.value.studentId == studentId
  {
    if Students !in db.tables then Err(NoSuchTable(Students))
    else if studentId in db.students then Ok(db.students[studentId])
    else Err(NotFound("student not found"))
  }
}

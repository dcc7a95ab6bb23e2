/** app/routers/status.py: the validated status route and the latest-status read. */
module StatusRouter {
  import opened Wrappers
  import opened Db

  /** The statuses `POST /status` accepts. */
  const Allowed: set<string> := {"デバッグ", "チュートリアル", "実行中", "終了", "結果"}

  /** `POST /status`: a status outside `Allowed` is refused with 400 before
      the store is touched; an allowed one is appended as the newest row and
      echoed with its time. */
  method SetStatus(db: Database, status: string, now: string) returns (r: Result<StatusOut>)
    requires db.Valid()
    modifies db`statuses
    ensures db.Valid()
    ensures status !in Allowed ==> r == Err(BadRequest("invalid status")) && db.statuses == old(db.statuses)
    ensures status in Allowed && Statuses !in db.tables ==>
              r == Err(NoSuchTable(Statuses)) && db.statuses == old(db.statuses)
    ensures status in Allowed && Statuses in db.tables ==>
              && r == Ok(StatusOut(status, now))
              && db.statuses == old(db.statuses) + [StatusRow(|old(db.statuses)| + 1, status, now)]
  {
    if status !in Allowed {
      return Err(BadRequest("invalid status"));
    }
    var inserted := InsertStatus(db, status, now);
    if inserted.Err? {
      return Err(inserted.error);
    }
    r := Ok(StatusOut(status, now));
  }

  /** `GET /status`: the row with the largest id, which is the one appended
      last; 404 exactly when the log is empty. */
  function GetLatestStatus(db: Database): (r: Result<StatusOut>)
    reads db
    requires db.Valid()
    ensures Statuses !in db.tables ==> r == Err(NoSuchTable(Statuses))
    ensures Statuses in db.tables ==> (r.Err? <==> db.statuses == [])
    ensures Statuses in db.tables && db.statuses == [] ==> r == Err(NotFound("no status set"))
    ensures r.Ok? ==>
              && db.statuses != []
              && var last := db.statuses[|db.statuses| - 1];
              && r.value == StatusOut(last.status, last.createdAt)
              && (forall i :: 0 <= i < |db.statuses| ==> db.statuses[i].id <= last.id)
  {
    match LatestStatusRow(db)
    case Err(e) => Err(e)
    case Ok(None) => Err(NotFound("no status set"))
    case Ok(Some(row)) => Ok(StatusOut(row.status, row.createdAt))
  }
}

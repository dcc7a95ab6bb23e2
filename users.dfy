/** app/routers/users.py: create (and its `register` alias) with a fresh id,
    lookup by id. Names need not be unique. */
module UsersRouter {
  import opened Wrappers
  import opened Db

  /** `POST /users`: stores and returns `{user_id, name, created_at}`. */
  method CreateUser(db: Database, name: string, freshId: string, now: string) returns (r: Result<User>)
    requires db.Valid()
    modifies db`users
    ensures db.Valid()
    ensures Users !in db.tables ==> r == Err(NoSuchTable(Users)) && db.users == old(db.users)
    ensures Users in db.tables && freshId in old(db.users) ==>
              r == Err(UniqueFailed("users.user_id")) && db.users == old(db.users)
    ensures Users in db.tables && freshId !in old(db.users) ==>
              r == Ok(User(freshId, name, now)) && db.users == old(db.users)[freshId := r.value]
  {
    if Users !in db.tables {
      return Err(NoSuchTable(Users));
    }
    if freshId in db.users {
      return Err(UniqueFailed("users.user_id"));
    }
    var row := User(freshId, name, now);
    db.users := db.users[freshId := row];
    r := Ok(row);
  }

  /** `POST /users/register`: delegates to `CreateUser`. */
  method RegisterUser(db: Database, name: string, freshId: string, now: string) returns (r: Result<User>)
    requires db.Valid()
    modifies db`users
    ensures db.Valid()
    ensures Users !in db.tables ==> r == Err(NoSuchTable(Users)) && db.users == old(db.users)
    ensures Users in db.tables && freshId in old(db.users) ==>
              r == Err(UniqueFailed("users.user_id")) && db.users == old(db.users)
    ensures Users in db.tables && freshId !in old(db.users) ==>
              r == Ok(User(freshId, name, now)) && db.users == old(db.users)[freshId := r.value]
  {
    r := CreateUser(db, name, freshId, now);
  }

  /** `GET /users/{user_id}`: the stored row, or 404. */
  function GetUser(db: Database, userId: string): (r: Result<User>)
    reads db
    requires db.Valid()
    ensures Users !in db.tables ==> r == Err(NoSuchTable(Users))
    ensures Users in db.tables ==> (r.Ok? <==> userId in db.users)
    ensures Users in db.tables && r.Err? ==> r.error == NotFound("user not found")
    ensures r.Ok? ==> r.value == db.users[userId] && r.value.userId == userId
  {
    if Users !in db.tables then Err(NoSuchTable(Users))
    else if userId in db.users then Ok(db.users[userId])
    else Err(NotFound("user not found"))
  }
}

/** app/routers/comments_new.py, mounted as the comments router: create with a
    fresh id, the list by descending `created_at` text, the v2 alias and lookup by id. */
module CommentsRouter {
  import opened Wrappers
  import opened Db
  import opened Ordering

  /** The request body `CommentIn`. */
  datatype CommentIn = CommentIn(userId: string, text: string, replyTo: Option<string>, genre: Option<string>)

  /** `LIMIT 500` of `GET /comments`. */
  const ListLimit: nat := 500

  /** Each comment's `created_at`, by id. */
  function CommentTimes(m: map<string, Comment>): map<string, string> {
    TimesOf(m, (c: Comment) => c.createdAt)
  }

  /** Each listed comment's id. */
  function CommentIds(rows: seq<Comment>): seq<string> {
    KeysOf(rows, (c: Comment) => c.commentId)
  }

  /** `POST /comments`: stores a new row under the generated `freshId` and
      returns exactly that row. `user_id` is not checked against `users`. */
  method CreateComment(db: Database, payload: CommentIn, freshId: string, now: string) returns (r: Result<Comment>)
    requires db.Valid()
    modifies db`comments
    ensures db.Valid()
    ensures Comments !in db.tables ==> r == Err(NoSuchTable(Comments)) && db.comments == old(db.comments)
    ensures Comments in db.tables && freshId in old(db.comments) ==>
              r == Err(UniqueFailed("comments.comment_id")) && db.comments == old(db.comments)
    ensures Comments in db.tables && freshId !in old(db.comments) ==>
              && r == Ok(Comment(freshId, payload.userId, payload.text, payload.replyTo, payload.genre, now))
              && db.comments == old(db.comments)[freshId := r.value]
  {
    if Comments !in db.tables {
      return Err(NoSuchTable(Comments));
    }
    if freshId in db.comments {
      return Err(UniqueFailed("comments.comment_id"));
    }
    var row := Comment(freshId, payload.userId, payload.text, payload.replyTo, payload.genre, now);
    db.comments := db.comments[freshId := row];
    r := Ok(row);
  }

  /** `POST /comments_v2/`: delegates to `CreateComment`. */
  method CreateCommentV2(db: Database, payload: CommentIn, freshId: string, now: string) returns (r: Result<Comment>)
    requires db.Valid()
    modifies db`comments
    ensures db.Valid()
    ensures Comments !in db.tables ==> r == Err(NoSuchTable(Comments)) && db.comments == old(db.comments)
    ensures Comments in db.tables && freshId in old(db.comments) ==>
              r == Err(UniqueFailed("comments.comment_id")) && db.comments == old(db.comments)
    ensures Comments in db.tables && freshId !in old(db.comments) ==>
              && r == Ok(Comment(freshId, payload.userId, payload.text, payload.replyTo, payload.genre, now))
              && db.comments == old(db.comments)[freshId := r.value]
  {
    r := CreateComment(db, payload, freshId, now);
  }

  /** `GET /comments`: at most 500 stored rows, largest `created_at` text first,
      none left out whose text is larger than one listed. */
  method ListComments(db: Database) returns (r: Result<seq<Comment>>)
    requires db.Valid()
    ensures Comments !in db.tables ==> r == Err(NoSuchTable(Comments))
    ensures Comments in db.tables ==> r.Ok?
    ensures r.Ok? ==> NewestLimited(CommentIds(r.value), CommentTimes(db.comments), ListLimit)
    ensures r.Ok? ==> forall i :: 0 <= i < |r.value| ==>
              r.value[i].commentId in db.comments && db.comments[r.value[i].commentId] == r.value[i]
  {
    if Comments !in db.tables {
      return Err(NoSuchTable(Comments));
    }
    var table := db.comments;
    var ts := CommentTimes(table);
    var keys := OrderNewestFirst(ts);
    LimitKeepsNewest(keys, ts, ListLimit);
    var top := keys[..Min(ListLimit, |keys|)];
    var rows := seq(|top|, i requires 0 <= i < |top| => table[top[i]]);
    assert CommentIds(rows) == top;
    r := Ok(rows);
  }

  /** `GET /comments_v2/{comment_id}`: the stored row, or 404. */
  function GetCommentV2(db: Database, commentId: string): (r: Result<Comment>)
    reads db
    requires db.Valid()
    ensures Comments !in db.tables ==> r == Err(NoSuchTable(Comments))
    ensures Comments in db.tables ==> (r.Ok? <==> commentId in db.comments)
    ensures Comments in db.tables && r.Err? ==> r.error == NotFound("comment not found")
    ensures r.Ok? ==> r.value == db.comments[commentId] && r.value.commentId == commentId
  {
    if Comments !in db.tables then Err(NoSuchTable(Comments))
    else if commentId in db.comments then Ok(db.comments[commentId])
    else Err(NotFound("comment not found"))
  }
}

# Machi_tan core in Dafny

Machi_tan ("まち探検隊") is a classroom town-walk app. A FastAPI server keeps a
single SQLite file with users, comments, GPX courses, the course of the day,
an event-status log and a log of language-model calls. A Vue client walks the
student through a ten-step tutorial and shows one screen per event status,
which it polls from the server.

This project models that core and proves properties of the model:

- **The store** (`Db`). `Db.Database` is a class with one field per table
  (`comments`, `users`, `students`, `courses`, the singleton `class_course`
  row, and the append-only `statuses` and `groq_logs` logs). A field
  `tables` records which tables exist on the file.
  - A statement on a missing table fails with SQLite's 500 "no such table".
    This is how the model shows that `init_db` never creates `students`.
  - An INSERT whose primary key is taken fails with the 500 UNIQUE error.
  - `Valid()` holds the schema invariants: every row is stored under its own
    key, `class_course` holds only `id = 1`, and log ids are 1, 2, 3, ….
- **The routers** (`StatusRouter`, `ControlRouter`, `ClassCourseRouter`,
  `CommentsRouter`, `UsersRouter`, `StudentsRouter`, `CoursesRouter`,
  `GroqRouter`, `BackendRouter`) are one module per file of `app/routers/`.
  - A handler that writes is a method with `modifies` on the tables it
    touches, and it states the whole new state.
  - A handler that only reads is a function, except the three listings,
    which are methods because they call the sorting method.
  - Generated ids (`uuid4`) and timestamps (`datetime.utcnow()`) are
    parameters.
- **Ordering** (`Ordering`). `ORDER BY created_at DESC [LIMIT n]` is modelled
  on SQLite's BINARY order of TEXT, which is the lexicographic order on code
  points. "Newest first" in this model means largest `created_at` text
  first. `datetime.isoformat()` leaves out the fraction when the microsecond
  is 0, and `Z` sorts after `.`, so a whole second sorts after the
  instants just past it (`Ordering.WholeSecondSortsLast`). The listing is
  built by an insertion-sort method, and lemmas say
  which rows a limited listing must contain.
- **Transcripts** (`GroqRouter`). `extract_text` is a pure specification
  function (`Extract`) over a JSON-like `Value`, implemented by its loop
  (`ExtractText`). Then come the length filter and the no-client and error
  fallbacks. The client's result, or the fact that the call raised, is an
  input.
- **The client** (`Tutorial`, `StatusControl`, `ApiConfig`). Two classes hold
  the Vue refs: the tutorial stepper with `{name}` substitution, and status
  polling with the screen flags. `getApiUrl` is a function.
- **Python and JavaScript string behaviour** (`TextOps`): `str.strip()`,
  `' '.join`, `str(n)`, `startsWith`, and `String.prototype.replace` with a
  string pattern, including its `$` patterns.
- **Request sequences** (`Scenarios`): the flows of `tests/test_basic.py` and
  `tests/test_new_endpoints.py`, and the properties that span two routers.

Some facts of the code that the model keeps: `init_db` drops and recreates
`comments` on every run. It seeds no status, creates no `students` table,
and has no text-repair step. No table has the `lat`, `lon` or `student_id`
columns.

## Model

| member | source | states |
|---|---|---|
| Wrappers.HttpError.StatusCode | app/routers/status.py:18 | 400 exactly for a bad request, 404 for not found, 422 for an unprocessable body and 500 for an uncaught SQLite error |
| Wrappers.Truthy | app/routers/control.py:35 | Python truthiness of an optional string: present and not empty (definition) |
| Db.Database.constructor | app/db.py:5-12 | a new database file has no tables and satisfies the schema invariants |
| Db.Database.PointerRowOf | app/routers/control.py:32-33 | `WHERE id = 1` finds the only row of `class_course`, and finds none only when the table is empty |
| Db.RecreateComments | app/db.py:19-31 | after DROP and CREATE the `comments` table exists and is empty, whatever it held; every other table is untouched |
| Db.CreateIfNotExists | app/db.py:34-89 | CREATE TABLE IF NOT EXISTS adds the missing tables and keeps rows of existing ones |
| Db.InitDb | app/db.py:15-91 | afterwards the tables are the old ones plus the six `init_db` knows, `comments` is empty, and no other table changes; `students` is never created |
| Db.UpsertPointer | app/db.py:59 | INSERT OR REPLACE leaves exactly one row, keyed 1; an id other than 1 fails the CHECK and changes nothing |
| Db.InsertStatus | app/routers/status.py:22 | appends one row whose id is one more than the log length, changing nothing else |
| Db.LatestStatusRow | app/routers/status.py:32-33 | returns the row with the largest id, which is the last appended row, or none exactly when the log is empty |
| StatusRouter.SetStatus | app/routers/status.py:15-25 | a status outside ALLOWED is a 400 with the log unchanged; an allowed one becomes the new last entry and is echoed with its time |
| StatusRouter.GetLatestStatus | app/routers/status.py:28-37 | 404 exactly when the log is empty; otherwise the most recently appended status, which has the largest id |
| ControlRouter.SetCourseOfDay | app/routers/control.py:17-25 | the singleton row is overwritten with the new id and time, whatever it held |
| ControlRouter.GetCourseOfDay | app/routers/control.py:28-37 | 404 exactly when the row is missing or its `course_id` is NULL or empty; otherwise the stored id |
| ControlRouter.SetStatus | app/routers/control.py:40-49 | any string, allowed or not, becomes the last entry of the shared status log |
| ControlRouter.GetStatus | app/routers/control.py:52-61 | 404 exactly when the log is empty; otherwise the last appended status |
| ClassCourseRouter.SetClassCourseJson | app/routers/class_course.py:13-23 | writes row 1 with the body's id and the time, and returns both |
| ClassCourseRouter.SetClassCoursePath | app/routers/class_course.py:26-35 | writes the same row and returns the same record as the JSON route for the same id |
| ClassCourseRouter.GetClassCourse | app/routers/class_course.py:38-47 | 404 exactly when the row is missing or its id is empty; otherwise the stored id and `set_at` |
| CommentsRouter.CreateComment | app/routers/comments_new.py:26-38 | under a fresh id, stores and returns exactly the row echoing `user_id`, `text`, `reply_to` and `genre`, adding no other row; `user_id` is not checked |
| CommentsRouter.CreateCommentV2 | app/routers/comments_new.py:51-53 | the same outcome and new state as `create_comment` |
| CommentsRouter.ListComments | app/routers/comments_new.py:41-48 | at most 500 stored rows, distinct, largest `created_at` text first, and no omitted row whose text is larger than a listed one |
| CommentsRouter.GetCommentV2 | app/routers/comments_new.py:56-65 | the stored row for a known id; 404 exactly when the id is unknown |
| UsersRouter.CreateUser | app/routers/users.py:20-29 | under a fresh id, stores and returns `{user_id, name, created_at}` and adds no other row |
| UsersRouter.RegisterUser | app/routers/users.py:32-35 | the same outcome and new state as `create_user` |
| UsersRouter.GetUser | app/routers/users.py:38-47 | the stored row for a known id; 404 exactly when the id is unknown |
| StudentsRouter.CreateStudent | app/routers/students.py:20-32 | under a fresh id, adds exactly one row and changes no other; fails with "no such table" when `students` is missing |
| StudentsRouter.ListStudents | app/routers/students.py:35-42 | every stored student exactly once, largest `created_at` text first |
| StudentsRouter.GetStudent | app/routers/students.py:45-54 | the stored row for a known id; 404 exactly when the id is unknown |
| CoursesRouter.SelectCourse | app/routers/courses.py:31-39 | non-empty JSON content wins over a file; the id is body `id`, else the `course_id` parameter, else the fresh id; 422 exactly when there is neither content nor a file |
| CoursesRouter.CreateCourse | app/routers/courses.py:19-47 | REPLACE stores the selected content under the selected id, one row per id; a 422 leaves the store unchanged |
| CoursesRouter.ListCourses | app/routers/courses.py:50-57 | every course exactly once as id and `created_at` only, largest `created_at` text first |
| CoursesRouter.GetCourse | app/routers/courses.py:60-69 | the stored content under `gpx` for a known id; 404 exactly when unknown |
| CoursesRouter.DeleteCourse | app/routers/courses.py:72-79 | removes that id, keeps every other course, and answers `deleted: true` whether or not the id existed |
| GroqRouter.StrippedFieldNonBlank | app/routers/groq.py:83-84 | a dict field that is taken is non-blank and already stripped |
| GroqRouter.TopLevelText | app/routers/groq.py:74-84 | the `text` attribute, or a dict's `text` key, is taken only when it is a non-blank string, and comes back stripped |
| GroqRouter.ReprFallback | app/routers/groq.py:102-107 | the `str(obj)` fallback is non-blank and stripped; a blank string or `{}` gives nothing |
| GroqRouter.IndexErrorPersists | app/routers/groq.py:91 | once a result raised at `alternatives[0]`, the whole collection raises |
| GroqRouter.CollectFirstAlternative | app/routers/groq.py:92-95 | appends the non-blank `text`, then `transcript`, of the first alternative |
| GroqRouter.CollectAlternative | app/routers/groq.py:90-95 | only `alternatives[0]` is read; an empty list raises |
| GroqRouter.CollectResult | app/routers/groq.py:89-98 | a result dict adds its first alternative's parts, then its own non-blank `text` |
| GroqRouter.Extract | app/routers/groq.py:72-108 | `extract_text` raises only while collecting `results`, with no top-level text; it returns nothing only when the `str(obj)` fallback is blank or `{}` |
| GroqRouter.ExtractText | app/routers/groq.py:72-108 | the loop over `results` computes exactly `Extract`, including raising on an empty `alternatives` list |
| GroqRouter.ExtractIsStripped | app/routers/groq.py:72-108 | any text `extract_text` returns is non-blank and stripped, joined results included |
| GroqRouter.PartsRaiseIff | app/routers/groq.py:88-98 | collection raises if and only if some result has an empty `alternatives` list |
| GroqRouter.FilterTranscript | app/routers/groq.py:110-114 | the transcript becomes empty exactly when its stripped form is at most one character, and is otherwise unchanged |
| GroqRouter.PunctuationIsShort | app/routers/groq.py:112 | `.`, `,`, `。` and the empty string are already caught by the length test |
| GroqRouter.RespondedTranscript | app/routers/groq.py:65-119 | a response yields an empty transcript, a stripped one of at least two characters, or the failure message |
| GroqRouter.EmptyAlternativesFails | app/routers/groq.py:115-119 | an empty `alternatives` list in any result yields "(groq transcription failed - uploaded …)" |
| GroqRouter.NotConfiguredTranscript | app/routers/groq.py:61-63 | the no-client transcript starts with its fixed opening words and ends with the file name and `)` |
| GroqRouter.NotConfiguredNamesUpload | app/routers/groq.py:63 | the digits after the opening words read back as the byte count |
| GroqRouter.FailedTranscript | app/routers/groq.py:117-119 | the failure transcript is "(groq transcription failed - uploaded " followed by the file name and `)` |
| GroqRouter.TranscriptFallbacksDiffer | app/routers/groq.py:61-119 | the no-client and failure transcripts of a file are never equal |
| GroqRouter.AudioTranscript | app/routers/groq.py:61-119 | the audio transcript is one of the two fallbacks, empty, or a stripped text of at least two characters |
| GroqRouter.TextOutput | app/routers/groq.py:22-38 | the reply when the model answered; with no client "GroqOutput for: " followed by the input; after a raised call "GroqError fallback for: " followed by the input |
| GroqRouter.FallbacksNameInput | app/routers/groq.py:22-38 | both text fallbacks end with the input and differ from each other |
| GroqRouter.InsertGroqLog | app/routers/groq.py:123 | appends one row with the next id and the given type, input and output |
| GroqRouter.GroqText | app/routers/groq.py:18-45 | returns the chat output or the matching fallback, and logs exactly one "text" row with it |
| GroqRouter.Transcribe | app/routers/groq.py:61-119 | with no client, the no-client message naming the byte count and file; a raised call, the failure message; otherwise the extracted text, filtered |
| GroqRouter.GroqAudio | app/routers/groq.py:48-126 | returns the transcript and logs exactly one "audio" row whose input is the file name |
| BackendRouter.ListItems | app/routers/backend.py:12-14 | always exactly the one item with id 1 and name "example" |
| BackendRouter.CreateItem | app/routers/backend.py:17-21 | an id of 0 or less is a 400 "invalid id"; any other item is returned unchanged |
| BackendRouter.ListedItemsAreCreatable | app/routers/backend.py:12-21 | the listed item is accepted back unchanged |
| Tutorial.StoryShape | machi-vue/src/composables/useTutorial.js:4-57 | the story has ten steps; only the ninth asks for the name and only the tenth shows it |
| Tutorial.Tutorial.constructor | machi-vue/src/composables/useTutorial.js:60-63 | the stepper starts at step 1, not completed, with no name |
| Tutorial.Tutorial.CurrentStepData | machi-vue/src/composables/useTutorial.js:66-72 | null exactly when the step is outside 1..10; otherwise that step's entry |
| Tutorial.Tutorial.NextStep | machi-vue/src/composables/useTutorial.js:75-89 | below the last step it advances by one and leaves the flag unchanged, because the inner check never fires; at the last step it only sets `isCompleted`; 1..10 is preserved |
| Tutorial.Tutorial.PreviousStep | machi-vue/src/composables/useTutorial.js:92-96 | goes back one step but never below 1 |
| Tutorial.Tutorial.SetNameAndNext | machi-vue/src/composables/useTutorial.js:99-103 | stores the name in the ref and in storage, then does what `nextStep` does |
| Tutorial.Tutorial.ResetTutorial | machi-vue/src/composables/useTutorial.js:106-110 | back to step 1, not completed, no name; storage keeps the name |
| Tutorial.Tutorial.DisplayName | machi-vue/src/composables/useTutorial.js:118 | the ref's name, else the stored name, else "たんけんたい"; never empty |
| Tutorial.Tutorial.GetDisplayMessage | machi-vue/src/composables/useTutorial.js:113-123 | empty outside the story; every step but the name step returns its message unchanged |
| Tutorial.GreetingPlaceholder | machi-vue/src/composables/useTutorial.js:53 | the first `{name}` in the greeting comes right after its opening words |
| Tutorial.GreetingShowsName | machi-vue/src/composables/useTutorial.js:117-119 | on the last step, a display name without `$` is shown in place of `{name}` and nothing else changes |
| Tutorial.DollarNameShowsPlaceholder | machi-vue/src/composables/useTutorial.js:117-119 | the name `$&` on the last step shows the raw `{name}`, unlike the intended message |
| Tutorial.Tutorial.IntendedDisplayMessage | machi-vue/src/composables/useTutorial.js:113-123 | the message with the name inserted literally: empty outside the story, unchanged off the last step, and equal to `getDisplayMessage` for a name without `$` |
| Tutorial.IntendedGreetingShowsName | machi-vue/src/composables/useTutorial.js:117-119 | on the last step the intended greeting shows any display name, `$` included, in place of `{name}` |
| StatusControl.StatusControl.IsPreparation | machi-vue/src/composables/useStatusControl.js:13 | the status is チュートリアル (definition) |
| StatusControl.StatusControl.IsInProgress | machi-vue/src/composables/useStatusControl.js:14 | the status is 実行中 (definition) |
| StatusControl.StatusControl.IsCompleted | machi-vue/src/composables/useStatusControl.js:15 | the status is 結果 (definition) |
| StatusControl.StatusControl.IsBreak | machi-vue/src/composables/useStatusControl.js:16 | the status is 終了 (definition) |
| StatusControl.StatusControl.IsDebug | machi-vue/src/composables/useStatusControl.js:17 | the status is デバッグ (definition) |
| StatusControl.StatusControl.StatusChanged | machi-vue/src/composables/useStatusControl.js:20-22 | an earlier status exists and differs from the current one (definition; see `ChangedIffEarlierStatus`) |
| StatusControl.StatusControl.ShouldShowTutorial | machi-vue/src/composables/useStatusControl.js:66-69 | the tutorial screen never shows with the map or the results |
| StatusControl.StatusControl.ShouldShowLoading | machi-vue/src/composables/useStatusControl.js:71-74 | once the first poll has ended, the loading screen shows only for 終了, and then alone |
| StatusControl.StatusControl.ShouldShowMap | machi-vue/src/composables/useStatusControl.js:76-79 | the map never shows with the results |
| StatusControl.StatusControl.ShouldShowResult | machi-vue/src/composables/useStatusControl.js:81-84 | the status is 結果 (definition) |
| StatusControl.StatusControl.ShouldShowPostTutorialLoading | machi-vue/src/composables/useStatusControl.js:95-97 | a completed tutorial with neither the map nor the results showing (definition; see `PostTutorialLoading`) |
| StatusControl.StatusControl.constructor | machi-vue/src/composables/useStatusControl.js:5-7 | empty current and last status, loading, tutorial not completed |
| StatusControl.StatusControl.FetchStatus | machi-vue/src/composables/useStatusControl.js:25-47 | a failed or thrown fetch changes nothing; a new status moves the old one to `lastStatus`; an equal one leaves both; loading ends on every read |
| StatusControl.StatusControl.OnStatusChange | machi-vue/src/composables/useStatusControl.js:100-106 | entering the tutorial status from another status clears `tutorialCompleted`; any other change keeps it |
| StatusControl.StatusControl.CompleteTutorial | machi-vue/src/composables/useStatusControl.js:89-92 | sets `tutorialCompleted` |
| StatusControl.ChangedIffEarlierStatus | machi-vue/src/composables/useStatusControl.js:20-22 | a change is reported exactly when there is an earlier status, so never while `lastStatus` is empty |
| StatusControl.AtMostOneFlag | machi-vue/src/composables/useStatusControl.js:13-17 | at most one of the five status flags holds |
| StatusControl.MapScreen | machi-vue/src/composables/useStatusControl.js:66-79 | the map shows exactly for 実行中 and デバッグ, and never together with the tutorial |
| StatusControl.PostTutorialLoading | machi-vue/src/composables/useStatusControl.js:95-97 | the post-tutorial wait screen needs a completed tutorial and excludes the map and the results |
| ApiConfig.BaseUrl | machi-vue/src/config/api.js:4 | the build variable when it is set and non-empty, else the empty string |
| ApiConfig.GetApiUrl | machi-vue/src/config/api.js:7-14 | a path starting with `http` is returned unchanged; any other is the base URL followed by the path |
| ApiConfig.DefaultBaseIsIdentity | machi-vue/src/config/api.js:4-13 | with the default empty base, every path is fetched as it is |
| ApiConfig.LiteralPrefixTest | machi-vue/src/config/api.js:9 | the prefix test is literal, so `httpfoo` is kept as if it were a URL |
| ApiConfig.AbsoluteBaseIsStable | machi-vue/src/config/api.js:7-14 | with an absolute base, a URL that `getApiUrl` produced is a fixed point |
| TextOps.IsSpace | app/routers/groq.py:76-77 | the characters Python's `str.isspace` accepts, which `strip()` removes (definition) |
| TextOps.StartsWith | machi-vue/src/config/api.js:9 | JavaScript's `s.startsWith(p)` (definition) |
| TextOps.Strip | app/routers/groq.py:76-77 | `strip()` leaves no whitespace at either end and never lengthens |
| TextOps.StripIsInfix | app/routers/groq.py:76-77 | `strip()` is the part of the string between a blank prefix and a blank suffix |
| TextOps.StripEmptyIffBlank | app/routers/groq.py:76 | `t.strip()` is falsy exactly when `t` is all whitespace |
| TextOps.StripIdempotent | app/routers/groq.py:112 | stripping a stripped transcript again changes nothing |
| TextOps.Join | app/routers/groq.py:100 | Python's `sep.join(parts)` (definition; see `JoinStripped`) |
| TextOps.JoinStripped | app/routers/groq.py:99-100 | joining non-blank stripped parts with one space gives a non-blank stripped string |
| TextOps.Decimal | app/routers/groq.py:63 | the byte count is rendered as digits, with no leading zero |
| TextOps.DecimalRoundTrip | app/routers/groq.py:63 | reading the rendered byte count back gives the count |
| TextOps.IndexOf | machi-vue/src/composables/useTutorial.js:119 | finds the first occurrence of the pattern, with none before it |
| TextOps.Substitution | machi-vue/src/composables/useTutorial.js:119 | the text ECMAScript's GetSubstitution inserts for a string pattern: `$$`, `$&`, `` $` `` and `$'` expand, everything else is literal (definition; see `SubstitutionLiteral` and `SubstitutionDollarDollar`) |
| TextOps.ReplaceFirst | machi-vue/src/composables/useTutorial.js:119 | with no occurrence, the message is unchanged |
| TextOps.ReplaceFirstLiteral | machi-vue/src/composables/useTutorial.js:119 | a `$`-free replacement takes the place of the first occurrence only |
| TextOps.ReplaceFirstVerbatim | machi-vue/src/composables/useTutorial.js:119 | the first occurrence replaced by the text taken literally: unchanged without an occurrence, otherwise the length changes by the difference |
| TextOps.ReplaceFirstAgrees | machi-vue/src/composables/useTutorial.js:119 | `replace` and the literal replacement agree on every replacement without `$` |
| TextOps.SubstitutionLiteral | machi-vue/src/composables/useTutorial.js:119 | a replacement without `$` is inserted literally |
| TextOps.SubstitutionDollarDollar | machi-vue/src/composables/useTutorial.js:119 | `$$` in a replacement inserts one `$` |
| Ordering.TextLeTotal | app/routers/comments_new.py:45 | any two `created_at` strings are comparable |
| Ordering.TextLeTransitive | app/routers/comments_new.py:45 | the TEXT order is transitive |
| Ordering.TextLeAntisymmetric | app/routers/comments_new.py:45 | two strings that sort no later than each other are equal |
| Ordering.TextLeReflexive | app/routers/comments_new.py:45 | every string sorts no later than itself |
| Ordering.WholeSecondSortsLast | app/routers/comments_new.py:29 | a timestamp on a whole second sorts after the same second plus one microsecond, so TEXT order is not time order |
| Ordering.InsertNewestSorted | app/routers/students.py:39 | inserting a row into a listing sorted by descending `created_at` text keeps it sorted |
| Ordering.OrderNewestFirst | app/routers/students.py:39 | `ORDER BY created_at DESC` lists every row exactly once, largest `created_at` text first |
| Ordering.LimitKeepsNewest | app/routers/comments_new.py:45 | `LIMIT n` on that order keeps the `n` largest texts and omits none larger than a kept row |
| Ordering.FullListing | app/routers/courses.py:54 | with no limit, every row is listed |
| Ordering.OmittedMeansCrowded | app/routers/comments_new.py:45 | an omitted row has at least `limit` other rows at least as new |
| Ordering.ListedUnlessCrowded | app/routers/comments_new.py:45 | a row with fewer than `limit` other rows at least as new is listed |
| Scenarios.InitTwice | app/db.py:15-91 | running `init_db` twice equals running it once: same tables, empty `comments`, other rows kept |
| Scenarios.FreshStoreHasNoStudents | app/db.py:15-91 | on a freshly initialised file `create_student` fails with "no such table: students" |
| Scenarios.FreshStoreHasNoStatus | app/db.py:66-75 | `init_db` seeds no status: the first read is a 404 "no status set" |
| Scenarios.SameStatusQuery | app/routers/control.py:52-61 | both status routers read the same log with the same result |
| Scenarios.StatusPostThenGet | app/routers/status.py:15-37 | an allowed status posted is read back; a refused one leaves the log and the read as they were |
| Scenarios.ControlStatusRoundTrip | app/routers/control.py:40-61 | any status posted through control is read back, by both routers |
| Scenarios.CourseOfDayLastWins | app/routers/control.py:22 | after setting A then B, the read returns B, or a 404 when B is empty |
| Scenarios.ControlThenClassCourse | app/routers/control.py:22 | a course of the day set through control is what `get_class_course` returns |
| Scenarios.ClassCourseThenControl | app/routers/class_course.py:20 | a class course set by either route is the course of the day, and both routes leave the same row |
| Scenarios.TwoIdenticalComments | app/routers/comments_new.py:28-35 | two identical submissions make two rows with distinct ids and equal contents |
| Scenarios.CommentCreateThenGet | app/routers/comments_new.py:56-65 | `get_comment_v2` of a created id returns the created row |
| Scenarios.CommentListedUnlessCrowded | app/routers/comments_new.py:41-48 | a stored comment with fewer than 500 others at least as new appears in the listing |
| Scenarios.PostAndList | tests/test_basic.py:27-39 | on an empty table, the posted comment echoes its input and is listed |
| Scenarios.CommentsPostGet | tests/test_basic.py:20-39 | after start-up: create a user, post as them, and find the comment in the listing |
| Scenarios.SameNameTwice | app/routers/users.py:20-35 | one name registered twice gives two users with distinct ids, each found again by its id |
| Scenarios.StudentCreateThenGet | app/routers/students.py:20-54 | a created student is found by its id with its name |
| Scenarios.ResubmitCourse | app/routers/courses.py:44 | resubmitting an id keeps one row, holding the second content and time |
| Scenarios.DeleteThenGet | app/routers/courses.py:72-79 | a deleted course is a 404 |
| Scenarios.RegisterAndPublishCourse | tests/test_new_endpoints.py:8-26 | registers alice, stores course1 and makes it the course of the day |
| Scenarios.RunAndComment | tests/test_new_endpoints.py:28-41 | the status 実行中 is read back, and the v2 comment is found by its id |
| Scenarios.NewEndpointsFlow | tests/test_new_endpoints.py:8-46 | after start-up the whole flow succeeds, and the text route answers with the chat output or its fallback |
| Scenarios.ClientKnowsAllowedStatuses | app/routers/status.py:8 | the client's five status names are exactly the statuses the server accepts |
| Scenarios.ScreensShown | machi-vue/src/composables/useStatusControl.js:66-84 | once loaded at most one main screen shows, and while loading at most the loading screen and one other |
| Scenarios.OneScreenPerStatus | machi-vue/src/composables/useStatusControl.js:66-84 | once loaded, an accepted status selects exactly one main screen, and an unknown one selects none |

## Left out

- I/O is outside the model: SQLite connections and commits, the HTTP framework, and request validation by pydantic. A body that fails validation gets a 422 that the model does not produce. Each handler is one statement, so it is modelled as atomic, and concurrent requests are not modelled.
- `uuid4` and `datetime.utcnow()` are parameters. A generated id that is already taken gets the UNIQUE error.
- `init_db` at import and at start-up (app/db.py:102-107 and the wiring in app/main.py) is the `Db.InitDb` method, called where a scenario starts. App wiring, `/healthz` and static files are not part of this model.
- The language-model and Whisper calls (app/routers/groq.py:29-36, 66-70) and app/groq_client.py are not modelled. What a call returns, or the fact that it raised, is an input (`Chat`, `Transcriber`). Request payloads, model names and the system prompt are left out.
- GroqRouter.GroqText: a chat reply whose `content` is None is not modelled; the reply is always a string.
- GroqRouter.ExtractText: `str(obj)` is the `repr` parameter. An exception raised by attribute access or by `str()` (the two try blocks at app/routers/groq.py:74-79 and 102-107) is not modelled. A response is either a dict (`Dict`) or an object with at most a `text` attribute (`Obj`).
- GroqRouter.Lookup: a dict is an association list, read at its first binding. Python dicts have distinct keys, so this choice is never observable.
- GroqRouter.Extract specifies the order of the collected parts by its definition, a left fold over `results`. No separate lemma shows that extraction over two concatenated result lists concatenates their parts.
- The debugging `print` and `traceback` output in the audio route is left out.
- CoursesRouter.CreateCourse: the upload is a string that has already been decoded. The multipart read and its UTF-8 decode (app/routers/courses.py:35-36), and the 500 an undecodable upload raises, are not modelled. JSON bodies whose `content` or `id` is not a string are not modelled either.
- StatusControl.StatusControl.FetchStatus: the `watch` callback runs inside the poll that changed the status, not on Vue's scheduler queue. Nothing else writes `tutorialCompleted` in between, so the state after the watch has run is the same. A `status` field that is a truthy non-string is not modelled.
- The five-second polling interval, `onMounted`/`onUnmounted` and the client's `console` logging are left out.
- Tutorial: `localStorage` is the `storage` map field. Its persistence across page loads is not modelled.
- machi-vue/src/composables/useVoiceRecording.js is not part of this model: its logic is browser audio and floating-point level arithmetic.
- machi-vue/src/composables/useLottieAnimations.js, app/routers/frontend.py and app/static/common.js are not part of this model: they are animation and DOM code.
- app/routers/comments.py is not part of this model: it is a legacy router that is not mounted, and its schema does not match the table created by `init_db`.
- Build tooling (machi-vue/generate-icons.js, machi-vue/vite.config.js) and the offline log dump (scripts/dump_groq_logs.py) are not part of this model.
- Ordering.OrderNewestFirst: the order is on the `created_at` text, as SQLite sorts it, not on the instant it names; the two differ when a timestamp falls on a whole second.
- Ordering.OrderNewestFirst: rows with equal `created_at` come in one order the model chooses. The contract states only what every order SQLite may return has.

## Findings

| source | as written | input that shows it | evidently intended | confidence | as-written member | corrected member |
|---|---|---|---|---|---|---|
| machi-vue/src/composables/useTutorial.js:119 | `message.replace('{name}', name)` passes the typed name as a replacement string, so its `$` patterns expand | the name `$&` on step 10 shows the raw `{name}` instead of the name | the name is shown as typed | not executed | Tutorial.DollarNameShowsPlaceholder | Tutorial.IntendedGreetingShowsName |

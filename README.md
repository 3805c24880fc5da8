# Social app back ends and Android client, modelled in Dafny

The system is a small photo and video sharing app. Users register, log in,
edit their bio and avatar, and publish, list, edit and delete posts. Each
post has a description and one uploaded image or video.

This project models four parts of it:

- **The Flask server** (`api_server_fixed.py`). It keeps `users` and
  `posts` tables in SQLite. The session token is the user id in decimal,
  sent back as `Authorization: Bearer <id>`. Modelled in `flask_server.dfy`
  (module `FlaskServer`):
  - `FlaskStore` is a class whose two tables are maps keyed by id. It also
    holds the two AUTOINCREMENT counters.
  - Each route is a method that returns the status code and the JSON body.
  - `Valid()` is the invariant every route keeps:
    - ids match their keys and never exceed the counters;
    - every post's author exists;
    - usernames and emails are unique.
- **The FastAPI server** (`backend/app/main.py`). It serves the same
  resources through SQLModel tables and has its own status codes and
  messages. Modelled in `fastapi_server.dfy` (module `FastApiServer`).
- **The Android client's data layer**. This is `Repository.kt` and the Room
  DAOs in `Dao.kt`. Modelled in `repository.dfy` and `dao.dfy`, over the
  data classes in `models.dfy`.
  - The repository rewrites relative upload paths into absolute URLs.
  - It keeps the session (token and user id) in a preference store.
  - It sends every authenticated request with a `Bearer` header.
- **The Android view models** (`AuthViewModel.kt`, `PostViewModel.kt`).
  Modelled in `auth_view_model.dfy` and `post_view_model.dfy`. Each is a
  class with the state-flow fields as Dafny fields. Besides `state`, each
  class keeps two logs:
  - `written`: every value written to the state flow;
  - `calls`: every repository call made.

Shared pieces:

- `text.dfy` (module `Text`) holds the string and number operations the
  source relies on:
  - `rsplit`;
  - `split(" ")[1]`;
  - `str`, `int` and `toIntOrNull`;
  - `lower`;
  - `removePrefix`;
  - `isBlank` and `trim`.
- `sql.dfy` (module `Sql`) holds what the SQL engines guarantee:
  - the row order of `ORDER BY created_at DESC`, built by insertion and
    proved ordered, duplicate-free and complete;
  - the rowid a new row gets.

Things the code cannot see become parameters:

- what a remote call returned or threw;
- password hashing and checking, token minting, the upload's UUID, the
  clock, the request's host and the email pattern matcher.

## Model

| member | source | states |
|---|---|---|
| Text.RemovePrefix | app/src/main/java/com/ejercicio/my_application_social/data/repository/Repository.kt:103 | Kotlin `removePrefix`: with the prefix present, prefix + result is the input; otherwise the input is returned unchanged |
| Text.Lower | api_server_fixed.py:89 | `lower()` keeps the length and lower-cases each ASCII letter in place |
| Text.LowerIdempotent | api_server_fixed.py:86-89 | lower-casing an already lower-cased extension changes nothing |
| Text.Contains | backend/app/main.py:117 | `needle in hay` needs the needle to be no longer than the text, and holds for the empty needle (characterised fully by ContainsIffOccurs) |
| Text.ContainsIffOccurs | backend/app/main.py:117 | Python's `"image" in s` holds exactly when `image` occurs at some position of `s` |
| Text.LastIndex | api_server_fixed.py:88 | the index of the last occurrence of the separator: that character is there and none follows; None exactly when the character is absent |
| Text.AfterLast | api_server_fixed.py:86-93 | `rsplit('.', 1)[1]` is defined exactly when a `.` is present; it is the text after some `.` and holds no further `.` |
| Text.UpTo | api_server_fixed.py:77 | `split(" ")[1]` of a `Bearer ` header: the longest space-free prefix of the text after `Bearer ` |
| Text.NatDigits | api_server_fixed.py:162 | `str(id)` of a natural number is a non-empty run of digits, with a leading `0` only for zero |
| Text.DecimalOf | api_server_fixed.py:162 | `str(n)` is non-empty and is all digits exactly when `n` is non-negative |
| Text.ParseInt | api_server_fixed.py:77 | `int(text)` for an optionally signed run of decimal digits; only non-empty texts parse |
| Text.DigitsRoundTrip | api_server_fixed.py:77 | reading back the digits printed for a natural number gives that number (by induction) |
| Text.DecimalRoundTrip | api_server_fixed.py:162 | `int(str(n)) == n` for every integer: the token issued at registration parses back to the user id |
| Text.DecimalInjective | api_server_fixed.py:162 | two users with different ids never get the same token text |
| Text.ToIntOrNull | app/src/main/java/com/ejercicio/my_application_social/ui/viewmodel/PostViewModel.kt:56 | `toIntOrNull()` succeeds exactly when the text parses as an integer that fits in 32 bits, and then gives that integer |
| Text.TrimStart | app/src/main/java/com/ejercicio/my_application_social/ui/viewmodel/AuthViewModel.kt:33 | the result is a suffix of the input; only whitespace is dropped; it does not start with whitespace |
| Text.TrimEnd | app/src/main/java/com/ejercicio/my_application_social/ui/viewmodel/AuthViewModel.kt:33 | the result is a prefix of the input; only whitespace is dropped; it does not end with whitespace |
| Text.TrimIsSlice | app/src/main/java/com/ejercicio/my_application_social/ui/viewmodel/AuthViewModel.kt:33 | `trim()` is a slice of its input with only whitespace cut from each end, and it neither starts nor ends with whitespace |
| Text.IsBlank | app/src/main/java/com/ejercicio/my_application_social/ui/viewmodel/AuthViewModel.kt:26 | `isBlank()`: empty or whitespace only (its partner is BlankIffTrimEmpty) |
| Text.Trim | app/src/main/java/com/ejercicio/my_application_social/ui/viewmodel/AuthViewModel.kt:33 | `trim()` is no longer than its input and, when non-empty, neither starts nor ends with whitespace |
| Text.BlankIffTrimEmpty | app/src/main/java/com/ejercicio/my_application_social/ui/viewmodel/AuthViewModel.kt:26 | `isBlank()` holds exactly when `trim()` leaves nothing |
| Sql.InsertionPoint | api_server_fixed.py:313 | where a row goes in a newest-first list: after every strictly newer row, before the first that is not |
| Sql.InsertKeepsOrder | api_server_fixed.py:313 | inserting at that point keeps the list ordered by `created_at` descending |
| Sql.InsertKeepsDistinct | api_server_fixed.py:313 | inserting a row id not yet listed keeps the ids distinct and adds exactly that id |
| Sql.OrderNewestFirst | api_server_fixed.py:306-316 | `ORDER BY created_at DESC` returns every selected row exactly once, no row older than a row after it |
| Sql.NextRowId | backend/app/main.py:36-38 | a new row of a table without AUTOINCREMENT gets an id above every id in use (max + 1, or 1 for an empty table) |
| FlaskServer.AllowedFile | api_server_fixed.py:86-89 | `allowed_file` accepts only a name that holds a `.` (characterised fully by AllowedFileIff) |
| FlaskServer.Extension | api_server_fixed.py:93 | `rsplit('.', 1)[1].lower()` holds no `.` and is already lower-case |
| FlaskServer.StoredName | api_server_fixed.py:91-97 | `save_file`'s name is the uuid, a `.`, then a dot-free lower-case extension |
| FlaskServer.AllowedFileIff | api_server_fixed.py:86-89 | `allowed_file` holds exactly when some `.` has no `.` after it and the lower-cased text after it is png, jpg, jpeg, gif or mp4 |
| FlaskServer.AfterLastOfJoin | api_server_fixed.py:91-97 | the text after the last `.` of `<uuid>.<ext>` is `ext` whatever the uuid holds |
| FlaskServer.StoredNameKeepsExtension | api_server_fixed.py:91-97 | `save_file`'s name `<uuid>.<ext>` has the same lower-cased extension as the uploaded name |
| FlaskServer.MediaType | api_server_fixed.py:393 | the media type is always `image` or `video` |
| FlaskServer.VideoIffMp4 | api_server_fixed.py:389-393 | of the files `allowed_file` accepts, exactly the mp4 ones are stored as `video` |
| FlaskServer.NewPost | api_server_fixed.py:391-401 | the inserted row stores `<uuid>.<ext>` as its media and takes its media type from the uploaded name's extension, with the caller as owner and the clock as creation time |
| FlaskServer.BearerId | api_server_fixed.py:72-77 | a user id is read only from a header starting `Bearer `, and it is `int` of the second space-separated field |
| FlaskServer.UserFromToken | api_server_fixed.py:72-84 | `get_user_from_token` yields a user exactly when the header names an id that is in `users`, and then it is that row |
| FlaskServer.IssuedTokenAuthenticates | api_server_fixed.py:159-164 | the token `register`/`login` hands out, sent back as `Bearer <token>`, authenticates as the user it was issued for |
| FlaskServer.UserRowToJson | api_server_fixed.py:99-108 | every column is copied; the avatar becomes `/uploads/<file>`, or null exactly when the column is null or empty |
| FlaskServer.PostRowToJson | api_server_fixed.py:110-129 | every column is copied; media and avatar URLs are `http://<host>/uploads/<file>`; the avatar is null exactly when the author has none |
| FlaskServer.OwnedBy | api_server_fixed.py:425-444 | defined exactly when the caller is authenticated and the post exists; true exactly when the caller owns the post |
| FlaskServer.FlaskStore.constructor | api_server_fixed.py:37-66 | `init_db` on a fresh database: both tables empty and both AUTOINCREMENT counters at 0, so the first user and the first post get id 1; invariant established |
| FlaskServer.FlaskStore.FeedHasEveryPost | api_server_fixed.py:306-316 | under the invariant the feed's inner JOIN drops no post: the rows `GET /posts` selects are all posts |
| FlaskServer.FlaskStore.ListedInOrder | api_server_fixed.py:306-316 | the JSON of ids ordered newest first, one entry per id, lists exactly those rows, once each, newest first |
| FlaskServer.FlaskStore.SelectNewestFirst | api_server_fixed.py:306-316 | the joined SELECT returns the JSON of exactly the selected rows, each once, newest first |
| FlaskServer.FlaskStore.Register | api_server_fixed.py:136-169 | a missing field is a 400; a taken username or email is a 409; both leave the users and the user counter unchanged; otherwise the counter moves to the next id, that id gets a row with the default bio and no avatar, and the reply is 201 with `str(id)` as token; posts and the post counter never change; the invariant is kept |
| FlaskServer.FlaskStore.Login | api_server_fixed.py:171-193 | a missing field is a 400; otherwise 200 exactly when a user with that email passes the hash check, with that user's id and `str(id)` as token; any other case is a 401 |
| FlaskServer.FlaskStore.GetMe | api_server_fixed.py:200-209 | 401 without a valid token; otherwise 200 with the caller's JSON |
| FlaskServer.FlaskStore.GetUser | api_server_fixed.py:211-225 | 401 without a valid token; 404 for an unknown id; otherwise 200 with that user's JSON |
| FlaskServer.FlaskStore.UpdateProfile | api_server_fixed.py:227-254 | 401 without a token and 400 without `bio`, with no change; otherwise only the caller's bio changes and the reply is the updated row; posts and both counters never change |
| FlaskServer.FlaskStore.UpdateAvatar | api_server_fixed.py:256-289 | the checks go in order: 401, missing file, empty name, disallowed format; on failure nothing changes; otherwise only the caller's avatar becomes `<uuid>.<ext>`; posts and both counters never change |
| FlaskServer.FlaskStore.GetPosts | api_server_fixed.py:296-318 | 401 without a token; otherwise 200 with every joined post exactly once, newest first |
| FlaskServer.FlaskStore.GetUserPosts | api_server_fixed.py:320-341 | 401 without a token; otherwise 200 with exactly that user's posts, once each, newest first |
| FlaskServer.FlaskStore.GetPostById | api_server_fixed.py:343-368 | 401 without a token; 404 when no joined row has that id; otherwise 200 with its JSON |
| FlaskServer.FlaskStore.InsertPost | api_server_fixed.py:399-404 | the row takes the next AUTOINCREMENT id, a fresh one, and the post counter moves to it; users and the user counter do not change |
| FlaskServer.FlaskStore.CreatePost | api_server_fixed.py:371-423 | the checks go in order: 401, missing file, empty name or missing description, disallowed format; on failure posts and the post counter are unchanged; otherwise the post counter moves to the next id and exactly one new post owned by the caller is added under it, and the reply is 201 with its JSON; users and the user counter never change |
| FlaskServer.FlaskStore.DeletePost | api_server_fixed.py:425-453 | 401, then 404 for a missing post, then 403 for someone else's post, each with no change; the owner's delete removes exactly that post with a 204; users and both counters never change, so a deleted id is never issued again |
| FlaskServer.FlaskStore.UpdatePost | api_server_fixed.py:455-499 | 401, 404 and 403 as for delete, then 400 without a description, each with no change; otherwise only that post's description changes and the reply is its JSON; users and both counters never change |
| FastApiServer.ReadOfUser | backend/app/main.py:54-56 | `UserRead` keeps every user field except the password hash |
| FastApiServer.ReadOfPost | backend/app/main.py:95-99 | `PostRead` keeps every post field and adds the given author name and avatar |
| FastApiServer.FeedEntry | backend/app/main.py:136-142 | each feed entry carries its author's name and avatar, or `Unknown` and no avatar when the author row is gone |
| FastApiServer.StoredName | backend/app/main.py:60 | the stored name is the uuid, `_`, then the original name, and both parts can be read back from it |
| FastApiServer.UploadUrl | backend/app/main.py:112-121 | the media URL lies under `/uploads/`, and the uuid and the original name can be read back from it |
| FastApiServer.UploadUrlInjective | backend/app/main.py:112-121 | for uuids of equal length (as `uuid4()` prints), two uploads share a URL exactly when their uuids and names agree |
| FastApiServer.MediaType | backend/app/main.py:117 | `image` exactly when the content type contains `image`, otherwise `video` |
| FastApiServer.ListedInOrder | backend/app/main.py:131-143 | entries built one per id from ids ordered newest first list exactly those rows, once each, newest first |
| FastApiServer.FastApiStore.constructor | backend/app/main.py:19-21 | `create_db_and_tables` on a fresh database: both tables empty, invariant established |
| FastApiServer.FastApiStore.SelectNewestFirst | backend/app/main.py:90 | `order_by(created_at.desc())` returns every selected row exactly once, newest first |
| FastApiServer.FastApiStore.Register | backend/app/main.py:25-41 | a taken email is a 400, checked before a taken username (also a 400), with no change; otherwise a fresh id gets the row with the hashed password, and the token is minted from the email; usernames and emails stay unique |
| FastApiServer.FastApiStore.Login | backend/app/main.py:43-50 | 200 exactly when a user with that email passes the password check, with that user's id; otherwise a 400 |
| FastApiServer.FastApiStore.ReadUsersMe | backend/app/main.py:54-56 | the caller's `UserRead` |
| FastApiServer.FastApiStore.UpdateAvatar | backend/app/main.py:58-71 | only the caller's avatar changes, to `/uploads/<uuid>_<name>` |
| FastApiServer.FastApiStore.UpdateProfile | backend/app/main.py:73-79 | only the caller's bio changes |
| FastApiServer.FastApiStore.ReadUser | backend/app/main.py:81-86 | 404 for an unknown id, otherwise that user's `UserRead` |
| FastApiServer.FastApiStore.ReadUserPosts | backend/app/main.py:88-100 | that user's posts, each once, newest first, with the user's name and avatar; if the user row is gone but posts remain, the loop fails with a 500; with no posts the list is empty |
| FastApiServer.FastApiStore.CreatePost | backend/app/main.py:105-129 | a part without a content type fails with a 500 and no change; otherwise exactly one post owned by the caller is added under a fresh id, and the reply carries the caller's name and avatar |
| FastApiServer.FastApiStore.ReadPosts | backend/app/main.py:131-143 | every post exactly once, newest first, each joined to its author or to `Unknown` |
| FastApiServer.FastApiStore.DeletePost | backend/app/main.py:145-155 | 404 for a missing post, then 403 for someone else's, with no change; otherwise exactly that post is removed and the reply is `{"ok": true}` |
| FastApiServer.FastApiStore.UpdatePost | backend/app/main.py:157-169 | 404 and 403 as for delete; otherwise only that post's description changes, and the reply carries the caller's name and avatar |
| Repository.FixUrl | app/src/main/java/com/ejercicio/my_application_social/data/repository/Repository.kt:103 | an `http...` URL is kept; any other URL is appended to the base URL with one leading `/` dropped |
| Repository.FixUrlIsAbsolute | app/src/main/java/com/ejercicio/my_application_social/data/repository/Repository.kt:101-105 | with an `http...` base URL every rewritten URL is absolute |
| Repository.FixUrlIdempotent | app/src/main/java/com/ejercicio/my_application_social/data/repository/Repository.kt:101-105 | with an `http...` base URL, rewriting twice equals rewriting once |
| Repository.FixUrlNotIdempotentForRelativeBase | app/src/main/java/com/ejercicio/my_application_social/data/repository/Repository.kt:103 | without that base URL the rewrite is not idempotent: with an empty base `//a` becomes `/a`, then `a` |
| Repository.FixPostUrl | app/src/main/java/com/ejercicio/my_application_social/data/repository/Repository.kt:101-105 | only `media_url` changes, and it becomes the rewritten URL |
| Repository.FixUserUrl | app/src/main/java/com/ejercicio/my_application_social/data/repository/Repository.kt:107-112 | a user with a null or empty avatar is returned as is; otherwise only `avatar_url` changes, to the rewritten URL |
| Repository.FixPostUrlIdempotent | app/src/main/java/com/ejercicio/my_application_social/data/repository/Repository.kt:101-105 | fixing a post twice equals fixing it once |
| Repository.FixUserUrlIdempotent | app/src/main/java/com/ejercicio/my_application_social/data/repository/Repository.kt:107-112 | fixing a user twice equals fixing it once |
| Repository.FixPosts | app/src/main/java/com/ejercicio/my_application_social/data/repository/Repository.kt:52 | the list keeps its length, and each element is the fixed post at the same position |
| Repository.FixListResponse | app/src/main/java/com/ejercicio/my_application_social/data/repository/Repository.kt:48-65 | an unsuccessful response is passed through; a successful one becomes a 200 carrying the fixed list, or the empty list for a null body |
| Repository.FixedListIsAbsolute | app/src/main/java/com/ejercicio/my_application_social/data/repository/Repository.kt:48-65 | every post of a successful list the repository returns has an absolute media URL |
| Repository.FixListResponseIdempotent | app/src/main/java/com/ejercicio/my_application_social/data/repository/Repository.kt:48-65 | post-processing a list response twice equals doing it once |
| Repository.FixOneResponse | app/src/main/java/com/ejercicio/my_application_social/data/repository/Repository.kt:74-96 | a successful response with a body becomes a 200 carrying the fixed value; anything else is passed through |
| Repository.Bearer | app/src/main/java/com/ejercicio/my_application_social/data/repository/Repository.kt:49 | the header is `Bearer ` followed by exactly the token |
| Repository.Repository.constructor | app/src/main/java/com/ejercicio/my_application_social/data/repository/Repository.kt:20-30 | the repository starts over the stored preferences with nothing sent |
| Repository.Repository.Token | app/src/main/java/com/ejercicio/my_application_social/data/repository/Repository.kt:29 | the token flow holds a value exactly when `jwt_token` is stored, and then that value |
| Repository.Repository.CurrentUserId | app/src/main/java/com/ejercicio/my_application_social/data/repository/Repository.kt:30 | the user-id flow holds a value exactly when `user_id` is stored, and then that value |
| Repository.Repository.SaveSession | app/src/main/java/com/ejercicio/my_application_social/data/repository/Repository.kt:32-37 | sets the token and the decimal user id and leaves every other key alone; both flows then read the saved values |
| Repository.Repository.ClearSession | app/src/main/java/com/ejercicio/my_application_social/data/repository/Repository.kt:39-41 | the store is emptied, so both flows read null |
| Repository.Repository.Send | app/src/main/java/com/ejercicio/my_application_social/data/repository/Repository.kt:44-98 | appends one request to the log; every logged call other than login and registration carries a Bearer header |
| Repository.Repository.LoginUser | app/src/main/java/com/ejercicio/my_application_social/data/repository/Repository.kt:44 | sends the login request without a header and returns the response untouched |
| Repository.Repository.RegisterUser | app/src/main/java/com/ejercicio/my_application_social/data/repository/Repository.kt:45 | sends the registration request without a header and returns the response untouched |
| Repository.Repository.FetchPosts | app/src/main/java/com/ejercicio/my_application_social/data/repository/Repository.kt:48-56 | sends `GET /posts` with `Bearer <token>`, and the result is the fixed list response |
| Repository.Repository.FetchUserPosts | app/src/main/java/com/ejercicio/my_application_social/data/repository/Repository.kt:58-65 | sends the user-posts request with `Bearer <token>`, and the result is the fixed list response |
| Repository.Repository.SendPost | app/src/main/java/com/ejercicio/my_application_social/data/repository/Repository.kt:67-72 | sends the description and the file as a multipart upload typed with the image wildcard media type, and returns the response untouched |
| Repository.Repository.FetchPost | app/src/main/java/com/ejercicio/my_application_social/data/repository/Repository.kt:74-80 | sends the post request, and the result is the response with the post's URL fixed |
| Repository.Repository.EditPost | app/src/main/java/com/ejercicio/my_application_social/data/repository/Repository.kt:82-85 | sends the new description and returns the response untouched |
| Repository.Repository.RemovePost | app/src/main/java/com/ejercicio/my_application_social/data/repository/Repository.kt:87 | sends the delete and returns the response untouched |
| Repository.Repository.FetchMe | app/src/main/java/com/ejercicio/my_application_social/data/repository/Repository.kt:90-96 | sends `GET /users/me`, and the result is the response with the avatar URL fixed |
| Repository.Repository.FetchUser | app/src/main/java/com/ejercicio/my_application_social/data/repository/Repository.kt:98 | sends `GET /users/<id>` and returns the response without rewriting the avatar |
| Repository.SavedUserIdRoundTrip | app/src/main/java/com/ejercicio/my_application_social/data/repository/Repository.kt:35 | a user id saved with `toString()` is read back as that id by `toIntOrNull()` whenever it fits in an `Int` |
| Dao.UserDao.constructor | app/src/main/java/com/ejercicio/my_application_social/data/db/Dao.kt:9 | the users table starts empty |
| Dao.UserDao.GetUserByEmail | app/src/main/java/com/ejercicio/my_application_social/data/db/Dao.kt:10-11 | null exactly when no user has the email; otherwise a stored user with that email |
| Dao.UserDao.GetUserById | app/src/main/java/com/ejercicio/my_application_social/data/db/Dao.kt:13-14 | null exactly when the id is absent; otherwise that row |
| Dao.UserDao.InsertUser | app/src/main/java/com/ejercicio/my_application_social/data/db/Dao.kt:16-17 | ABORT on a taken id with the table unchanged; otherwise exactly that row is added and its id returned |
| Dao.PostDao.constructor | app/src/main/java/com/ejercicio/my_application_social/data/db/Dao.kt:21 | the posts table starts empty |
| Dao.PostDao.Select | app/src/main/java/com/ejercicio/my_application_social/data/db/Dao.kt:22-26 | the stored posts of exactly the selected rows, each once, newest first |
| Dao.PostDao.GetAllPosts | app/src/main/java/com/ejercicio/my_application_social/data/db/Dao.kt:22-23 | every stored post, once each, newest first |
| Dao.PostDao.GetPostsByUser | app/src/main/java/com/ejercicio/my_application_social/data/db/Dao.kt:25-26 | exactly that user's posts, once each, newest first |
| Dao.PostDao.GetPostById | app/src/main/java/com/ejercicio/my_application_social/data/db/Dao.kt:28-29 | null exactly when the id is absent; otherwise that row |
| Dao.PostDao.InsertPost | app/src/main/java/com/ejercicio/my_application_social/data/db/Dao.kt:31-32 | a taken id is refused with the table unchanged; otherwise exactly that row is added |
| Dao.PostDao.DeletePost | app/src/main/java/com/ejercicio/my_application_social/data/db/Dao.kt:34-35 | removes exactly the row with that id, if there is one |
| Dao.PostDao.UpdatePostDescription | app/src/main/java/com/ejercicio/my_application_social/data/db/Dao.kt:37-38 | only that row's description changes; an absent id changes nothing |
| AuthViewModel.Settle | app/src/main/java/com/ejercicio/my_application_social/ui/viewmodel/AuthViewModel.kt:34-37 | `Success` exactly on success; on failure, `Error` with the exception's message or else the fallback |
| AuthViewModel.LoginFormError | app/src/main/java/com/ejercicio/my_application_social/ui/viewmodel/AuthViewModel.kt:26-29 | the form is refused, with the all-fields message, exactly when the email or the password is blank |
| AuthViewModel.RegisterFormError | app/src/main/java/com/ejercicio/my_application_social/ui/viewmodel/AuthViewModel.kt:42-50 | a blank field gives the all-fields message; otherwise a rejected email gives the invalid-email message; it accepts exactly when neither applies |
| AuthViewModel.ValidLoginSendsNonEmptyEmail | app/src/main/java/com/ejercicio/my_application_social/ui/viewmodel/AuthViewModel.kt:25-33 | a login form that passes validation sends a non-empty trimmed email and a non-empty password |
| AuthViewModel.AuthViewModel.constructor | app/src/main/java/com/ejercicio/my_application_social/ui/viewmodel/AuthViewModel.kt:19-21 | starts `Idle` with nothing written or called |
| AuthViewModel.AuthViewModel.Login | app/src/main/java/com/ejercicio/my_application_social/ui/viewmodel/AuthViewModel.kt:25-39 | a refused form writes only the error and calls nothing; otherwise it writes `Loading`, sends the trimmed email with the password as typed, and settles on the result |
| AuthViewModel.AuthViewModel.Register | app/src/main/java/com/ejercicio/my_application_social/ui/viewmodel/AuthViewModel.kt:41-60 | a refused form writes only its error and calls nothing; otherwise it writes `Loading`, sends name, username and email trimmed with the password as typed, and settles on the result |
| AuthViewModel.AuthViewModel.Logout | app/src/main/java/com/ejercicio/my_application_social/ui/viewmodel/AuthViewModel.kt:62-67 | clears the session, then writes `Idle` |
| AuthViewModel.AuthViewModel.ResetState | app/src/main/java/com/ejercicio/my_application_social/ui/viewmodel/AuthViewModel.kt:69 | writes `Idle` and calls nothing |
| PostViewModel.Failure | app/src/main/java/com/ejercicio/my_application_social/ui/viewmodel/PostViewModel.kt:45-46 | `Error` with the exception's message, or the fallback when it has none |
| PostViewModel.WithDescription | app/src/main/java/com/ejercicio/my_application_social/ui/viewmodel/PostViewModel.kt:112 | a null post stays null; otherwise only the description changes, to the new one |
| PostViewModel.Persisted | app/src/main/java/com/ejercicio/my_application_social/ui/screens/FeedScreen.kt:129 | `filter { it.id > 0 }` keeps exactly the posts with a positive id |
| PostViewModel.PersistedKeepsPersistedList | app/src/main/java/com/ejercicio/my_application_social/ui/screens/FeedScreen.kt:129 | a list whose ids are all positive passes the filter whole (by induction) |
| PostViewModel.FeedPage | app/src/main/java/com/ejercicio/my_application_social/ui/screens/FeedScreen.kt:129 | `take(20)` of the filtered list: at most twenty posts, all persisted and from the feed, the first ones in order |
| PostViewModel.PostViewModel.constructor | app/src/main/java/com/ejercicio/my_application_social/ui/viewmodel/PostViewModel.kt:23-36 | empty lists, null user and post, `Idle`, nothing written or called |
| PostViewModel.PostViewModel.GetFeed | app/src/main/java/com/ejercicio/my_application_social/ui/viewmodel/PostViewModel.kt:38-49 | writes `Loading` and fetches; success replaces the feed and writes `Success`; failure keeps the feed and writes the error |
| PostViewModel.PostViewModel.GetMyPosts | app/src/main/java/com/ejercicio/my_application_social/ui/viewmodel/PostViewModel.kt:51-65 | a missing or non-numeric token ends the call with the state left at `Loading`; otherwise it fetches that user's posts and settles as `getFeed` does |
| PostViewModel.PostViewModel.GetProfile | app/src/main/java/com/ejercicio/my_application_social/ui/viewmodel/PostViewModel.kt:67-77 | writes `Loading`; success sets the current user, failure keeps it and writes the error |
| PostViewModel.PostViewModel.GetPostById | app/src/main/java/com/ejercicio/my_application_social/ui/viewmodel/PostViewModel.kt:79-88 | never writes `Loading`; success sets only the current post, failure writes only the error |
| PostViewModel.PostViewModel.CreatePost | app/src/main/java/com/ejercicio/my_application_social/ui/viewmodel/PostViewModel.kt:90-104 | writes `Loading`; a returned post gives `Success`; a null post gives the empty-post error; a throw gives its error |
| PostViewModel.PostViewModel.UpdatePost | app/src/main/java/com/ejercicio/my_application_social/ui/viewmodel/PostViewModel.kt:106-119 | a failed update keeps everything and writes the error; otherwise only the current post's description changes, `Success` is written, and the feed is reloaded |
| PostViewModel.PostViewModel.DeletePost | app/src/main/java/com/ejercicio/my_application_social/ui/viewmodel/PostViewModel.kt:121-131 | a failed delete writes only the error; otherwise it reloads the caller's posts as `getMyPosts` does (nothing for a missing or non-numeric token), then the feed, with every call and every written state listed, and the feed's result decides the final state |
| PostViewModel.PostViewModel.ResetState | app/src/main/java/com/ejercicio/my_application_social/ui/viewmodel/PostViewModel.kt:133-136 | writes `Idle` and keeps the lists and the current post |
| PostViewModel.DottedTokenNamesNoUser | app/src/main/java/com/ejercicio/my_application_social/ui/viewmodel/PostViewModel.kt:55-56 | a token containing `.`, as every JSON Web Token does, is not a number, so `getMyPosts` loads nothing |

## Left out

- Files, sockets and SQLite connections are not modelled. The Flask
  `uploaded_file` route only serves a stored file, so it is left out with
  them.
- The `except Exception` branches that answer 500 (Flask) are not modelled.
  They fire only on I/O or database failures, which the model does not have.
- `get_current_user` and the password and JWT helpers (`app.auth`) are not
  part of this model. The FastAPI handlers take the authenticated caller as
  an existing user id. Hashing, hash checking and token minting are
  function parameters.
- Timestamps are integers. The Flask server stores `created_at` as
  fixed-width `%Y-%m-%d %H:%M:%S` text, which sorts like the instant it
  names. The FastAPI server uses a `datetime`. The Kotlin `Post.created_at`
  is a `String`.
- The upload's UUID, the clock, the request's host and the Android email
  pattern are parameters.
- Text.Lower: only ASCII letters are lower-cased, where Python's
  `str.lower` covers all of Unicode. This gives the same `allowed_file`
  answer, because no non-ASCII character lower-cases to a letter of png,
  jpg, jpeg, gif or mp4.
- Text.ParseInt: Python's `int()` also accepts surrounding whitespace,
  `_` between digits and non-ASCII digits. Those forms are treated as
  unparsable, so the model rejects some exotic headers the Flask server
  accepts.
- Text.ToIntOrNull: the same restriction applies. The Kotlin parser also
  accepts some non-ASCII digits; the model does not.
- FlaskServer.FlaskStore.Register: the AUTOINCREMENT counter's overflow
  case (`SQLITE_FULL` at the largest rowid) is not modelled.
- FastApiServer.FastApiStore.Register: the rowid is modelled as max + 1.
  SQLite's random fallback after the largest rowid is not modelled.
- SQL leaves rows with equal `created_at` in an unspecified order. The
  model proves only what every such order shares.
- Every method of the view models calls the repository from a coroutine.
  The model runs each launched coroutine to completion.
  - A coroutine launched from inside another (`getFeed` in `updatePost`;
    `getMyPosts` and `getFeed` in `deletePost`) runs after the launching
    one finishes.
  - With an immediate dispatcher the nested coroutine may instead run up to
    its first suspension first. The order of the `written` entries would
    then differ.
- `written` records every write to a state flow. A `StateFlow` collector
  may see fewer values, since it conflates them.
- The view models call repository members that `Repository.kt` does not
  declare with those signatures:
  - `getAllPosts`, `getUserPosts` with one argument, `getMe()`,
    `currentAuthToken`, `updatePostDescription`, a nullable `createPost`;
  - `getPostById(postId)` and `deletePost(id)` with one argument
    (`PostViewModel.kt:83` and `:124`), where `Repository.kt:74` and `:87`
    also take a token;
  - `login` and `register`, whose result `AuthViewModel.kt:32-33` and `:54`
    `.fold` as a Kotlin `Result`, where `Repository.kt:44-45` return the
    Retrofit `Response`.

  The repository's own `getUserPosts` calls `api.getUserPosts`, while
  `ApiService.kt` declares `getPostsByUser`. The view models are therefore
  modelled against what each call returns or throws, passed as a
  parameter.
- `AuthViewModel.isLoggedIn` only exposes the repository's token flow. It
  is left out.
- The Room entity annotations are not shown. `insertPost` is modelled as
  an insert with the post's own id that aborts on a taken id.
- `Dao.UserDao.InsertUser` returns no id on a conflict, where Room throws.
- Foreign keys are not enforced by SQLite without `PRAGMA foreign_keys`.
  No route deletes a user, so the Flask invariant that every post's author
  exists holds anyway. The FastAPI model does not assume it: its `Unknown`
  and 500 paths are modelled.

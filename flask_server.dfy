/** The Flask server (`api_server_fixed.py`): a `users` and a `posts` table
    behind token-authenticated JSON routes. Each route is a method of
    `FlaskStore` that takes the already-parsed request and returns the
    status code with the JSON body. Password hashing, the upload's UUID,
    the clock and the request's host are parameters. */
module FlaskServer {
  import opened Text
  import Sql

  const AllowedExtensions: set<string> := {"png", "jpg", "jpeg", "gif", "mp4"}
  const ImageExtensions: set<string> := {"png", "jpg", "jpeg", "gif"}
  const DefaultBio: string := "¡Hola! Soy nuevo aquí."
  const UploadsPath: string := "/uploads/"

  const MissingFields: string := "Faltan campos requeridos"
  const LoginTaken: string := "El email o nombre de usuario ya existe"
  const BadCredentials: string := "Credenciales inválidas"
  const Unauthorized: string := "No autorizado"
  const UserNotFound: string := "Usuario no encontrado"
  const MissingBio: string := "Falta el campo 'bio'"
  const MissingFile: string := "No se encontró el archivo 'file'"
  const EmptyFilename: string := "Nombre de archivo vacío"
  const BadFormat: string := "Formato de archivo no permitido"
  const MissingPostData: string := "Faltan datos o archivo"
  const PostNotFound: string := "Post no encontrado"
  const CannotDelete: string := "No tienes permiso para eliminar este post"
  const CannotEdit: string := "No tienes permiso para editar este post"
  const MissingDescription: string := "Falta el campo 'description'"

  /** A row of `users`; `bio` and `avatarUrl` are nullable columns. */
  datatype UserRow = UserRow(id: int, name: string, username: string, email: string,
                             passwordHash: string, bio: Option<string>, avatarUrl: Option<string>)

  /** A row of `posts`; `mediaUrl` holds the stored file name. */
  datatype PostRow = PostRow(id: int, userId: int, description: string, mediaUrl: string,
                             mediaType: string, createdAt: int)

  datatype UserJson = UserJson(id: int, name: string, username: string, email: string,
                               bio: Option<string>, avatarUrl: Option<string>)

  datatype PostJson = PostJson(id: int, userId: int, description: string, username: string,
                               userAvatar: Option<string>, mediaUrl: string, mediaType: string,
                               createdAt: int)

  datatype Body =
    | Message(text: string)
    | Session(token: string, userId: int)
    | UserBody(user: UserJson)
    | PostBody(post: PostJson)
    | PostList(posts: seq<PostJson>)
    | NoContent

  datatype Reply = Reply(status: int, body: Body)

  /** The part of a multipart upload the routes look at. */
  datatype Upload = Upload(filename: string)

  /** Python truthiness of an optional string: present and non-empty. */
  predicate Truthy(s: Option<string>) {
    s.Some? && s.value != ""
  }

  /** `register`'s `if not all([...])` passes: every field is truthy. */
  predicate SignUpComplete(name: Option<string>, username: Option<string>, email: Option<string>,
                           password: Option<string>) {
    Truthy(name) && Truthy(username) && Truthy(email) && Truthy(password)
  }

  /** `login`'s `if not all([...])` passes. */
  predicate SignInComplete(email: Option<string>, password: Option<string>) {
    Truthy(email) && Truthy(password)
  }

  /** The upload passed every check of the route: a file with a non-empty,
      allowed name. */
  predicate Acceptable(file: Option<Upload>) {
    file.Some? && file.value.filename != "" && AllowedFile(file.value.filename)
  }

  // ------------------------------------------------------------ files

  /** `allowed_file`: the file name has a `.` and the lower-cased text after
      the last one is an allowed extension. */
  predicate AllowedFile(filename: string): (b: bool)
    ensures b ==> '.' in filename
  {
    match AfterLast(filename, '.')
    case None => false
    case Some(ext) => Lower(ext) in AllowedExtensions
  }

  /** `allowed_file` as a statement about positions: some `.` has no `.`
      after it and the text after it, lower-cased, is allowed. */
  lemma AllowedFileIff(filename: string)
    ensures AllowedFile(filename) <==>
      exists i :: 0 <= i < |filename| && filename[i] == '.' && '.' !in filename[i + 1..]
        && Lower(filename[i + 1..]) in AllowedExtensions
  {
    var r := AfterLast(filename, '.');
    if exists i :: 0 <= i < |filename| && filename[i] == '.' && '.' !in filename[i + 1..]
        && Lower(filename[i + 1..]) in AllowedExtensions {
      var i :| 0 <= i < |filename| && filename[i] == '.' && '.' !in filename[i + 1..]
        && Lower(filename[i + 1..]) in AllowedExtensions;
      var k :| 0 <= k < |filename| && filename[k] == '.' && r.value == filename[k + 1..];
      assert k == i;
    }
  }

  /** The lower-cased extension `save_file` keeps. */
  function Extension(filename: string): (r: string)
    requires '.' in filename
    ensures '.' !in r && Lower(r) == r
  {
    var ext := AfterLast(filename, '.').value;
    LowerIdempotent(ext);
    Lower(ext)
  }

  /** `save_file`: the name a stored upload gets, `<uuid>.<extension>`. */
  function StoredName(uuid: string, filename: string): (r: string)
    requires '.' in filename
    ensures |r| > |uuid| && r[..|uuid|] == uuid && r[|uuid|] == '.'
    ensures '.' !in r[|uuid| + 1..] && Lower(r[|uuid| + 1..]) == r[|uuid| + 1..]
  {
    var r := uuid + "." + Extension(filename);
    assert r[|uuid| + 1..] == Extension(filename);
    r
  }

  /** The text after the last `.` of `<prefix>.<ext>` is `ext` when `ext`
      holds no `.`, whatever the prefix holds. */
  lemma AfterLastOfJoin(prefix: string, ext: string)
    requires '.' !in ext
    ensures AfterLast(prefix + "." + ext, '.') == Some(ext)
  {
    var s := prefix + "." + ext;
    assert s[|prefix|] == '.';
    assert forall j :: |prefix| < j < |s| ==> s[j] == ext[j - |prefix| - 1];
    assert LastIndex(s, '.') == Some(|prefix|);
    assert s[|prefix| + 1..] == ext;
  }

  /** The stored name keeps the lower-cased extension of the uploaded name. */
  lemma StoredNameKeepsExtension(uuid: string, filename: string)
    requires '.' in filename
    ensures '.' in StoredName(uuid, filename)
    ensures Extension(StoredName(uuid, filename)) == Extension(filename)
  {
    var ext := Extension(filename);
    assert '.' !in AfterLast(filename, '.').value;
    assert '.' !in ext;
    AfterLastOfJoin(uuid, ext);
    assert StoredName(uuid, filename)[|uuid|] == '.';
    LowerIdempotent(AfterLast(filename, '.').value);
  }

  /** `create_post`'s media type: `image` for the picture extensions,
      `video` for anything else. */
  function MediaType(ext: string): (r: string)
    ensures r == "image" || r == "video"
  {
    if ext in ImageExtensions then "image" else "video"
  }

  /** Of the allowed files, exactly the `mp4` ones are stored as videos. */
  lemma VideoIffMp4(filename: string)
    requires AllowedFile(filename)
    ensures '.' in filename
    ensures MediaType(Extension(filename)) == "video" <==> Extension(filename) == "mp4"
  {
  }

  /** The row `create_post` inserts: the upload is stored under a fresh
      name, and the media type is read back off the stored name's extension. */
  function NewPost(id: int, userId: int, description: string, filename: string,
                   uuid: string, now: int): (p: PostRow)
    requires '.' in filename
    ensures p.id == id && p.userId == userId && p.description == description && p.createdAt == now
    ensures p.mediaUrl == uuid + "." + Extension(filename)
    ensures p.mediaType == MediaType(Extension(filename))
  {
    var stored := StoredName(uuid, filename);
    StoredNameKeepsExtension(uuid, filename);
    PostRow(id, userId, description, stored, MediaType(Extension(stored)), now)
  }

  // ------------------------------------------------------------ tokens

  /** The user id a `Bearer <id>` header names: the header must start with
      `Bearer ` and its second space-separated field must parse as an int. */
  function BearerId(header: Option<string>): (r: Option<int>)
    ensures r.Some? ==> header.Some? && StartsWith(header.value, "Bearer ")
    ensures r.Some? ==> ParseInt(UpTo(header.value[7..], ' ')) == r
  {
    if header.None? || !StartsWith(header.value, "Bearer ") then None
    else ParseInt(UpTo(header.value[7..], ' '))
  }

  /** `get_user_from_token`: the user the header names, if that user exists. */
  function UserFromToken(header: Option<string>, users: map<int, UserRow>): (r: Option<UserRow>)
    ensures r.Some? <==> BearerId(header).Some? && BearerId(header).value in users
    ensures r.Some? ==> r.value == users[BearerId(header).value]
  {
    match BearerId(header)
    case None => None
    case Some(id) => if id in users then Some(users[id]) else None
  }

  /** The token `register` and `login` hand out, sent back as
      `Bearer <token>`, authenticates as the user it was issued for. */
  lemma IssuedTokenAuthenticates(id: int, users: map<int, UserRow>)
    requires id in users
    ensures UserFromToken(Some("Bearer " + DecimalOf(id)), users) == Some(users[id])
  {
    var h := "Bearer " + DecimalOf(id);
    assert h[..7] == "Bearer ";
    assert h[7..] == DecimalOf(id);
    var t := DecimalOf(id);
    assert ' ' !in t;
    var u := UpTo(t, ' ');
    assert |u| == |t|;
    assert u == t;
    DecimalRoundTrip(id);
  }

  // ------------------------------------------------------------ JSON

  /** `user_row_to_json`: the avatar becomes `/uploads/<file>`, or null when
      the column is null or empty. */
  function UserRowToJson(u: UserRow): (r: UserJson)
    ensures r.id == u.id && r.name == u.name && r.username == u.username
    ensures r.email == u.email && r.bio == u.bio
    ensures r.avatarUrl.None? <==> !Truthy(u.avatarUrl)
    ensures r.avatarUrl.Some? ==> r.avatarUrl.value == UploadsPath + u.avatarUrl.value
  {
    UserJson(u.id, u.name, u.username, u.email, u.bio,
             if Truthy(u.avatarUrl) then Some(UploadsPath + u.avatarUrl.value) else None)
  }

  /** `post_row_to_json`: a joined post row with absolute URLs built from the
      request's host. */
  function PostRowToJson(p: PostRow, author: UserRow, host: string): (r: PostJson)
    ensures r.id == p.id && r.userId == p.userId && r.description == p.description
    ensures r.username == author.username && r.mediaType == p.mediaType && r.createdAt == p.createdAt
    ensures r.mediaUrl == "http://" + host + "/uploads/" + p.mediaUrl
    ensures r.userAvatar.None? <==> !Truthy(author.avatarUrl)
    ensures r.userAvatar.Some? ==> r.userAvatar.value == "http://" + host + "/uploads/" + author.avatarUrl.value
  {
    var base := "http://" + host;
    PostJson(p.id, p.userId, p.description, author.username,
             if Truthy(author.avatarUrl) then Some(base + "/uploads/" + author.avatarUrl.value) else None,
             base + "/uploads/" + p.mediaUrl, p.mediaType, p.createdAt)
  }

  // ------------------------------------------------------------ store

  /** For an authenticated caller and an existing post, whether the caller
      owns it; `None` when either check fails first. */
  function OwnedBy(posts: map<int, PostRow>, postId: int, users: map<int, UserRow>,
                   header: Option<string>): (r: Option<bool>)
    ensures r.Some? <==> UserFromToken(header, users).Some? && postId in posts
    ensures r == Some(true) ==> posts[postId].userId == BearerId(header).value
    ensures r == Some(false) ==> posts[postId].userId != BearerId(header).value
  {
    if UserFromToken(header, users).Some? && postId in posts then
      Some(posts[postId].userId == BearerId(header).value)
    else None
  }

  /** No two users share a username or an email (the UNIQUE columns). */
  ghost predicate UniqueLogins(users: map<int, UserRow>) {
    forall a, b :: a in users && b in users && a != b ==>
      users[a].username != users[b].username && users[a].email != users[b].email
  }

  /** Some user already has this username or this email. */
  predicate LoginTakenIn(users: map<int, UserRow>, username: string, email: string) {
    exists id :: id in users && (users[id].username == username || users[id].email == email)
  }

  class FlaskStore {
    var users: map<int, UserRow>
    var posts: map<int, PostRow>
    /** The largest id ever given to a user / a post (`sqlite_sequence`):
        both tables are AUTOINCREMENT, so ids are never reused. */
    var userSeq: int
    var postSeq: int

    ghost predicate Valid()
      reads this
    {
      && 0 <= userSeq && 0 <= postSeq
      && (forall id :: id in users ==> users[id].id == id && 0 < id <= userSeq)
      && (forall id :: id in posts ==> posts[id].id == id && 0 < id <= postSeq)
      && (forall id :: id in posts ==> posts[id].userId in users)
      && UniqueLogins(users)
    }

    /** `init_db` on a fresh database: both tables and both counters
        empty, so the first user and the first post get id 1. */
    constructor ()
      ensures Valid() && users == map[] && posts == map[]
      ensures userSeq == 0 && postSeq == 0
    {
      users := map[];
      posts := map[];
      userSeq := 0;
      postSeq := 0;
    }

    /** The post joins to an existing author, as the routes' inner JOIN needs. */
    predicate Joined(id: int)
      reads this
    {
      id in posts && posts[id].userId in users
    }

    /** The JSON of a joined post. */
    function JsonOf(id: int, host: string): PostJson
      reads this
      requires Joined(id)
    {
      PostRowToJson(posts[id], users[posts[id].userId], host)
    }

    /** The rows `GET /posts` selects: every post whose author exists. */
    function FeedRows(): set<int>
      reads this
    {
      set id | id in posts && posts[id].userId in users
    }

    /** No route deletes a user and every post is created by an existing
        one, so the feed's JOIN drops no post. */
    lemma FeedHasEveryPost()
      requires Valid()
      ensures FeedRows() == posts.Keys
    {
      forall id | id in posts.Keys ensures id in FeedRows() {
        assert posts[id].userId in users;
      }
    }

    /** The rows `GET /users/<id>/posts` selects: that user's posts, joined. */
    function UserRows(userId: int): set<int>
      reads this
    {
      set id | id in posts && posts[id].userId == userId && userId in users
    }

    /** `out` lists exactly the rows `rows` as JSON, each once, newest first. */
    ghost predicate IsListing(out: seq<PostJson>, rows: set<int>, host: string)
      reads this
      requires forall id :: id in rows ==> Joined(id)
    {
      && |out| == |rows|
      && (forall i :: 0 <= i < |out| ==> out[i].id in rows && out[i] == JsonOf(out[i].id, host))
      && (forall id :: id in rows ==> exists i :: 0 <= i < |out| && out[i].id == id)
      && (forall i, j :: 0 <= i < j < |out| ==> out[i].id != out[j].id)
      && (forall i, j :: 0 <= i < j < |out| ==> out[i].createdAt >= out[j].createdAt)
    }

    /** The JSON of rows ordered newest first, one entry per id, is a
        listing of those rows. */
    lemma ListedInOrder(out: seq<PostJson>, ids: seq<int>, rows: set<int>, host: string)
      requires Valid()
      requires forall id :: id in rows ==> Joined(id)
      requires |out| == |ids| == |rows|
      requires forall i :: 0 <= i < |ids| ==> ids[i] in rows && Joined(ids[i])
      requires forall id :: id in rows ==> id in ids
      requires Sql.Distinct(ids)
      requires forall i, j :: 0 <= i < j < |ids| && ids[i] in posts && ids[j] in posts ==> posts[ids[i]].createdAt >= posts[ids[j]].createdAt
      requires forall k :: 0 <= k < |out| ==> out[k] == JsonOf(ids[k], host)
      ensures IsListing(out, rows, host)
    {
      forall id | id in rows ensures exists i :: 0 <= i < |out| && out[i].id == id {
        var i :| 0 <= i < |ids| && ids[i] == id;
        assert out[i].id == id;
      }
    }

    /** Runs the joined SELECT over `rows` with `ORDER BY created_at DESC`. */
    method SelectNewestFirst(rows: set<int>, host: string) returns (out: seq<PostJson>)
      requires Valid()
      requires forall id :: id in rows ==> Joined(id)
      ensures IsListing(out, rows, host)
    {
      var table := posts;
      var ids := Sql.OrderNewestFirst(rows, id => if id in table then table[id].createdAt else 0);
      out := [];
      var i := 0;
      while i < |ids|
        invariant 0 <= i <= |ids| && |out| == i
        invariant forall k :: 0 <= k < i ==> ids[k] in rows && out[k] == JsonOf(ids[k], host)
      {
        assert ids[i] in ids;
        out := out + [JsonOf(ids[i], host)];
        i := i + 1;
      }
      ListedInOrder(out, ids, rows, host);
    }

    /** `POST /auth/register`. */
    method Register(name: Option<string>, username: Option<string>, email: Option<string>,
                    password: Option<string>, hash: string -> string) returns (reply: Reply)
      requires Valid()
      modifies this
      ensures Valid() && posts == old(posts) && postSeq == old(postSeq)
      ensures !SignUpComplete(name, username, email, password) ==>
        reply == Reply(400, Message(MissingFields)) && users == old(users) && userSeq == old(userSeq)
      ensures SignUpComplete(name, username, email, password) && LoginTakenIn(old(users), username.value, email.value) ==>
        reply == Reply(409, Message(LoginTaken)) && users == old(users) && userSeq == old(userSeq)
      ensures SignUpComplete(name, username, email, password) && !LoginTakenIn(old(users), username.value, email.value) ==>
        var id := old(userSeq) + 1;
        && id !in old(users)
        && userSeq == id
        && users == old(users)[id := UserRow(id, name.value, username.value, email.value,
                                             hash(password.value), Some(DefaultBio), None)]
        && reply == Reply(201, Session(DecimalOf(id), id))
    {
      if !SignUpComplete(name, username, email, password) {
        return Reply(400, Message(MissingFields));
      }
      if LoginTakenIn(users, username.value, email.value) {
        return Reply(409, Message(LoginTaken));
      }
      var id := userSeq + 1;
      var row := UserRow(id, name.value, username.value, email.value, hash(password.value), Some(DefaultBio), None);
      assert forall a :: a in users ==> users[a].username != row.username && users[a].email != row.email;
      var before := users;
      users := users[id := row];
      userSeq := id;
      forall a, b | a in users && b in users && a != b
        ensures users[a].username != users[b].username && users[a].email != users[b].email
      {
        if a != id && b != id {
          assert users[a] == before[a] && users[b] == before[b];
        }
      }
      reply := Reply(201, Session(DecimalOf(id), id));
    }

    /** `POST /auth/login`: 200 with the id as token exactly when a user has
        that email and the password checks against its hash. */
    method Login(email: Option<string>, password: Option<string>,
                 checkHash: (string, string) -> bool) returns (reply: Reply)
      requires Valid()
      ensures !SignInComplete(email, password) ==> reply == Reply(400, Message(MissingFields))
      ensures SignInComplete(email, password) ==>
        (reply.status == 200 <==> exists id :: id in users && users[id].email == email.value
                                             && checkHash(users[id].passwordHash, password.value))
      ensures reply.status == 200 ==>
        && SignInComplete(email, password)
        && reply.body.Session?
        && reply.body.userId in users
        && users[reply.body.userId].email == email.value
        && reply.body.token == DecimalOf(reply.body.userId)
      ensures reply.status != 200 && SignInComplete(email, password) ==>
        reply == Reply(401, Message(BadCredentials))
    {
      if !SignInComplete(email, password) {
        return Reply(400, Message(MissingFields));
      }
      assert Truthy([email, password][0]) && Truthy([email, password][1]);
      if exists id :: id in users && users[id].email == email.value {
        var id :| id in users && users[id].email == email.value;
        if checkHash(users[id].passwordHash, password.value) {
          return Reply(200, Session(DecimalOf(id), id));
        }
      }
      return Reply(401, Message(BadCredentials));
    }

    /** `GET /users/me`. */
    method GetMe(header: Option<string>) returns (reply: Reply)
      requires Valid()
      ensures UserFromToken(header, users).None? ==> reply == Reply(401, Message(Unauthorized))
      ensures UserFromToken(header, users).Some? ==>
        reply == Reply(200, UserBody(UserRowToJson(users[BearerId(header).value])))
    {
      var me := UserFromToken(header, users);
      if me.None? {
        return Reply(401, Message(Unauthorized));
      }
      return Reply(200, UserBody(UserRowToJson(me.value)));
    }

    /** `GET /users/<id>`. */
    method GetUser(header: Option<string>, userId: int) returns (reply: Reply)
      requires Valid()
      ensures UserFromToken(header, users).None? ==> reply == Reply(401, Message(Unauthorized))
      ensures UserFromToken(header, users).Some? && userId !in users ==>
        reply == Reply(404, Message(UserNotFound))
      ensures UserFromToken(header, users).Some? && userId in users ==>
        reply == Reply(200, UserBody(UserRowToJson(users[userId])))
    {
      if UserFromToken(header, users).None? {
        return Reply(401, Message(Unauthorized));
      }
      if userId in users {
        return Reply(200, UserBody(UserRowToJson(users[userId])));
      }
      return Reply(404, Message(UserNotFound));
    }

    /** `PUT /users/me`: only the caller's `bio` changes. */
    method UpdateProfile(header: Option<string>, bio: Option<string>) returns (reply: Reply)
      requires Valid()
      modifies this
      ensures Valid() && posts == old(posts) && userSeq == old(userSeq) && postSeq == old(postSeq)
      ensures UserFromToken(header, old(users)).None? ==>
        reply == Reply(401, Message(Unauthorized)) && users == old(users)
      ensures UserFromToken(header, old(users)).Some? && bio.None? ==>
        reply == Reply(400, Message(MissingBio)) && users == old(users)
      ensures UserFromToken(header, old(users)).Some? && bio.Some? ==>
        var id := BearerId(header).value;
        && users == old(users)[id := old(users)[id].(bio := bio)]
        && reply == Reply(200, UserBody(UserRowToJson(users[id])))
    {
      var me := UserFromToken(header, users);
      if me.None? {
        return Reply(401, Message(Unauthorized));
      }
      if bio.None? {
        return Reply(400, Message(MissingBio));
      }
      var id := me.value.id;
      users := users[id := users[id].(bio := bio)];
      reply := Reply(200, UserBody(UserRowToJson(users[id])));
    }

    /** `PUT /users/me/avatar`: stores the upload as `<uuid>.<ext>` and points
        only the caller's `avatar_url` at it. */
    method UpdateAvatar(header: Option<string>, file: Option<Upload>, uuid: string) returns (reply: Reply)
      requires Valid()
      modifies this
      ensures Valid() && posts == old(posts) && userSeq == old(userSeq) && postSeq == old(postSeq)
      ensures reply.status != 200 ==> users == old(users)
      ensures UserFromToken(header, old(users)).None? ==> reply == Reply(401, Message(Unauthorized))
      ensures UserFromToken(header, old(users)).Some? && file.None? ==>
        reply == Reply(400, Message(MissingFile))
      ensures UserFromToken(header, old(users)).Some? && file.Some? && file.value.filename == "" ==>
        reply == Reply(400, Message(EmptyFilename))
      ensures UserFromToken(header, old(users)).Some? && file.Some? && file.value.filename != "" && !Acceptable(file) ==>
        reply == Reply(400, Message(BadFormat))
      ensures UserFromToken(header, old(users)).Some? && Acceptable(file) ==>
        var id := BearerId(header).value;
        && users == old(users)[id := old(users)[id].(avatarUrl := Some(StoredName(uuid, file.value.filename)))]
        && reply == Reply(200, UserBody(UserRowToJson(users[id])))
    {
      var me := UserFromToken(header, users);
      if me.None? {
        return Reply(401, Message(Unauthorized));
      }
      if file.None? {
        return Reply(400, Message(MissingFile));
      }
      if file.value.filename == "" {
        return Reply(400, Message(EmptyFilename));
      }
      if !AllowedFile(file.value.filename) {
        return Reply(400, Message(BadFormat));
      }
      var stored := StoredName(uuid, file.value.filename);
      var id := me.value.id;
      users := users[id := users[id].(avatarUrl := Some(stored))];
      reply := Reply(200, UserBody(UserRowToJson(users[id])));
    }

    /** `GET /posts`: every post with an existing author, newest first. */
    method GetPosts(header: Option<string>, host: string) returns (reply: Reply)
      requires Valid()
      ensures UserFromToken(header, users).None? ==> reply == Reply(401, Message(Unauthorized))
      ensures UserFromToken(header, users).Some? ==>
        reply.status == 200 && reply.body.PostList? && IsListing(reply.body.posts, FeedRows(), host)
    {
      if UserFromToken(header, users).None? {
        return Reply(401, Message(Unauthorized));
      }
      var out := SelectNewestFirst(FeedRows(), host);
      return Reply(200, PostList(out));
    }

    /** `GET /users/<id>/posts`: that user's posts, newest first. */
    method GetUserPosts(header: Option<string>, userId: int, host: string) returns (reply: Reply)
      requires Valid()
      ensures UserFromToken(header, users).None? ==> reply == Reply(401, Message(Unauthorized))
      ensures UserFromToken(header, users).Some? ==>
        reply.status == 200 && reply.body.PostList? && IsListing(reply.body.posts, UserRows(userId), host)
      ensures reply.status == 200 ==> forall i :: 0 <= i < |reply.body.posts| ==> reply.body.posts[i].userId == userId
    {
      if UserFromToken(header, users).None? {
        return Reply(401, Message(Unauthorized));
      }
      var out := SelectNewestFirst(UserRows(userId), host);
      return Reply(200, PostList(out));
    }

    /** `GET /posts/<id>`. */
    method GetPostById(header: Option<string>, postId: int, host: string) returns (reply: Reply)
      requires Valid()
      ensures UserFromToken(header, users).None? ==> reply == Reply(401, Message(Unauthorized))
      ensures UserFromToken(header, users).Some? && !Joined(postId) ==>
        reply == Reply(404, Message(PostNotFound))
      ensures UserFromToken(header, users).Some? && Joined(postId) ==>
        reply == Reply(200, PostBody(JsonOf(postId, host)))
    {
      if UserFromToken(header, users).None? {
        return Reply(401, Message(Unauthorized));
      }
      if postId in posts && posts[postId].userId in users {
        return Reply(200, PostBody(JsonOf(postId, host)));
      }
      return Reply(404, Message(PostNotFound));
    }

    /** `INSERT INTO posts`: the row takes the next AUTOINCREMENT id. */
    method InsertPost(row: PostRow)
      requires Valid() && row.id == postSeq + 1 && row.userId in users
      modifies this
      ensures Valid() && users == old(users) && userSeq == old(userSeq) && postSeq == row.id
      ensures row.id !in old(posts) && posts == old(posts)[row.id := row]
    {
      posts := posts[row.id := row];
      postSeq := row.id;
    }

    /** `POST /posts`: stores the upload and inserts a post owned by the caller. */
    method CreatePost(header: Option<string>, file: Option<Upload>, description: Option<string>,
                      uuid: string, now: int, host: string) returns (reply: Reply)
      requires Valid()
      modifies this
      ensures Valid() && users == old(users) && userSeq == old(userSeq)
      ensures reply.status != 201 ==> posts == old(posts) && postSeq == old(postSeq)
      ensures reply.status == 201 ==> postSeq == old(postSeq) + 1
      ensures UserFromToken(header, old(users)).None? ==> reply == Reply(401, Message(Unauthorized))
      ensures UserFromToken(header, old(users)).Some? && file.None? ==>
        reply == Reply(400, Message(MissingFile))
      ensures UserFromToken(header, old(users)).Some? && file.Some? && (file.value.filename == "" || description.None?) ==>
        reply == Reply(400, Message(MissingPostData))
      ensures (UserFromToken(header, old(users)).Some? && file.Some? && file.value.filename != "" && description.Some?
               && !Acceptable(file)) ==> reply == Reply(400, Message(BadFormat))
      ensures UserFromToken(header, old(users)).Some? && Acceptable(file) && description.Some? ==>
        var id := old(postSeq) + 1;
        && id !in old(posts)
        && posts == old(posts)[id := NewPost(id, BearerId(header).value, description.value, file.value.filename, uuid, now)]
        && reply == Reply(201, PostBody(JsonOf(id, host)))
    {
      var me := UserFromToken(header, users);
      if me.None? {
        return Reply(401, Message(Unauthorized));
      }
      if file.None? {
        return Reply(400, Message(MissingFile));
      }
      if file.value.filename == "" || description.None? {
        return Reply(400, Message(MissingPostData));
      }
      if !AllowedFile(file.value.filename) {
        return Reply(400, Message(BadFormat));
      }
      var id := postSeq + 1;
      InsertPost(NewPost(id, me.value.id, description.value, file.value.filename, uuid, now));
      reply := Reply(201, PostBody(JsonOf(id, host)));
    }

    /** `DELETE /posts/<id>`: 404 for a missing post, 403 for someone else's,
        otherwise that post alone is removed. */
    method DeletePost(header: Option<string>, postId: int) returns (reply: Reply)
      requires Valid()
      modifies this
      ensures Valid() && users == old(users) && userSeq == old(userSeq) && postSeq == old(postSeq)
      ensures UserFromToken(header, old(users)).None? ==>
        reply == Reply(401, Message(Unauthorized)) && posts == old(posts)
      ensures UserFromToken(header, old(users)).Some? && postId !in old(posts) ==>
        reply == Reply(404, Message(PostNotFound)) && posts == old(posts)
      ensures OwnedBy(old(posts), postId, old(users), header).Some? && !OwnedBy(old(posts), postId, old(users), header).value ==>
        reply == Reply(403, Message(CannotDelete)) && posts == old(posts)
      ensures OwnedBy(old(posts), postId, old(users), header) == Some(true) ==>
        reply == Reply(204, NoContent) && posts == old(posts) - {postId}
    {
      var me := UserFromToken(header, users);
      if me.None? {
        return Reply(401, Message(Unauthorized));
      }
      if postId !in posts {
        return Reply(404, Message(PostNotFound));
      }
      if posts[postId].userId != me.value.id {
        return Reply(403, Message(CannotDelete));
      }
      posts := posts - {postId};
      reply := Reply(204, NoContent);
    }

    /** `PUT /posts/<id>`: after the same 404 and 403 checks, a missing
        description is a 400; otherwise only that post's description changes. */
    method UpdatePost(header: Option<string>, postId: int, description: Option<string>, host: string)
      returns (reply: Reply)
      requires Valid()
      modifies this
      ensures Valid() && users == old(users) && userSeq == old(userSeq) && postSeq == old(postSeq)
      ensures reply.status != 200 ==> posts == old(posts)
      ensures UserFromToken(header, old(users)).None? ==> reply == Reply(401, Message(Unauthorized))
      ensures UserFromToken(header, old(users)).Some? && postId !in old(posts) ==>
        reply == Reply(404, Message(PostNotFound))
      ensures OwnedBy(old(posts), postId, old(users), header) == Some(false) ==>
        reply == Reply(403, Message(CannotEdit))
      ensures OwnedBy(old(posts), postId, old(users), header) == Some(true) && description.None? ==>
        reply == Reply(400, Message(MissingDescription))
      ensures OwnedBy(old(posts), postId, old(users), header) == Some(true) && description.Some? ==>
        && posts == old(posts)[postId := old(posts)[postId].(description := description.value)]
        && reply == Reply(200, PostBody(JsonOf(postId, host)))
    {
      var me := UserFromToken(header, users);
      if me.None? {
        return Reply(401, Message(Unauthorized));
      }
      if postId !in posts {
        return Reply(404, Message(PostNotFound));
      }
      if posts[postId].userId != me.value.id {
        return Reply(403, Message(CannotEdit));
      }
      if description.None? {
        return Reply(400, Message(MissingDescription));
      }
      posts := posts[postId := posts[postId].(description := description.value)];
      reply := Reply(200, PostBody(JsonOf(postId, host)));
    }
  }
}

/** The FastAPI server (`backend/app/main.py`): the same users and posts as
    SQLModel tables, with its own rules. The authenticated caller that
    `get_current_user` resolves is passed in as an existing user id;
    password hashing, token minting, the upload's UUID and the clock are
    parameters. */
module FastApiServer {
  import opened Text
  import Sql

  const EmailTaken: string := "Email already registered"
  const UsernameTaken: string := "Username already taken"
  const BadLogin: string := "Incorrect email or password"
  const UserNotFound: string := "User not found"
  const PostNotFound: string := "Post not found"
  const NotAuthorized: string := "Not authorized"
  const UnknownAuthor: string := "Unknown"
  const UploadsPath: string := "/uploads/"

  /** A `User` row. */
  datatype User = User(id: int, username: string, email: string, name: string,
                       bio: Option<string>, avatarUrl: Option<string>, hashedPassword: string)

  /** A `Post` row. */
  datatype Post = Post(id: int, userId: int, description: string, mediaUrl: string,
                       mediaType: string, createdAt: int)

  /** `UserRead`: a user without the password hash. */
  datatype UserRead = UserRead(id: int, username: string, email: string, name: string,
                               bio: Option<string>, avatarUrl: Option<string>)

  /** `PostRead`: a post with its author's username and avatar. */
  datatype PostRead = PostRead(id: int, userId: int, description: string, mediaUrl: string,
                               mediaType: string, createdAt: int, username: string,
                               userAvatar: Option<string>)

  datatype Token = Token(accessToken: string, tokenType: string, userId: int)

  /** `UserCreate`: the registration body. */
  datatype SignUp = SignUp(username: string, email: string, name: string, bio: Option<string>,
                           avatarUrl: Option<string>, password: string)

  datatype Body =
    | Detail(detail: string)
    | TokenBody(token: Token)
    | UserBody(user: UserRead)
    | PostBody(post: PostRead)
    | PostList(posts: seq<PostRead>)
    | Ok
    | ServerError

  datatype Reply = Reply(status: int, body: Body)

  /** The `UploadFile` fields the routes use; `contentType` is absent when
      the part carries no `Content-Type`. */
  datatype Upload = Upload(filename: string, contentType: Option<string>)

  function ReadOfUser(u: User): (r: UserRead)
    ensures r.id == u.id && r.username == u.username && r.email == u.email
    ensures r.name == u.name && r.bio == u.bio && r.avatarUrl == u.avatarUrl
  {
    UserRead(u.id, u.username, u.email, u.name, u.bio, u.avatarUrl)
  }

  /** `PostRead(**p.dict(), username=..., user_avatar=...)`. */
  function ReadOfPost(p: Post, username: string, avatar: Option<string>): (r: PostRead)
    ensures r.id == p.id && r.userId == p.userId && r.description == p.description
    ensures r.mediaUrl == p.mediaUrl && r.mediaType == p.mediaType && r.createdAt == p.createdAt
    ensures r.username == username && r.userAvatar == avatar
  {
    PostRead(p.id, p.userId, p.description, p.mediaUrl, p.mediaType, p.createdAt, username, avatar)
  }

  /** `read_posts`' manual join: the author's name and avatar, or `Unknown`
      and no avatar when the author row is gone. */
  function FeedEntry(p: Post, users: map<int, User>): (r: PostRead)
    ensures r.id == p.id && r.userId == p.userId && r.description == p.description
    ensures r.mediaUrl == p.mediaUrl && r.mediaType == p.mediaType && r.createdAt == p.createdAt
    ensures p.userId in users ==> r.username == users[p.userId].username && r.userAvatar == users[p.userId].avatarUrl
    ensures p.userId !in users ==> r.username == UnknownAuthor && r.userAvatar.None?
  {
    if p.userId in users then ReadOfPost(p, users[p.userId].username, users[p.userId].avatarUrl)
    else ReadOfPost(p, UnknownAuthor, None)
  }

  /** The name an upload is stored under: `<uuid>_<original name>`. Both
      parts can be read back from it. */
  function StoredName(uuid: string, filename: string): (r: string)
    ensures |r| == |uuid| + 1 + |filename|
    ensures r[..|uuid|] == uuid && r[|uuid|] == '_' && r[|uuid| + 1..] == filename
  {
    uuid + "_" + filename
  }

  /** The public URL of a stored upload. It lies under `/uploads/`, and
      the uuid and the original name can both be read back from it. */
  function UploadUrl(uuid: string, filename: string): (r: string)
    ensures StartsWith(r, UploadsPath)
    ensures |r| == |UploadsPath| + |uuid| + 1 + |filename|
    ensures r[|UploadsPath|..|UploadsPath| + |uuid|] == uuid
    ensures r[|UploadsPath| + |uuid|] == '_'
    ensures r[|UploadsPath| + |uuid| + 1..] == filename
  {
    StartsWithAppend(UploadsPath, StoredName(uuid, filename), UploadsPath);
    UploadsPath + StoredName(uuid, filename)
  }

  /** `uuid4()` always prints 36 characters, so two uploads with different
      uuids, or different names, never share a URL. */
  lemma UploadUrlInjective(u1: string, f1: string, u2: string, f2: string)
    requires |u1| == |u2|
    ensures UploadUrl(u1, f1) == UploadUrl(u2, f2) <==> u1 == u2 && f1 == f2
  {
    if UploadUrl(u1, f1) == UploadUrl(u2, f2) {
      var r := UploadUrl(u1, f1);
      assert u1 == r[|UploadsPath|..|UploadsPath| + |u1|] == u2;
      assert f1 == r[|UploadsPath| + |u1| + 1..] == f2;
    }
  }

  /** `create_post`'s media type: `image` when the content type mentions
      `image`, `video` otherwise. */
  function MediaType(contentType: string): (r: string)
    ensures r == "image" <==> exists i :: OccursAt(contentType, "image", i)
    ensures r == "image" || r == "video"
  {
    ContainsIffOccurs(contentType, "image");
    if Contains(contentType, "image") then "image" else "video"
  }

  /** `out` holds one entry per row of `rows`, each once, newest first. */
  ghost predicate NewestFirstOver(out: seq<PostRead>, rows: set<int>)
  {
    && |out| == |rows|
    && (forall i :: 0 <= i < |out| ==> out[i].id in rows)
    && (forall id :: id in rows ==> exists i :: 0 <= i < |out| && out[i].id == id)
    && (forall i, j :: 0 <= i < j < |out| ==> out[i].id != out[j].id)
    && (forall i, j :: 0 <= i < j < |out| ==> out[i].createdAt >= out[j].createdAt)
  }

  /** A listing built entry by entry from rows ordered newest first is
      itself newest first over those rows. */
  lemma ListedInOrder(out: seq<PostRead>, ids: seq<int>, rows: set<int>, posts: map<int, Post>)
    requires |out| == |ids| == |rows|
    requires forall i :: 0 <= i < |ids| ==> ids[i] in rows && ids[i] in posts
    requires forall id :: id in rows ==> id in ids
    requires Sql.Distinct(ids)
    requires forall i, j :: 0 <= i < j < |ids| ==> posts[ids[i]].createdAt >= posts[ids[j]].createdAt
    requires forall k :: 0 <= k < |out| ==> out[k].id == ids[k] && out[k].createdAt == posts[ids[k]].createdAt
    ensures NewestFirstOver(out, rows)
  {
    forall id | id in rows ensures exists k :: 0 <= k < |out| && out[k].id == id {
      var k :| 0 <= k < |ids| && ids[k] == id;
      assert out[k].id == id;
    }
  }

  /** Some user has this email. */
  predicate HasEmail(users: map<int, User>, email: string) {
    exists id :: id in users && users[id].email == email
  }

  /** Some user has this username. */
  predicate HasUsername(users: map<int, User>, username: string) {
    exists id :: id in users && users[id].username == username
  }

  class FastApiStore {
    var users: map<int, User>
    var posts: map<int, Post>

    ghost predicate Valid()
      reads this
    {
      && (forall id :: id in users ==> users[id].id == id && id > 0)
      && (forall id :: id in posts ==> posts[id].id == id && id > 0)
      && (forall a, b :: a in users && b in users && a != b ==>
            users[a].username != users[b].username && users[a].email != users[b].email)
    }

    /** `create_db_and_tables` on a fresh database. */
    constructor ()
      ensures Valid() && users == map[] && posts == map[]
    {
      users := map[];
      posts := map[];
    }

    /** The posts `read_user_posts` selects. */
    function RowsOf(userId: int): set<int>
      reads this
    {
      set id | id in posts && posts[id].userId == userId
    }

    /** Runs `select(Post)...order_by(Post.created_at.desc())` over `rows`. */
    method SelectNewestFirst(rows: set<int>) returns (ids: seq<int>)
      requires rows <= posts.Keys
      ensures |ids| == |rows|
      ensures forall id :: id in ids <==> id in rows
      ensures forall i :: 0 <= i < |ids| ==> ids[i] in rows
      ensures Sql.Distinct(ids)
      ensures forall i, j :: 0 <= i < j < |ids| ==> posts[ids[i]].createdAt >= posts[ids[j]].createdAt
    {
      var table := posts;
      ids := Sql.OrderNewestFirst(rows, id => if id in table then table[id].createdAt else 0);
      forall i | 0 <= i < |ids| ensures ids[i] in rows {
        assert ids[i] in ids;
      }
    }

    /** `POST /auth/register`: the email is checked before the username. */
    method Register(form: SignUp, hash: string -> string, mint: string -> string) returns (reply: Reply)
      requires Valid()
      modifies this
      ensures Valid() && posts == old(posts)
      ensures HasEmail(old(users), form.email) ==>
        reply == Reply(400, Detail(EmailTaken)) && users == old(users)
      ensures !HasEmail(old(users), form.email) && HasUsername(old(users), form.username) ==>
        reply == Reply(400, Detail(UsernameTaken)) && users == old(users)
      ensures !HasEmail(old(users), form.email) && !HasUsername(old(users), form.username) ==>
        && reply.status == 200 && reply.body.TokenBody?
        && var id := reply.body.token.userId;
        && id !in old(users)
        && users == old(users)[id := User(id, form.username, form.email, form.name, form.bio,
                                          form.avatarUrl, hash(form.password))]
        && reply.body.token == Token(mint(form.email), "bearer", id)
    {
      if HasEmail(users, form.email) {
        return Reply(400, Detail(EmailTaken));
      }
      if HasUsername(users, form.username) {
        return Reply(400, Detail(UsernameTaken));
      }
      var id := Sql.NextRowId(users.Keys);
      if users != map[] {
        assert id - 1 in users;
      }
      var row := User(id, form.username, form.email, form.name, form.bio, form.avatarUrl, hash(form.password));
      var before := users;
      users := users[id := row];
      forall a, b | a in users && b in users && a != b
        ensures users[a].username != users[b].username && users[a].email != users[b].email
      {
        if a != id && b != id {
          assert users[a] == before[a] && users[b] == before[b];
        }
      }
      reply := Reply(200, TokenBody(Token(mint(form.email), "bearer", id)));
    }

    /** `POST /auth/login`. */
    method Login(email: string, password: string, verify: (string, string) -> bool,
                 mint: string -> string) returns (reply: Reply)
      requires Valid()
      ensures reply.status == 200 <==>
        exists id :: id in users && users[id].email == email && verify(password, users[id].hashedPassword)
      ensures reply.status == 200 ==>
        && reply.body.TokenBody?
        && reply.body.token.userId in users
        && users[reply.body.token.userId].email == email
        && reply.body.token == Token(mint(email), "bearer", reply.body.token.userId)
      ensures reply.status != 200 ==> reply == Reply(400, Detail(BadLogin))
    {
      if exists id :: id in users && users[id].email == email {
        var id :| id in users && users[id].email == email;
        if verify(password, users[id].hashedPassword) {
          return Reply(200, TokenBody(Token(mint(email), "bearer", id)));
        }
      }
      return Reply(400, Detail(BadLogin));
    }

    /** `GET /users/me`. */
    method ReadUsersMe(me: int) returns (reply: Reply)
      requires Valid() && me in users
      ensures reply == Reply(200, UserBody(ReadOfUser(users[me])))
    {
      return Reply(200, UserBody(ReadOfUser(users[me])));
    }

    /** `PUT /users/me/avatar`: only the caller's avatar changes. */
    method UpdateAvatar(me: int, file: Upload, uuid: string) returns (reply: Reply)
      requires Valid() && me in users
      modifies this
      ensures Valid() && posts == old(posts)
      ensures users == old(users)[me := old(users)[me].(avatarUrl := Some(UploadUrl(uuid, file.filename)))]
      ensures reply == Reply(200, UserBody(ReadOfUser(users[me])))
    {
      var filename := StoredName(uuid, file.filename);
      users := users[me := users[me].(avatarUrl := Some(UploadsPath + filename))];
      reply := Reply(200, UserBody(ReadOfUser(users[me])));
    }

    /** `PUT /users/me`: only the caller's bio changes. */
    method UpdateProfile(me: int, bio: string) returns (reply: Reply)
      requires Valid() && me in users
      modifies this
      ensures Valid() && posts == old(posts)
      ensures users == old(users)[me := old(users)[me].(bio := Some(bio))]
      ensures reply == Reply(200, UserBody(ReadOfUser(users[me])))
    {
      users := users[me := users[me].(bio := Some(bio))];
      reply := Reply(200, UserBody(ReadOfUser(users[me])));
    }

    /** `GET /users/<id>`. */
    method ReadUser(userId: int) returns (reply: Reply)
      requires Valid()
      ensures userId !in users ==> reply == Reply(404, Detail(UserNotFound))
      ensures userId in users ==> reply == Reply(200, UserBody(ReadOfUser(users[userId])))
    {
      if userId !in users {
        return Reply(404, Detail(UserNotFound));
      }
      return Reply(200, UserBody(ReadOfUser(users[userId])));
    }

    /** `GET /users/<id>/posts`: that user's posts, newest first, each with
        the user's name and avatar. Posts whose user row is gone make the
        loop dereference `None`, a 500; with no posts the list is empty
        whether or not the user exists. */
    method ReadUserPosts(userId: int) returns (reply: Reply)
      requires Valid()
      ensures RowsOf(userId) != {} && userId !in users ==> reply == Reply(500, ServerError)
      ensures RowsOf(userId) == {} || userId in users ==>
        && reply.status == 200 && reply.body.PostList?
        && NewestFirstOver(reply.body.posts, RowsOf(userId))
        && forall i :: 0 <= i < |reply.body.posts| ==>
             reply.body.posts[i].id in posts
             && reply.body.posts[i] == ReadOfPost(posts[reply.body.posts[i].id], users[userId].username,
                                                 users[userId].avatarUrl)
    {
      var ids := SelectNewestFirst(RowsOf(userId));
      var result: seq<PostRead> := [];
      var i := 0;
      while i < |ids|
        invariant 0 <= i <= |ids|
        invariant i > 0 ==> userId in users
        invariant |result| == i
        invariant forall k :: 0 <= k < i ==>
          result[k] == ReadOfPost(posts[ids[k]], users[userId].username, users[userId].avatarUrl)
      {
        if userId !in users {
          assert ids[0] in RowsOf(userId);
          return Reply(500, ServerError);
        }
        result := result + [ReadOfPost(posts[ids[i]], users[userId].username, users[userId].avatarUrl)];
        i := i + 1;
      }
      if |ids| > 0 {
        assert ids[0] in RowsOf(userId);
      }
      ListedInOrder(result, ids, RowsOf(userId), posts);
      return Reply(200, PostList(result));
    }

    /** `POST /posts`: the upload is stored as `<uuid>_<name>` and the caller
        owns the new post. A part without a content type fails the
        `"image" in ...` test with a 500, before anything is added. */
    method CreatePost(me: int, description: string, file: Upload, uuid: string, now: int)
      returns (reply: Reply)
      requires Valid() && me in users
      modifies this
      ensures Valid() && users == old(users)
      ensures file.contentType.None? ==> reply == Reply(500, ServerError) && posts == old(posts)
      ensures file.contentType.Some? ==>
        && reply.status == 200 && reply.body.PostBody?
        && var id := reply.body.post.id;
        && id !in old(posts)
        && posts == old(posts)[id := Post(id, me, description, UploadUrl(uuid, file.filename),
                                          MediaType(file.contentType.value), now)]
        && reply.body.post == ReadOfPost(posts[id], users[me].username, users[me].avatarUrl)
    {
      if file.contentType.None? {
        return Reply(500, ServerError);
      }
      var mediaType := MediaType(file.contentType.value);
      var id := Sql.NextRowId(posts.Keys);
      if posts != map[] {
        assert id - 1 in posts;
      }
      var post := Post(id, me, description, UploadUrl(uuid, file.filename), mediaType, now);
      posts := posts[id := post];
      reply := Reply(200, PostBody(ReadOfPost(post, users[me].username, users[me].avatarUrl)));
    }

    /** `GET /posts`: every post, newest first, built with a `for` loop that
        looks each author up. */
    method ReadPosts() returns (reply: Reply)
      requires Valid()
      ensures reply.status == 200 && reply.body.PostList?
      ensures NewestFirstOver(reply.body.posts, posts.Keys)
      ensures forall i :: 0 <= i < |reply.body.posts| ==>
        reply.body.posts[i].id in posts && reply.body.posts[i] == FeedEntry(posts[reply.body.posts[i].id], users)
    {
      var ids := SelectNewestFirst(posts.Keys);
      var result: seq<PostRead> := [];
      var i := 0;
      while i < |ids|
        invariant 0 <= i <= |ids|
        invariant |result| == i
        invariant forall k :: 0 <= k < i ==> result[k] == FeedEntry(posts[ids[k]], users)
      {
        result := result + [FeedEntry(posts[ids[i]], users)];
        i := i + 1;
      }
      ListedInOrder(result, ids, posts.Keys, posts);
      return Reply(200, PostList(result));
    }

    /** `DELETE /posts/<id>`. */
    method DeletePost(me: int, postId: int) returns (reply: Reply)
      requires Valid() && me in users
      modifies this
      ensures Valid() && users == old(users)
      ensures postId !in old(posts) ==> reply == Reply(404, Detail(PostNotFound)) && posts == old(posts)
      ensures postId in old(posts) && old(posts)[postId].userId != me ==>
        reply == Reply(403, Detail(NotAuthorized)) && posts == old(posts)
      ensures postId in old(posts) && old(posts)[postId].userId == me ==>
        reply == Reply(200, Ok) && posts == old(posts) - {postId}
    {
      if postId !in posts {
        return Reply(404, Detail(PostNotFound));
      }
      if posts[postId].userId != me {
        return Reply(403, Detail(NotAuthorized));
      }
      posts := posts - {postId};
      reply := Reply(200, Ok);
    }

    /** `PUT /posts/<id>`: only the description changes, and the reply
        carries the caller's username and avatar. */
    method UpdatePost(me: int, postId: int, description: string) returns (reply: Reply)
      requires Valid() && me in users
      modifies this
      ensures Valid() && users == old(users)
      ensures postId !in old(posts) ==> reply == Reply(404, Detail(PostNotFound)) && posts == old(posts)
      ensures postId in old(posts) && old(posts)[postId].userId != me ==>
        reply == Reply(403, Detail(NotAuthorized)) && posts == old(posts)
      ensures postId in old(posts) && old(posts)[postId].userId == me ==>
        && posts == old(posts)[postId := old(posts)[postId].(description := description)]
        && reply == Reply(200, PostBody(ReadOfPost(posts[postId], users[me].username, users[me].avatarUrl)))
    {
      if postId !in posts {
        return Reply(404, Detail(PostNotFound));
      }
      if posts[postId].userId != me {
        return Reply(403, Detail(NotAuthorized));
      }
      posts := posts[postId := posts[postId].(description := description)];
      reply := Reply(200, PostBody(ReadOfPost(posts[postId], users[me].username, users[me].avatarUrl)));
    }
  }
}

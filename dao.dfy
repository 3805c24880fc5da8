/** The client's Room DAOs (`Dao.kt`) over in-memory `users` and `posts`
    tables keyed by id. Each `@Query` is modelled by what its SQL selects or
    changes. */
module Dao {
  import opened Text
  import opened Models
  import Sql

  /** `posts` lists exactly the rows of `table` whose ids are in `rows`, each
      once, newest first. */
  ghost predicate ListsNewestFirst(posts: seq<Post>, table: map<int, Post>, rows: set<int>)
  {
    && |posts| == |rows|
    && (forall i :: 0 <= i < |posts| ==> posts[i].id in rows && posts[i].id in table && table[posts[i].id] == posts[i])
    && (forall id :: id in rows ==> exists i :: 0 <= i < |posts| && posts[i].id == id)
    && (forall i, j :: 0 <= i < j < |posts| ==> posts[i].id != posts[j].id)
    && (forall i, j :: 0 <= i < j < |posts| ==> posts[i].createdAt >= posts[j].createdAt)
  }

  class UserDao {
    var users: map<int, User>

    ghost predicate Valid()
      reads this
    {
      forall id :: id in users ==> users[id].id == id
    }

    constructor ()
      ensures Valid() && users == map[]
    {
      users := map[];
    }

    /** `SELECT * FROM users WHERE email = :email LIMIT 1`: some user with
        that email, or none when no user has it. */
    method GetUserByEmail(email: string) returns (r: Option<User>)
      requires Valid()
      ensures r.None? <==> forall id :: id in users ==> users[id].email != email
      ensures r.Some? ==> r.value.id in users && users[r.value.id] == r.value && r.value.email == email
    {
      if exists id :: id in users && users[id].email == email {
        var id :| id in users && users[id].email == email;
        return Some(users[id]);
      }
      return None;
    }

    /** `SELECT * FROM users WHERE id = :id LIMIT 1`. */
    method GetUserById(id: int) returns (r: Option<User>)
      requires Valid()
      ensures r.None? <==> id !in users
      ensures r.Some? ==> r.value == users[id] && r.value.id == id
    {
      if id in users {
        return Some(users[id]);
      }
      return None;
    }

    /** `@Insert(onConflict = ABORT)`: a user whose id is taken is refused
        and the table is left as it was; otherwise the row is added and its
        rowid returned. */
    method InsertUser(user: User) returns (r: Option<int>)
      requires Valid()
      modifies this
      ensures Valid()
      ensures user.id in old(users) ==> r.None? && users == old(users)
      ensures user.id !in old(users) ==> r == Some(user.id) && users == old(users)[user.id := user]
    {
      if user.id in users {
        return None;
      }
      users := users[user.id := user];
      return Some(user.id);
    }
  }

  class PostDao {
    var posts: map<int, Post>

    ghost predicate Valid()
      reads this
    {
      forall id :: id in posts ==> posts[id].id == id
    }

    constructor ()
      ensures Valid() && posts == map[]
    {
      posts := map[];
    }

    /** The rows `getPostsByUser(userId)` selects. */
    function RowsOf(userId: int): set<int>
      reads this
    {
      set id | id in posts && posts[id].userId == userId
    }

    /** Runs a `SELECT ... ORDER BY created_at DESC` over `rows`. */
    method Select(rows: set<int>) returns (r: seq<Post>)
      requires Valid() && rows <= posts.Keys
      ensures ListsNewestFirst(r, posts, rows)
    {
      var table := posts;
      var ids := Sql.OrderNewestFirst(rows, id => if id in table then table[id].createdAt else 0);
      forall i | 0 <= i < |ids| ensures ids[i] in rows {
        assert ids[i] in ids;
      }
      r := seq(|ids|, i requires 0 <= i < |ids| && ids[i] in table => table[ids[i]]);
      forall id | id in rows ensures exists i :: 0 <= i < |r| && r[i].id == id {
        var i :| 0 <= i < |ids| && ids[i] == id;
        assert r[i].id == id;
      }
    }

    /** `getAllPosts`: every post, newest first. */
    method GetAllPosts() returns (r: seq<Post>)
      requires Valid()
      ensures ListsNewestFirst(r, posts, posts.Keys)
    {
      r := Select(posts.Keys);
    }

    /** `getPostsByUser`: exactly that user's posts, newest first. */
    method GetPostsByUser(userId: int) returns (r: seq<Post>)
      requires Valid()
      ensures ListsNewestFirst(r, posts, RowsOf(userId))
      ensures forall i :: 0 <= i < |r| ==> r[i].userId == userId
    {
      r := Select(RowsOf(userId));
    }

    /** `getPostById`: the post with that id, or none. */
    method GetPostById(id: int) returns (r: Option<Post>)
      requires Valid()
      ensures r.None? <==> id !in posts
      ensures r.Some? ==> r.value == posts[id] && r.value.id == id
    {
      if id in posts {
        return Some(posts[id]);
      }
      return None;
    }

    /** `@Insert` (ABORT on a taken id). */
    method InsertPost(post: Post) returns (r: Option<int>)
      requires Valid()
      modifies this
      ensures Valid()
      ensures post.id in old(posts) ==> r.None? && posts == old(posts)
      ensures post.id !in old(posts) ==> r == Some(post.id) && posts == old(posts)[post.id := post]
    {
      if post.id in posts {
        return None;
      }
      posts := posts[post.id := post];
      return Some(post.id);
    }

    /** `DELETE FROM posts WHERE id = :postId`: removes that row, if any. */
    method DeletePost(postId: int)
      requires Valid()
      modifies this
      ensures Valid()
      ensures posts == old(posts) - {postId}
      ensures postId !in old(posts) ==> posts == old(posts)
    {
      posts := posts - {postId};
    }

    /** `UPDATE posts SET description = :description WHERE id = :id`: only
        that row's description changes; no row matches when the id is absent. */
    method UpdatePostDescription(id: int, description: string)
      requires Valid()
      modifies this
      ensures Valid()
      ensures id in old(posts) ==> posts == old(posts)[id := old(posts)[id].(description := description)]
      ensures id !in old(posts) ==> posts == old(posts)
    {
      if id in posts {
        posts := posts[id := posts[id].(description := description)];
      }
    }
  }
}

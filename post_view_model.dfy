/** `PostViewModel`: the feed, the caller's own posts, the profile and the
    post being edited, with a `state` that each operation sets. A launched
    coroutine is taken to run to completion, and a coroutine launched from
    inside another runs after it. What each repository call returns or
    throws is a parameter; `calls` records the calls made and `written`
    every value written to the state flow. */
module PostViewModel {
  import opened Text
  import opened Models

  const FeedFailed: string := "Error al cargar el Feed"
  const MyPostsFailed: string := "Error al cargar mis posts"
  const ProfileFailed: string := "Error al cargar perfil"
  const PostFailed: string := "Error al cargar el post para editar."
  const EmptyPost: string := "Error: Post vacío o fallo en el servidor."
  const CreateFailed: string := "Error al crear post"
  const UpdateFailed: string := "Error al actualizar"
  const DeleteFailed: string := "Error al eliminar"

  datatype PostState = Idle | Loading | Success | Error(msg: string)

  /** What a suspending repository call did: returned a value, or threw an
      exception that may carry a message. */
  datatype Outcome<T> = Returned(value: T) | Threw(message: Option<string>)

  datatype PostCall =
    | CurrentAuthToken
    | GetAllPosts
    | GetUserPosts(userId: int)
    | GetMe
    | GetPostById(postId: int)
    | CreatePost(description: string, file: string)
    | UpdatePostDescription(postId: int, description: string)
    | DeletePost(postId: int)

  /** `Error(e.message ?: fallback)`. */
  function Failure(message: Option<string>, fallback: string): (s: PostState)
    ensures s.Error?
    ensures message.Some? ==> s.msg == message.value
    ensures message.None? ==> s.msg == fallback
  {
    Error(if message.Some? then message.value else fallback)
  }

  /** `updatePost`'s local refresh: `currentPost?.copy(description = desc)`. */
  function WithDescription(current: Option<Post>, desc: string): (r: Option<Post>)
    ensures current.None? <==> r.None?
    ensures current.Some? ==> r.value.description == desc && r.value.(description := current.value.description) == current.value
  {
    if current.Some? then Some(current.value.(description := desc)) else None
  }

  /** The posts with a positive id, in their order (`filter { it.id > 0 }`). */
  function Persisted(posts: seq<Post>): (r: seq<Post>)
    ensures |r| <= |posts|
    ensures forall i :: 0 <= i < |r| ==> r[i].id > 0
    ensures forall p :: p in r <==> p in posts && p.id > 0
  {
    if |posts| == 0 then []
    else if posts[0].id > 0 then [posts[0]] + Persisted(posts[1..])
    else Persisted(posts[1..])
  }

  /** A list whose posts all have positive ids is kept whole. */
  lemma {:induction false} PersistedKeepsPersistedList(posts: seq<Post>)
    requires forall i :: 0 <= i < |posts| ==> posts[i].id > 0
    ensures Persisted(posts) == posts
  {
    if |posts| > 0 {
      PersistedKeepsPersistedList(posts[1..]);
    }
  }

  /** The feed screen's list: the first twenty persisted posts. */
  function FeedPage(posts: seq<Post>): (r: seq<Post>)
    ensures |r| <= 20
    ensures forall i :: 0 <= i < |r| ==> r[i].id > 0
    ensures forall p :: p in r ==> p in posts
    ensures |r| == if |Persisted(posts)| < 20 then |Persisted(posts)| else 20
    ensures r == Persisted(posts)[..|r|]
  {
    var kept := Persisted(posts);
    if |kept| <= 20 then kept else kept[..20]
  }

  class PostViewModel {
    var posts: seq<Post>
    var myPosts: seq<Post>
    var currentUser: Option<User>
    var currentPost: Option<Post>
    var state: PostState
    var written: seq<PostState>
    var calls: seq<PostCall>

    constructor ()
      ensures posts == [] && myPosts == [] && currentUser.None? && currentPost.None?
      ensures state == Idle && written == [] && calls == []
    {
      posts := [];
      myPosts := [];
      currentUser := None;
      currentPost := None;
      state := Idle;
      written := [];
      calls := [];
    }

    method SetState(s: PostState)
      modifies this
      ensures state == s && written == old(written) + [s]
      ensures posts == old(posts) && myPosts == old(myPosts) && currentUser == old(currentUser)
      ensures currentPost == old(currentPost) && calls == old(calls)
    {
      state := s;
      written := written + [s];
    }

    /** `getFeed`: on success the fetched list replaces `posts`; on failure
        `posts` is kept. */
    method GetFeed(fetched: Outcome<seq<Post>>)
      modifies this
      ensures calls == old(calls) + [GetAllPosts]
      ensures myPosts == old(myPosts) && currentUser == old(currentUser) && currentPost == old(currentPost)
      ensures fetched.Returned? ==> posts == fetched.value && state == Success
      ensures fetched.Threw? ==> posts == old(posts) && state == Failure(fetched.message, FeedFailed)
      ensures written == old(written) + [Loading, state]
    {
      SetState(Loading);
      calls := calls + [GetAllPosts];
      match fetched
      case Returned(list) =>
        posts := list;
        SetState(Success);
      case Threw(m) =>
        SetState(Failure(m, FeedFailed));
    }

    /** `getMyPosts`: the stored token is read as the user id; an absent or
        non-numeric token ends the coroutine early with the state left at
        `Loading`. */
    method GetMyPosts(token: Option<string>, fetched: Outcome<seq<Post>>)
      modifies this
      ensures posts == old(posts) && currentUser == old(currentUser) && currentPost == old(currentPost)
      ensures token.None? || ToIntOrNull(token.value).None? ==>
        && myPosts == old(myPosts) && state == Loading
        && written == old(written) + [Loading]
        && calls == old(calls) + [CurrentAuthToken]
      ensures token.Some? && ToIntOrNull(token.value).Some? ==>
        && calls == old(calls) + [CurrentAuthToken, GetUserPosts(ToIntOrNull(token.value).value)]
        && written == old(written) + [Loading, state]
        && (fetched.Returned? ==> myPosts == fetched.value && state == Success)
        && (fetched.Threw? ==> myPosts == old(myPosts) && state == Failure(fetched.message, MyPostsFailed))
    {
      SetState(Loading);
      calls := calls + [CurrentAuthToken];
      if token.None? {
        return;
      }
      var userId := ToIntOrNull(token.value);
      if userId.None? {
        return;
      }
      calls := calls + [GetUserPosts(userId.value)];
      match fetched
      case Returned(list) =>
        myPosts := list;
        SetState(Success);
      case Threw(m) =>
        SetState(Failure(m, MyPostsFailed));
    }

    /** `getProfile`. */
    method GetProfile(fetched: Outcome<Option<User>>)
      modifies this
      ensures calls == old(calls) + [GetMe]
      ensures posts == old(posts) && myPosts == old(myPosts) && currentPost == old(currentPost)
      ensures fetched.Returned? ==> currentUser == fetched.value && state == Success
      ensures fetched.Threw? ==> currentUser == old(currentUser) && state == Failure(fetched.message, ProfileFailed)
      ensures written == old(written) + [Loading, state]
    {
      SetState(Loading);
      calls := calls + [GetMe];
      match fetched
      case Returned(user) =>
        currentUser := user;
        SetState(Success);
      case Threw(m) =>
        SetState(Failure(m, ProfileFailed));
    }

    /** `getPostById`: never writes `Loading`; on success only `currentPost`
        changes, on failure only the state. */
    method GetPostById(postId: int, fetched: Outcome<Option<Post>>)
      modifies this
      ensures calls == old(calls) + [PostCall.GetPostById(postId)]
      ensures posts == old(posts) && myPosts == old(myPosts) && currentUser == old(currentUser)
      ensures fetched.Returned? ==>
        currentPost == fetched.value && state == old(state) && written == old(written)
      ensures fetched.Threw? ==>
        && currentPost == old(currentPost) && state == Failure(fetched.message, PostFailed)
        && written == old(written) + [state]
      ensures Loading !in written[|old(written)|..]
    {
      calls := calls + [PostCall.GetPostById(postId)];
      match fetched
      case Returned(post) =>
        currentPost := post;
        assert written[|old(written)|..] == [];
      case Threw(m) =>
        SetState(Failure(m, PostFailed));
        assert written[|old(written)|..] == [state];
    }

    /** `createPost`: a null post from the server is an error too. */
    method CreatePost(desc: string, file: string, created: Outcome<Option<Post>>)
      modifies this
      ensures calls == old(calls) + [PostCall.CreatePost(desc, file)]
      ensures posts == old(posts) && myPosts == old(myPosts)
      ensures currentUser == old(currentUser) && currentPost == old(currentPost)
      ensures created.Returned? && created.value.Some? ==> state == Success
      ensures created.Returned? && created.value.None? ==> state == Error(EmptyPost)
      ensures created.Threw? ==> state == Failure(created.message, CreateFailed)
      ensures written == old(written) + [Loading, state]
    {
      SetState(Loading);
      calls := calls + [PostCall.CreatePost(desc, file)];
      match created
      case Returned(post) =>
        if post.Some? {
          SetState(Success);
        } else {
          SetState(Error(EmptyPost));
        }
      case Threw(m) =>
        SetState(Failure(m, CreateFailed));
    }

    /** `updatePost`: after the update call only the description of
        `currentPost` changes (a null one stays null), then the feed is
        refreshed. */
    method UpdatePost(id: int, desc: string, updated: Outcome<()>, feed: Outcome<seq<Post>>)
      modifies this
      ensures myPosts == old(myPosts) && currentUser == old(currentUser)
      ensures updated.Threw? ==>
        && calls == old(calls) + [UpdatePostDescription(id, desc)]
        && posts == old(posts) && currentPost == old(currentPost)
        && state == Failure(updated.message, UpdateFailed)
        && written == old(written) + [Loading, state]
      ensures updated.Returned? ==>
        && calls == old(calls) + [UpdatePostDescription(id, desc), GetAllPosts]
        && currentPost == WithDescription(old(currentPost), desc)
        && (feed.Returned? ==> posts == feed.value && state == Success)
        && (feed.Threw? ==> posts == old(posts) && state == Failure(feed.message, FeedFailed))
        && written == old(written) + [Loading, Success, Loading, state]
    {
      SetState(Loading);
      calls := calls + [UpdatePostDescription(id, desc)];
      if updated.Threw? {
        SetState(Failure(updated.message, UpdateFailed));
        return;
      }
      currentPost := WithDescription(currentPost, desc);
      SetState(Success);
      GetFeed(feed);
    }

    /** `deletePost`: after the delete call, the caller's posts and then the
        feed are reloaded; no `Loading` is written before the call. */
    method DeletePost(id: int, deleted: Outcome<()>, token: Option<string>,
                      mine: Outcome<seq<Post>>, feed: Outcome<seq<Post>>)
      modifies this
      ensures currentUser == old(currentUser) && currentPost == old(currentPost)
      ensures deleted.Threw? ==>
        && calls == old(calls) + [PostCall.DeletePost(id)]
        && posts == old(posts) && myPosts == old(myPosts)
        && state == Failure(deleted.message, DeleteFailed)
        && written == old(written) + [state]
      ensures deleted.Returned? && (token.None? || ToIntOrNull(token.value).None?) ==>
        && calls == old(calls) + [PostCall.DeletePost(id), CurrentAuthToken, GetAllPosts]
        && myPosts == old(myPosts)
        && written == old(written) + [Loading, Loading, state]
      ensures deleted.Returned? && token.Some? && ToIntOrNull(token.value).Some? ==>
        && calls == old(calls) + [PostCall.DeletePost(id), CurrentAuthToken,
                                  GetUserPosts(ToIntOrNull(token.value).value), GetAllPosts]
        && (mine.Returned? ==> myPosts == mine.value && written == old(written) + [Loading, Success, Loading, state])
        && (mine.Threw? ==> myPosts == old(myPosts)
                            && written == old(written) + [Loading, Failure(mine.message, MyPostsFailed), Loading, state])
      ensures deleted.Returned? ==>
        && (feed.Returned? ==> posts == feed.value && state == Success)
        && (feed.Threw? ==> posts == old(posts) && state == Failure(feed.message, FeedFailed))
    {
      calls := calls + [PostCall.DeletePost(id)];
      if deleted.Threw? {
        SetState(Failure(deleted.message, DeleteFailed));
        return;
      }
      GetMyPosts(token, mine);
      GetFeed(feed);
    }

    /** `resetState`: back to `Idle`; the lists and `currentPost` stay. */
    method ResetState()
      modifies this
      ensures state == Idle && written == old(written) + [Idle]
      ensures posts == old(posts) && myPosts == old(myPosts)
      ensures currentUser == old(currentUser) && currentPost == old(currentPost) && calls == old(calls)
    {
      SetState(Idle);
    }
  }

  /** A token holding a `.` (as every JSON Web Token does) is not a number,
      so `getMyPosts` returns early and the state stays `Loading`. */
  lemma DottedTokenNamesNoUser(token: string)
    requires '.' in token
    ensures ToIntOrNull(token).None?
  {
    var i :| 0 <= i < |token| && token[i] == '.';
    assert !IsDigit(token[i]);
  }
}

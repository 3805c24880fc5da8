/** The Android client's `Repository`: it turns the server's relative upload
    paths into absolute URLs, keeps the session (token and user id) in a
    two-key preference store, and sends every authenticated request with a
    `Bearer <token>` header. The HTTP responses are parameters; the calls
    made are recorded in `sent`. */
module Repository {
  import opened Text
  import opened Models

  // ------------------------------------------------------------ URLs

  /** `fixPostUrl`/`fixUserUrl`'s rewrite of one URL: an absolute `http...`
      URL is kept, anything else is appended to the base URL after dropping
      one leading `/`. */
  function FixUrl(url: string, baseUrl: string): (r: string)
    ensures StartsWith(url, "http") ==> r == url
    ensures !StartsWith(url, "http") ==> r == baseUrl + RemovePrefix(url, "/")
    ensures !StartsWith(url, "http") && StartsWith(url, "/") ==> baseUrl + "/" + r[|baseUrl|..] == baseUrl + url
  {
    if StartsWith(url, "http") then url
    else
      var rest := RemovePrefix(url, "/");
      assert (baseUrl + rest)[|baseUrl|..] == rest;
      baseUrl + rest
  }

  /** With an `http...` base URL the rewrite always yields an `http...` URL. */
  lemma FixUrlIsAbsolute(url: string, baseUrl: string)
    requires StartsWith(baseUrl, "http")
    ensures StartsWith(FixUrl(url, baseUrl), "http")
  {
    if !StartsWith(url, "http") {
      StartsWithAppend(baseUrl, RemovePrefix(url, "/"), "http");
    }
  }

  /** With an `http...` base URL, rewriting twice is rewriting once. */
  lemma FixUrlIdempotent(url: string, baseUrl: string)
    requires StartsWith(baseUrl, "http")
    ensures FixUrl(FixUrl(url, baseUrl), baseUrl) == FixUrl(url, baseUrl)
  {
    FixUrlIsAbsolute(url, baseUrl);
  }

  /** Without that condition on the base URL, a second rewrite can drop one
      more `/`: with an empty base, `//a` becomes `/a` and then `a`. */
  lemma FixUrlNotIdempotentForRelativeBase()
    ensures FixUrl("//a", "") == "/a"
    ensures FixUrl(FixUrl("//a", ""), "") == "a"
  {
    assert !StartsWith("//a", "http");
    assert StartsWith("//a", "/");
    assert "//a"[1..] == "/a";
    assert !StartsWith("/a", "http");
    assert StartsWith("/a", "/");
    assert "/a"[1..] == "a";
  }

  /** `fixPostUrl`: only `media_url` is rewritten. */
  function FixPostUrl(post: Post, baseUrl: string): (r: Post)
    ensures r.mediaUrl == FixUrl(post.mediaUrl, baseUrl)
    ensures r.(mediaUrl := post.mediaUrl) == post
  {
    post.(mediaUrl := FixUrl(post.mediaUrl, baseUrl))
  }

  /** `fixUserUrl`: a user without an avatar is returned as is; otherwise
      only `avatar_url` is rewritten. */
  function FixUserUrl(user: User, baseUrl: string): (r: User)
    ensures NullOrEmpty(user.avatarUrl) ==> r == user
    ensures !NullOrEmpty(user.avatarUrl) ==> r.avatarUrl == Some(FixUrl(user.avatarUrl.value, baseUrl))
    ensures r.(avatarUrl := user.avatarUrl) == user
  {
    if NullOrEmpty(user.avatarUrl) then user
    else user.(avatarUrl := Some(FixUrl(user.avatarUrl.value, baseUrl)))
  }

  lemma FixPostUrlIdempotent(post: Post, baseUrl: string)
    requires StartsWith(baseUrl, "http")
    ensures FixPostUrl(FixPostUrl(post, baseUrl), baseUrl) == FixPostUrl(post, baseUrl)
  {
    FixUrlIdempotent(post.mediaUrl, baseUrl);
  }

  lemma FixUserUrlIdempotent(user: User, baseUrl: string)
    requires StartsWith(baseUrl, "http")
    ensures FixUserUrl(FixUserUrl(user, baseUrl), baseUrl) == FixUserUrl(user, baseUrl)
  {
    if !NullOrEmpty(user.avatarUrl) {
      FixUrlIdempotent(user.avatarUrl.value, baseUrl);
      FixUrlIsAbsolute(user.avatarUrl.value, baseUrl);
    }
  }

  // ------------------------------------------------------------ responses

  /** A Retrofit `Response`: the status code and the parsed body, `None`
      when the body is null. */
  datatype Response<T> = Response(code: int, body: Option<T>)

  predicate IsSuccessful<T>(r: Response<T>) {
    200 <= r.code < 300
  }

  /** `body.map { fixPostUrl(it) }`. */
  function FixPosts(posts: seq<Post>, baseUrl: string): (r: seq<Post>)
    ensures |r| == |posts|
    ensures forall i :: 0 <= i < |posts| ==> r[i] == FixPostUrl(posts[i], baseUrl)
  {
    seq(|posts|, i requires 0 <= i < |posts| => FixPostUrl(posts[i], baseUrl))
  }

  /** `getPosts`/`getUserPosts`' post-processing: a successful response
      becomes `Response.success` (code 200) of the rewritten list, a null
      body giving the empty list; any other response is passed through. */
  function FixListResponse(response: Response<seq<Post>>, baseUrl: string): (r: Response<seq<Post>>)
    ensures !IsSuccessful(response) ==> r == response
    ensures IsSuccessful(response) ==> r.code == 200 && r.body.Some?
    ensures IsSuccessful(response) && response.body.None? ==> r.body.value == []
    ensures IsSuccessful(response) && response.body.Some? ==> r.body.value == FixPosts(response.body.value, baseUrl)
  {
    if IsSuccessful(response) then
      Response(200, Some(if response.body.Some? then FixPosts(response.body.value, baseUrl) else []))
    else response
  }

  /** Every post of a list the repository returns has an absolute media URL. */
  lemma FixedListIsAbsolute(response: Response<seq<Post>>, baseUrl: string)
    requires StartsWith(baseUrl, "http")
    ensures IsSuccessful(response) ==>
      forall p :: p in FixListResponse(response, baseUrl).body.value ==> StartsWith(p.mediaUrl, "http")
  {
    var r := FixListResponse(response, baseUrl);
    if IsSuccessful(response) && response.body.Some? {
      forall p | p in r.body.value ensures StartsWith(p.mediaUrl, "http") {
        var i :| 0 <= i < |r.body.value| && r.body.value[i] == p;
        FixUrlIsAbsolute(response.body.value[i].mediaUrl, baseUrl);
      }
    }
  }

  /** Passing an already processed list through again changes nothing. */
  lemma FixListResponseIdempotent(response: Response<seq<Post>>, baseUrl: string)
    requires StartsWith(baseUrl, "http")
    ensures FixListResponse(FixListResponse(response, baseUrl), baseUrl) == FixListResponse(response, baseUrl)
  {
    var once := FixListResponse(response, baseUrl);
    if IsSuccessful(response) {
      var twice := FixListResponse(once, baseUrl);
      forall i | 0 <= i < |once.body.value| ensures twice.body.value[i] == once.body.value[i] {
        FixPostUrlIdempotent(response.body.value[i], baseUrl);
      }
      assert twice.body.value == once.body.value;
    }
  }

  /** `getPostById`/`getMe`'s post-processing: a successful response with a
      body becomes `Response.success` of the rewritten value. */
  function FixOneResponse<T>(response: Response<T>, fix: T -> T): (r: Response<T>)
    ensures IsSuccessful(response) && response.body.Some? ==> r == Response(200, Some(fix(response.body.value)))
    ensures !(IsSuccessful(response) && response.body.Some?) ==> r == response
  {
    if IsSuccessful(response) && response.body.Some? then Response(200, Some(fix(response.body.value)))
    else response
  }

  // ------------------------------------------------------------ session and calls

  const TokenKey: string := "jwt_token"
  const UserIdKey: string := "user_id"

  /** The `Authorization` header value for a token. */
  function Bearer(token: string): (h: string)
    ensures StartsWith(h, "Bearer ") && h[7..] == token
  {
    "Bearer " + token
  }

  /** The `ApiService` endpoints the repository calls. */
  datatype Endpoint =
    | Register(registerRequest: RegisterRequest)
    | Login(loginRequest: LoginRequest)
    | GetMe
    | GetUser(userId: int)
    | GetPosts
    | GetUserPosts(userId: int)
    | GetPostById(postId: int)
    | CreatePost(description: string, fileName: string, mediaType: string)
    | UpdatePost(postId: int, description: string)
    | DeletePost(postId: int)

  /** One request: the endpoint and its `Authorization` header, if any. */
  datatype ApiCall = ApiCall(endpoint: Endpoint, authorization: Option<string>)

  /** Every call other than login and registration carries a Bearer header. */
  predicate Authorized(call: ApiCall) {
    call.endpoint.Login? || call.endpoint.Register? ||
    (call.authorization.Some? && StartsWith(call.authorization.value, "Bearer "))
  }

  class Repository {
    const baseUrl: string
    /** The `settings` preference store. */
    var prefs: map<string, string>
    /** The requests sent so far, oldest first. */
    var sent: seq<ApiCall>

    ghost predicate Valid()
      reads this
    {
      forall i :: 0 <= i < |sent| ==> Authorized(sent[i])
    }

    /** A repository over an existing preference store. */
    constructor (baseUrl: string, stored: map<string, string>)
      ensures Valid() && this.baseUrl == baseUrl && prefs == stored && sent == []
    {
      this.baseUrl := baseUrl;
      prefs := stored;
      sent := [];
    }

    /** The current value of the `token` flow. */
    function Token(): (r: Option<string>)
      reads this
      ensures r.Some? <==> TokenKey in prefs
      ensures r.Some? ==> r.value == prefs[TokenKey]
    {
      if TokenKey in prefs then Some(prefs[TokenKey]) else None
    }

    /** The current value of the `currentUserId` flow. */
    function CurrentUserId(): (r: Option<string>)
      reads this
      ensures r.Some? <==> UserIdKey in prefs
      ensures r.Some? ==> r.value == prefs[UserIdKey]
    {
      if UserIdKey in prefs then Some(prefs[UserIdKey]) else None
    }

    /** `saveSession`: sets the two keys, leaving any other key alone. */
    method SaveSession(token: string, userId: int)
      requires Valid()
      modifies this
      ensures Valid() && sent == old(sent)
      ensures prefs == old(prefs)[TokenKey := token][UserIdKey := DecimalOf(userId)]
      ensures Token() == Some(token) && CurrentUserId() == Some(DecimalOf(userId))
    {
      prefs := prefs[TokenKey := token][UserIdKey := DecimalOf(userId)];
    }

    /** `clearSession`: empties the store. */
    method ClearSession()
      requires Valid()
      modifies this
      ensures Valid() && sent == old(sent)
      ensures prefs == map[]
      ensures Token().None? && CurrentUserId().None?
    {
      prefs := map[];
    }

    method Send(endpoint: Endpoint, authorization: Option<string>)
      requires Valid()
      requires endpoint.Login? || endpoint.Register? ||
               (authorization.Some? && StartsWith(authorization.value, "Bearer "))
      modifies this
      ensures Valid() && prefs == old(prefs)
      ensures sent == old(sent) + [ApiCall(endpoint, authorization)]
    {
      sent := sent + [ApiCall(endpoint, authorization)];
    }

    method LoginUser(request: LoginRequest, response: Response<AuthResponse>) returns (r: Response<AuthResponse>)
      requires Valid()
      modifies this
      ensures Valid() && prefs == old(prefs)
      ensures sent == old(sent) + [ApiCall(Login(request), None)] && r == response
    {
      Send(Login(request), None);
      r := response;
    }

    method RegisterUser(request: RegisterRequest, response: Response<AuthResponse>) returns (r: Response<AuthResponse>)
      requires Valid()
      modifies this
      ensures Valid() && prefs == old(prefs)
      ensures sent == old(sent) + [ApiCall(Register(request), None)] && r == response
    {
      Send(Register(request), None);
      r := response;
    }

    /** `getPosts`: the feed with every media URL made absolute. */
    method FetchPosts(token: string, response: Response<seq<Post>>) returns (r: Response<seq<Post>>)
      requires Valid()
      modifies this
      ensures Valid() && prefs == old(prefs)
      ensures sent == old(sent) + [ApiCall(GetPosts, Some(Bearer(token)))]
      ensures r == FixListResponse(response, baseUrl)
    {
      Send(GetPosts, Some(Bearer(token)));
      r := FixListResponse(response, baseUrl);
    }

    /** `getUserPosts`. */
    method FetchUserPosts(token: string, userId: int, response: Response<seq<Post>>) returns (r: Response<seq<Post>>)
      requires Valid()
      modifies this
      ensures Valid() && prefs == old(prefs)
      ensures sent == old(sent) + [ApiCall(GetUserPosts(userId), Some(Bearer(token)))]
      ensures r == FixListResponse(response, baseUrl)
    {
      Send(GetUserPosts(userId), Some(Bearer(token)));
      r := FixListResponse(response, baseUrl);
    }

    /** `createPost`: a multipart upload declared with the image wildcard media type; the response
        is returned untouched. */
    method SendPost(token: string, description: string, fileName: string, response: Response<Post>)
      returns (r: Response<Post>)
      requires Valid()
      modifies this
      ensures Valid() && prefs == old(prefs)
      ensures sent == old(sent) + [ApiCall(CreatePost(description, fileName, "image/*"), Some(Bearer(token)))]
      ensures r == response
    {
      Send(CreatePost(description, fileName, "image/*"), Some(Bearer(token)));
      r := response;
    }

    /** `getPostById`. */
    method FetchPost(token: string, postId: int, response: Response<Post>) returns (r: Response<Post>)
      requires Valid()
      modifies this
      ensures Valid() && prefs == old(prefs)
      ensures sent == old(sent) + [ApiCall(GetPostById(postId), Some(Bearer(token)))]
      ensures r == FixOneResponse(response, p => FixPostUrl(p, baseUrl))
    {
      Send(GetPostById(postId), Some(Bearer(token)));
      r := FixOneResponse(response, p => FixPostUrl(p, baseUrl));
    }

    /** `updatePost`. */
    method EditPost(token: string, postId: int, description: string, response: Response<Post>)
      returns (r: Response<Post>)
      requires Valid()
      modifies this
      ensures Valid() && prefs == old(prefs)
      ensures sent == old(sent) + [ApiCall(UpdatePost(postId, description), Some(Bearer(token)))]
      ensures r == response
    {
      Send(UpdatePost(postId, description), Some(Bearer(token)));
      r := response;
    }

    /** `deletePost`. */
    method RemovePost(token: string, postId: int, response: Response<()>) returns (r: Response<()>)
      requires Valid()
      modifies this
      ensures Valid() && prefs == old(prefs)
      ensures sent == old(sent) + [ApiCall(DeletePost(postId), Some(Bearer(token)))]
      ensures r == response
    {
      Send(DeletePost(postId), Some(Bearer(token)));
      r := response;
    }

    /** `getMe`: the caller with an absolute avatar URL. */
    method FetchMe(token: string, response: Response<User>) returns (r: Response<User>)
      requires Valid()
      modifies this
      ensures Valid() && prefs == old(prefs)
      ensures sent == old(sent) + [ApiCall(GetMe, Some(Bearer(token)))]
      ensures r == FixOneResponse(response, u => FixUserUrl(u, baseUrl))
    {
      Send(GetMe, Some(Bearer(token)));
      r := FixOneResponse(response, u => FixUserUrl(u, baseUrl));
    }

    /** `getUser`: passed through without rewriting the avatar. */
    method FetchUser(token: string, userId: int, response: Response<User>) returns (r: Response<User>)
      requires Valid()
      modifies this
      ensures Valid() && prefs == old(prefs)
      ensures sent == old(sent) + [ApiCall(GetUser(userId), Some(Bearer(token)))]
      ensures r == response
    {
      Send(GetUser(userId), Some(Bearer(token)));
      r := response;
    }
  }

  /** A session saved with a decimal user id is read back as that id by
      `toIntOrNull` whenever the id fits in a Kotlin `Int`. */
  lemma SavedUserIdRoundTrip(userId: int)
    requires IsInt32(userId)
    ensures ToIntOrNull(DecimalOf(userId)) == Some(userId)
  {
    DecimalRoundTrip(userId);
  }
}

/** The Android client's data classes (`AuthModels.kt`, `PostModels.kt`).
    Kotlin `String?` fields are `Option<string>`; `created_at` is carried as
    an integer timestamp. */
module Models {
  import opened Text

  datatype LoginRequest = LoginRequest(email: string, password: string)

  datatype RegisterRequest = RegisterRequest(name: string, username: string, email: string, password: string)

  datatype AuthResponse = AuthResponse(accessToken: string, tokenType: string, userId: int)

  datatype User = User(id: int, name: string, username: string, email: string,
                       bio: Option<string>, avatarUrl: Option<string>)

  datatype Post = Post(id: int, userId: int, username: string, userAvatar: Option<string>,
                       description: string, mediaUrl: string, mediaType: string, createdAt: int)

  /** Kotlin's `isNullOrEmpty()` on a `String?`. */
  predicate NullOrEmpty(s: Option<string>) {
    s.None? || s.value == ""
  }
}

/**
 * The `users` table row and the password-free projection of it that the
 * services hand back to their callers.
 */
module UserEntity {
  import opened Common
  import Jwt
  import Bcrypt

  /** One row. `id` is the generated primary key; `username` is required and
      unique; `email` is nullable and unique when present; `nickname`,
      `profileImageUrl` and `bio` are nullable; `refreshToken` with
      `refreshTokenExpiresAt` is the user's single refresh-token slot.
      Timestamps are milliseconds. */
  datatype User = User(
    id: int,
    email: Option<string>,
    username: string,
    password: Bcrypt.Hash,
    nickname: Option<string>,
    profileImageUrl: Option<string>,
    bio: Option<string>,
    refreshToken: Option<Jwt.Token>,
    refreshTokenExpiresAt: Option<int>,
    createdAt: int,
    updatedAt: int)

  /** `Omit<User, 'password'>`: every column but the password hash. A field that
      is `null` or `undefined` in the returned object is `None`. */
  datatype UserView = UserView(
    id: int,
    email: Option<string>,
    username: string,
    nickname: Option<string>,
    profileImageUrl: Option<string>,
    bio: Option<string>,
    refreshToken: Option<Jwt.Token>,
    refreshTokenExpiresAt: Option<int>,
    createdAt: int,
    updatedAt: int)

  /** `const { password, ...rest } = user`. */
  function WithoutPassword(u: User): (v: UserView)
  {
    UserView(u.id, u.email, u.username, u.nickname, u.profileImageUrl, u.bio,
             u.refreshToken, u.refreshTokenExpiresAt, u.createdAt, u.updatedAt)
  }

  /** The repository's `save` of a loaded row after in-memory edits: nothing is
      written when no column changed; otherwise the edited columns are written
      and the update-date column is set to the time of the write. */
  function Save(loaded: User, edited: User, now: int): (r: User)
    requires edited.id == loaded.id
    ensures r.id == loaded.id
    ensures r.(updatedAt := edited.updatedAt) == edited
    ensures r.updatedAt == if edited == loaded then loaded.updatedAt else now
  {
    if edited == loaded then loaded else edited.(updatedAt := now)
  }
}

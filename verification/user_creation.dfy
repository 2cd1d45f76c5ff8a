/**
 * The user-creation service: registration with an email (`create`) and the
 * sign-up form without one (`createForSignup`). Each runs its existence checks
 * in order, hashes the password and inserts one row.
 */
module UserCreation {
  import opened Common
  import opened UserEntity
  import opened Users
  import Bcrypt

  /** The registration payload. */
  datatype CreateUserDto = CreateUserDto(email: string, username: string, password: string)

  /** The row the repository inserts: the next sequence value as id, the given
      columns, every other column `null`, both timestamps set to the insert time. */
  function NewRow(id: int, email: Option<string>, username: string, hash: Bcrypt.Hash,
                  nickname: Option<string>, profileImageUrl: Option<string>, now: int): (u: User)
    ensures u.id == id && u.email == email && u.username == username && u.password == hash
    ensures u.nickname == nickname && u.profileImageUrl == profileImageUrl && u.bio.None?
    ensures u.refreshToken.None? && u.refreshTokenExpiresAt.None?
    ensures u.createdAt == now && u.updatedAt == now
  {
    User(id, email, username, hash, nickname, profileImageUrl, None, None, None, now, now)
  }

  /** Inserting a row whose username and email no row holds keeps the table valid. */
  lemma InsertKeepsValid(t: Table, u: User)
    requires TableValid(t) && u.id == t.nextId
    requires !Taken(t, ByUsername(u.username))
    requires u.email.Some? ==> !Taken(t, ByEmail(u.email.value))
    ensures TableValid(Table(t.rows[u.id := u], t.nextId + 1))
  {
  }

  /** `create`: `Conflict` when the email is in use, else `Conflict` when the
      username is in use (the email is checked first); otherwise exactly one row
      is added under the next id, holding the bcrypt hash of the password, and
      the new row is returned without its password. */
  function CreateStep(t: Table, dto: CreateUserDto, salt: int, now: int): (r: (Result<UserView>, Table))
    requires TableValid(t)
    ensures TableValid(r.1)
    ensures Taken(t, ByEmail(dto.email)) ==> r == (Err(Conflict), t)
    ensures !Taken(t, ByEmail(dto.email)) && Taken(t, ByUsername(dto.username)) ==> r == (Err(Conflict), t)
    ensures r.0.Ok? <==> !Taken(t, ByEmail(dto.email)) && !Taken(t, ByUsername(dto.username))
    ensures r.0.Ok? ==>
      && t.nextId in r.1.rows && r.1 == Table(t.rows[t.nextId := r.1.rows[t.nextId]], t.nextId + 1)
      && var u := r.1.rows[t.nextId];
      && u.email == Some(dto.email) && u.username == dto.username
      && u.password == Bcrypt.HashPassword(dto.password, salt)
      && u.nickname.None? && u.refreshToken.None? && u.refreshTokenExpiresAt.None?
      && u == NewRow(t.nextId, Some(dto.email), dto.username, Bcrypt.HashPassword(dto.password, salt), None, None, now)
      && r.0.value == WithoutPassword(u)
  {
    if FindBy(t, ByEmail(dto.email)).Some? then (Err(Conflict), t)
    else if FindBy(t, ByUsername(dto.username)).Some? then (Err(Conflict), t)
    else
      var u := NewRow(t.nextId, Some(dto.email), dto.username, Bcrypt.HashPassword(dto.password, salt), None, None, now);
      InsertKeepsValid(t, u);
      (Ok(WithoutPassword(u)), Table(t.rows[u.id := u], t.nextId + 1))
  }

  /** `createForSignup`: `Conflict` when the username (the sign-up `id`) is in
      use, else `Conflict` when the nickname is in use; otherwise exactly one
      row is added with username = `id`, a null email, the nickname, and the
      image URL or `null` when none (or an empty one) is given. The whole row,
      hash included, is returned. */
  function CreateForSignupStep(t: Table, loginId: string, password: string, nickname: string,
                               profileImageUrl: Option<string>, salt: int, now: int): (r: (Result<User>, Table))
    requires TableValid(t)
    ensures TableValid(r.1)
    ensures Taken(t, ByUsername(loginId)) ==> r == (Err(Conflict), t)
    ensures !Taken(t, ByUsername(loginId)) && Taken(t, ByNickname(nickname)) ==> r == (Err(Conflict), t)
    ensures r.0.Ok? <==> !Taken(t, ByUsername(loginId)) && !Taken(t, ByNickname(nickname))
    ensures r.0.Ok? ==>
      && r.1 == Table(t.rows[t.nextId := r.0.value], t.nextId + 1)
      && r.0.value.id == t.nextId && r.0.value.username == loginId && r.0.value.email.None?
      && r.0.value.nickname == Some(nickname) && r.0.value.profileImageUrl == OrNull(profileImageUrl)
      && r.0.value.password == Bcrypt.HashPassword(password, salt)
      && r.0.value == NewRow(t.nextId, None, loginId, Bcrypt.HashPassword(password, salt), Some(nickname), OrNull(profileImageUrl), now)
  {
    if FindBy(t, ByUsername(loginId)).Some? then (Err(Conflict), t)
    else if FindBy(t, ByNickname(nickname)).Some? then (Err(Conflict), t)
    else
      var u := NewRow(t.nextId, None, loginId, Bcrypt.HashPassword(password, salt), Some(nickname), OrNull(profileImageUrl), now);
      InsertKeepsValid(t, u);
      (Ok(u), Table(t.rows[u.id := u], t.nextId + 1))
  }

  /** `UserCreationService.create` (and `UsersService.create`, which delegates to it). */
  method Create(repo: UserRepository, dto: CreateUserDto, salt: int, now: int) returns (r: Result<UserView>)
    requires repo.Valid()
    modifies repo
    ensures repo.Valid()
    ensures (r, repo.table) == CreateStep(old(repo.table), dto, salt, now)
  {
    var existingUser := FindBy(repo.table, ByEmail(dto.email));
    if existingUser.Some? {
      return Err(Conflict);
    }
    var existingUsername := FindBy(repo.table, ByUsername(dto.username));
    if existingUsername.Some? {
      return Err(Conflict);
    }
    var hashedPassword := Bcrypt.HashPassword(dto.password, salt);
    var user := NewRow(repo.table.nextId, Some(dto.email), dto.username, hashedPassword, None, None, now);
    InsertKeepsValid(repo.table, user);
    repo.table := Table(repo.table.rows[user.id := user], repo.table.nextId + 1);
    r := Ok(WithoutPassword(user));
  }

  /** `UserCreationService.createForSignup` (and the `UsersService` delegate). */
  method CreateForSignup(repo: UserRepository, loginId: string, password: string, nickname: string,
                         profileImageUrl: Option<string>, salt: int, now: int) returns (r: Result<User>)
    requires repo.Valid()
    modifies repo
    ensures repo.Valid()
    ensures (r, repo.table) == CreateForSignupStep(old(repo.table), loginId, password, nickname, profileImageUrl, salt, now)
  {
    var existingUser := FindBy(repo.table, ByUsername(loginId));
    if existingUser.Some? {
      return Err(Conflict);
    }
    var existingNickname := FindBy(repo.table, ByNickname(nickname));
    if existingNickname.Some? {
      return Err(Conflict);
    }
    var hashedPassword := Bcrypt.HashPassword(password, salt);
    var user := NewRow(repo.table.nextId, None, loginId, hashedPassword, Some(nickname), OrNull(profileImageUrl), now);
    InsertKeepsValid(repo.table, user);
    repo.table := Table(repo.table.rows[user.id := user], repo.table.nextId + 1);
    r := Ok(user);
  }
}

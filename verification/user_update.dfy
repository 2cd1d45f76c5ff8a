/**
 * The user-update service: the general `update` (uniqueness checks, password
 * re-hashing, `Object.assign` of the payload, save) and `updateRefreshToken`,
 * the only writer of the refresh-token slot.
 */
module UserUpdate {
  import opened Common
  import opened UserEntity
  import opened Users
  import Bcrypt
  import Jwt

  /** A nullable payload field: the key is absent, present with value
      `undefined`, or present with a value (possibly `null`). */
  datatype Patch<T> = Absent | Undefined | Value(v: T)

  /** The update payload. `email`, `username` and `password` are absent or a
      string; the three profile columns may also be sent as `null` or, by a
      caller that builds the object itself, as an explicit `undefined`. */
  datatype UpdateUserDto = UpdateUserDto(
    email: Option<string>,
    username: Option<string>,
    password: Option<string>,
    nickname: Patch<Option<string>>,
    profileImageUrl: Patch<Option<string>>,
    bio: Patch<Option<string>>)

  /** What validation lets through: an email, a username of at least 3
      characters and a password of at least 6, so none is the empty string. */
  predicate ValidUpdateDto(dto: UpdateUserDto)
  {
    dto.email != Some("") && dto.username != Some("") && dto.password != Some("")
  }

  /** The column value the database keeps: a property set to `undefined` is
      not written. */
  function Stored(p: Patch<Option<string>>, current: Option<string>): Option<string>
  {
    if p.Value? then p.v else current
  }

  /** The property value on the in-memory entity after `Object.assign`, which
      copies an explicit `undefined` too. */
  function InMemory(p: Patch<Option<string>>, current: Option<string>): (r: Option<string>)
    ensures p != Undefined ==> r == Stored(p, current)
    ensures p == Undefined ==> r.None?
  {
    match p
    case Absent => current
    case Undefined => None
    case Value(v) => v
  }

  /** `Object.assign(user, dto)` as it reaches the database, with `password`
      the (already hashed) password column. */
  function Assign(u: User, dto: UpdateUserDto, password: Bcrypt.Hash): (r: User)
    ensures r.id == u.id && r.password == password
    ensures r.email == (if dto.email.Some? then dto.email else u.email)
    ensures r.username == (if dto.username.Some? then dto.username.value else u.username)
    ensures r.nickname == Stored(dto.nickname, u.nickname)
    ensures r.profileImageUrl == Stored(dto.profileImageUrl, u.profileImageUrl)
    ensures r.bio == Stored(dto.bio, u.bio)
    ensures r.refreshToken == u.refreshToken && r.refreshTokenExpiresAt == u.refreshTokenExpiresAt
    ensures r.createdAt == u.createdAt && r.updatedAt == u.updatedAt
  {
    u.(email := if dto.email.Some? then dto.email else u.email,
       username := if dto.username.Some? then dto.username.value else u.username,
       password := password,
       nickname := Stored(dto.nickname, u.nickname),
       profileImageUrl := Stored(dto.profileImageUrl, u.profileImageUrl),
       bio := Stored(dto.bio, u.bio))
  }

  /** The object `update` returns: the saved entity without its password, where
      a profile property assigned `undefined` stays undefined. */
  function ReturnedView(u: User, dto: UpdateUserDto, saved: User): (v: UserView)
  {
    WithoutPassword(saved).(nickname := InMemory(dto.nickname, u.nickname),
                            profileImageUrl := InMemory(dto.profileImageUrl, u.profileImageUrl),
                            bio := InMemory(dto.bio, u.bio))
  }

  /** Changing to an email held by some row. */
  ghost predicate EmailClash(t: Table, u: User, dto: UpdateUserDto)
    requires TableValid(t)
  {
    dto.email.Some? && dto.email != u.email && Taken(t, ByEmail(dto.email.value))
  }

  /** Changing to a username held by some row. */
  ghost predicate UsernameClash(t: Table, u: User, dto: UpdateUserDto)
    requires TableValid(t)
  {
    dto.username.Some? && dto.username.value != u.username && Taken(t, ByUsername(dto.username.value))
  }

  /** `update(id, dto)`: `NotFound` for an unknown id; `Conflict` when the email
      changes to one in use, else when the username changes to one in use; no
      check on nicknames. Otherwise the row becomes the payload assigned onto it
      (a given password stored as its bcrypt hash), saved; no other row changes,
      and the uniqueness constraints still hold. */
  function UpdateStep(t: Table, id: int, dto: UpdateUserDto, salt: int, now: int): (r: (Result<UserView>, Table))
    requires TableValid(t) && ValidUpdateDto(dto)
    ensures TableValid(r.1)
    ensures id !in t.rows ==> r == (Err(NotFound), t)
    ensures id in t.rows && EmailClash(t, t.rows[id], dto) ==> r == (Err(Conflict), t)
    ensures id in t.rows && !EmailClash(t, t.rows[id], dto) && UsernameClash(t, t.rows[id], dto) ==> r == (Err(Conflict), t)
    ensures r.0.Ok? <==> id in t.rows && !EmailClash(t, t.rows[id], dto) && !UsernameClash(t, t.rows[id], dto)
    ensures r.0.Ok? ==>
      && r.1.nextId == t.nextId && r.1.rows.Keys == t.rows.Keys
      && (forall j | j in t.rows && j != id :: r.1.rows[j] == t.rows[j])
      && var hash := if dto.password.Some? then Bcrypt.HashPassword(dto.password.value, salt) else t.rows[id].password;
      && r.1.rows[id] == Save(t.rows[id], Assign(t.rows[id], dto, hash), now)
      && r.0.value == ReturnedView(t.rows[id], dto, r.1.rows[id])
  {
    if id !in t.rows then (Err(NotFound), t)
    else
      var u := t.rows[id];
      if dto.email.Some? && dto.email != u.email && FindBy(t, ByEmail(dto.email.value)).Some? then (Err(Conflict), t)
      else if dto.username.Some? && dto.username.value != u.username && FindBy(t, ByUsername(dto.username.value)).Some? then (Err(Conflict), t)
      else
        var hash := if dto.password.Some? then Bcrypt.HashPassword(dto.password.value, salt) else u.password;
        var saved := Save(u, Assign(u, dto, hash), now);
        var t' := Table(t.rows[id := saved], t.nextId);
        assert TableValid(t') by { UpdateKeepsValid(t, id, saved); }
        (Ok(ReturnedView(u, dto, saved)), t')
  }

  /** Replacing a row by one with the same id, whose username and email are
      either its own or held by no row, keeps the table valid. */
  lemma UpdateKeepsValid(t: Table, id: int, v: User)
    requires TableValid(t) && id in t.rows && v.id == id
    requires v.username == t.rows[id].username || !Taken(t, ByUsername(v.username))
    requires v.email.Some? ==> v.email == t.rows[id].email || !Taken(t, ByEmail(v.email.value))
    ensures TableValid(Table(t.rows[id := v], t.nextId))
  {
  }

  /** Without an email or username in the payload, `update` never reports a
      conflict, whatever the nickname: it fails only for an unknown id. */
  lemma UpdateIgnoresNicknames(t: Table, id: int, dto: UpdateUserDto, salt: int, now: int)
    requires TableValid(t) && dto.email.None? && dto.username.None? && dto.password.None?
    ensures UpdateStep(t, id, dto, salt, now).0.Ok? <==> id in t.rows
    ensures UpdateStep(t, id, dto, salt, now).0.Err? ==> UpdateStep(t, id, dto, salt, now).0.error == NotFound
  {
  }

  /** `UserUpdateService.update` (and the `UsersService` delegate). */
  method Update(repo: UserRepository, id: int, dto: UpdateUserDto, salt: int, now: int) returns (r: Result<UserView>)
    requires repo.Valid() && ValidUpdateDto(dto)
    modifies repo
    ensures repo.Valid()
    ensures (r, repo.table) == UpdateStep(old(repo.table), id, dto, salt, now)
  {
    if id !in repo.table.rows {
      return Err(NotFound);
    }
    var user := repo.table.rows[id];
    if dto.email.Some? && dto.email != user.email {
      var existingUser := FindBy(repo.table, ByEmail(dto.email.value));
      if existingUser.Some? {
        return Err(Conflict);
      }
    }
    if dto.username.Some? && dto.username.value != user.username {
      var existingUsername := FindBy(repo.table, ByUsername(dto.username.value));
      if existingUsername.Some? {
        return Err(Conflict);
      }
    }
    var password := user.password;
    if dto.password.Some? {
      password := Bcrypt.HashPassword(dto.password.value, salt);
    }
    var savedUser := Save(user, Assign(user, dto, password), now);
    UpdateKeepsValid(repo.table, id, savedUser);
    repo.table := repo.table.(rows := repo.table.rows[id := savedUser]);
    r := Ok(ReturnedView(user, dto, savedUser));
  }

  /** The stored expiry column for a `Date` argument (`null` stays `null`). */
  function ExpiryColumn(e: Option<Instant>): Option<int>
  {
    if e.Some? && e.value.At? then Some(e.value.ms) else None
  }

  /** `updateRefreshToken(userId, token, expiresAt)`: `NotFound` for an unknown
      id; a database error when the expiry is an invalid date; otherwise both
      slot columns take exactly the given values (possibly `null`), the
      update-date column moves only if the slot changed, and nothing else in
      the table changes. */
  function WriteSlot(t: Table, id: int, token: Option<Jwt.Token>, expiresAt: Option<Instant>, now: int): (r: Result<Table>)
    requires TableValid(t)
    ensures id !in t.rows ==> r == Err(NotFound)
    ensures id in t.rows && expiresAt == Some(InvalidDate) ==> r == Err(StorageFailure)
    ensures r.Ok? <==> id in t.rows && expiresAt != Some(InvalidDate)
    ensures r.Ok? ==>
      && TableValid(r.value) && r.value.nextId == t.nextId && r.value.rows.Keys == t.rows.Keys
      && (forall j | j in t.rows && j != id :: r.value.rows[j] == t.rows[j])
      && r.value.rows[id].refreshToken == token
      && r.value.rows[id].refreshTokenExpiresAt == ExpiryColumn(expiresAt)
      && r.value.rows[id] == t.rows[id].(refreshToken := token,
                                         refreshTokenExpiresAt := ExpiryColumn(expiresAt),
                                         updatedAt := r.value.rows[id].updatedAt)
  {
    if id !in t.rows then Err(NotFound)
    else if expiresAt == Some(InvalidDate) then Err(StorageFailure)
    else
      var u := t.rows[id];
      var saved := Save(u, u.(refreshToken := token, refreshTokenExpiresAt := ExpiryColumn(expiresAt)), now);
      UpdateKeepsValid(t, id, saved);
      Ok(Table(t.rows[id := saved], t.nextId))
  }

  /** Clearing a slot always succeeds for a stored id. */
  lemma ClearSlotSucceeds(t: Table, id: int, now: int)
    requires TableValid(t) && id in t.rows
    ensures WriteSlot(t, id, None, None, now).Ok?
    ensures WriteSlot(t, id, None, None, now).value.rows[id].refreshToken.None?
  {
  }

  /** `UserUpdateService.updateRefreshToken` (and the `UsersService` delegate):
      the loaded row's two slot properties are overwritten, then it is saved. */
  method UpdateRefreshToken(repo: UserRepository, userId: int, token: Option<Jwt.Token>,
                            expiresAt: Option<Instant>, now: int) returns (r: Result<()>)
    requires repo.Valid()
    modifies repo
    ensures repo.Valid()
    ensures match WriteSlot(old(repo.table), userId, token, expiresAt, now)
            case Ok(t') => r == Ok(()) && repo.table == t'
            case Err(e) => r == Err(e) && repo.table == old(repo.table)
  {
    if userId !in repo.table.rows {
      return Err(NotFound);
    }
    var user := repo.table.rows[userId];
    var edited := user.(refreshToken := token, refreshTokenExpiresAt := ExpiryColumn(expiresAt));
    if expiresAt == Some(InvalidDate) {
      return Err(StorageFailure);
    }
    var saved := Save(user, edited, now);
    UpdateKeepsValid(repo.table, userId, saved);
    repo.table := repo.table.(rows := repo.table.rows[userId := saved]);
    r := Ok(());
  }
}

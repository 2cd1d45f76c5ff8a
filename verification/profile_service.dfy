/**
 * The profile service: the profile projection of a user (no password, no
 * refresh slot) and the profile update, which goes through the general user
 * update with only the three profile fields.
 */
module ProfileService {
  import opened Common
  import opened UserEntity
  import opened Users
  import opened UserUpdate

  /** The profile as returned to the client. */
  datatype Profile = Profile(
    id: int,
    username: string,
    nickname: Option<string>,
    profileImageUrl: Option<string>,
    bio: Option<string>,
    email: Option<string>,
    createdAt: int,
    updatedAt: int)

  /** The projection both operations build, with `bio || null`. */
  function ProfileOf(v: UserView): (p: Profile)
    ensures p.bio.Some? ==> p.bio.value != ""
  {
    Profile(v.id, v.username, v.nickname, v.profileImageUrl, OrNull(v.bio), v.email, v.createdAt, v.updatedAt)
  }

  /** `getProfile(userId)`: `NotFound` for an unknown id; otherwise the stored
      row's public columns, `bio` null when empty. */
  function GetProfile(t: Table, userId: int): (r: Result<Profile>)
    requires TableValid(t)
    ensures r.Err? <==> userId !in t.rows
    ensures r.Err? ==> r.error == NotFound
    ensures r.Ok? ==>
      var u := t.rows[userId];
      && r.value.id == userId && r.value.username == u.username && r.value.email == u.email
      && r.value.nickname == u.nickname && r.value.profileImageUrl == u.profileImageUrl
      && r.value.bio == OrNull(u.bio)
      && r.value.createdAt == u.createdAt && r.value.updatedAt == u.updatedAt
  {
    match FindOne(t, userId)
    case Err(e) => Err(e)
    case Ok(user) => Ok(ProfileOf(user))
  }

  /** The profile payload: each field absent (`None`), `null` (`Some(None)`)
      or a string. */
  datatype UpdateProfileDto = UpdateProfileDto(
    nickname: Option<Option<string>>,
    profileImageUrl: Option<Option<string>>,
    bio: Option<Option<string>>)

  /** A property written as `field: updateData.field`: always present, and
      `undefined` when the payload did not have it. */
  function Explicit(f: Option<Option<string>>): (p: Patch<Option<string>>)
    ensures p != Absent
    ensures p.Value? <==> f.Some?
    ensures p.Value? ==> p.v == f.value
  {
    if f.Some? then Value(f.value) else Undefined
  }

  /** The update payload `updateProfile` builds: the three profile fields only,
      each written out explicitly. */
  function Forwarded(dto: UpdateProfileDto): (d: UpdateUserDto)
    ensures ValidUpdateDto(d) && d.email.None? && d.username.None? && d.password.None?
    ensures d.nickname == Explicit(dto.nickname) && d.profileImageUrl == Explicit(dto.profileImageUrl) && d.bio == Explicit(dto.bio)
  {
    UpdateUserDto(None, None, None, Explicit(dto.nickname), Explicit(dto.profileImageUrl), Explicit(dto.bio))
  }

  /** `updateProfile(userId, dto)` as written. It fails only for an unknown id
      (`NotFound`); no email or username conflict and no password hashing can
      happen, and the password, email and username columns keep their values.
      A sent field is stored; a field not sent keeps its stored value, but, being
      assigned `undefined` in memory, comes back as `null` in the response. The
      other response fields are those of the saved row, `bio` null when
      empty. */
  function UpdateProfileStep(t: Table, userId: int, dto: UpdateProfileDto, now: int): (r: (Result<Profile>, Table))
    requires TableValid(t)
    ensures TableValid(r.1)
    ensures r.0.Err? <==> userId !in t.rows
    ensures r.0.Err? ==> r.0.error == NotFound && r.1 == t
    ensures r.0.Ok? ==>
      && r.1.rows.Keys == t.rows.Keys && r.1.nextId == t.nextId
      && var u := t.rows[userId];
      && var v := r.1.rows[userId];
      && (forall j | j in t.rows && j != userId :: r.1.rows[j] == t.rows[j])
      && v.password == u.password && v.email == u.email && v.username == u.username
      && v.nickname == (if dto.nickname.Some? then dto.nickname.value else u.nickname)
      && v.profileImageUrl == (if dto.profileImageUrl.Some? then dto.profileImageUrl.value else u.profileImageUrl)
      && v.bio == (if dto.bio.Some? then dto.bio.value else u.bio)
      && v == u.(nickname := v.nickname, profileImageUrl := v.profileImageUrl, bio := v.bio, updatedAt := v.updatedAt)
      && r.0.value.nickname == (if dto.nickname.Some? then dto.nickname.value else None)
      && r.0.value.profileImageUrl == (if dto.profileImageUrl.Some? then dto.profileImageUrl.value else None)
      && r.0.value.bio == (if dto.bio.Some? then OrNull(dto.bio.value) else None)
      && r.0.value == ProfileOf(WithoutPassword(v)).(nickname := r.0.value.nickname,
                                                     profileImageUrl := r.0.value.profileImageUrl,
                                                     bio := r.0.value.bio)
  {
    UpdateIgnoresNicknames(t, userId, Forwarded(dto), 0, now);
    var (updated, t') := UpdateStep(t, userId, Forwarded(dto), 0, now);
    match updated
    case Err(e) => (Err(e), t')
    case Ok(updatedUser) => (Ok(ProfileOf(updatedUser)), t')
  }

  /** `ProfileService.updateProfile`. */
  method UpdateProfile(repo: UserRepository, userId: int, dto: UpdateProfileDto, now: int) returns (r: Result<Profile>)
    requires repo.Valid()
    modifies repo
    ensures repo.Valid()
    ensures (r, repo.table) == UpdateProfileStep(old(repo.table), userId, dto, now)
  {
    var updatedUser := Update(repo, userId, Forwarded(dto), 0, now);
    if updatedUser.Err? {
      return Err(updatedUser.error);
    }
    r := Ok(ProfileOf(updatedUser.value));
  }

  /** A profile update that leaves out the nickname reports no nickname, while
      the stored nickname is unchanged: the response disagrees with the row. */
  lemma UpdateProfileHidesUnsentFields(t: Table, userId: int, nickname: string, now: int)
    requires TableValid(t) && userId in t.rows && t.rows[userId].nickname == Some(nickname)
    ensures var r := UpdateProfileStep(t, userId, UpdateProfileDto(None, None, Some(Some("hello"))), now);
            && r.0.Ok?
            && r.0.value.nickname.None?
            && r.1.rows[userId].nickname == Some(nickname)
            && r.0.value.nickname != r.1.rows[userId].nickname
  {
  }

  /** The payload with only the fields the client sent. */
  function PresentOnly(f: Option<Option<string>>): (p: Patch<Option<string>>)
    ensures p != Undefined
    ensures p.Value? <==> f.Some?
    ensures p.Value? ==> p.v == f.value
  {
    if f.Some? then Value(f.value) else Absent
  }

  /** `updateProfile` forwarding only the fields that were sent: it fails and
      stores exactly as the written version does, and its response is the
      profile of the row as stored afterwards. */
  function UpdateProfileCorrectedStep(t: Table, userId: int, dto: UpdateProfileDto, now: int): (r: (Result<Profile>, Table))
    requires TableValid(t)
    ensures TableValid(r.1)
    ensures r.0.Err? <==> userId !in t.rows
    ensures r.0.Err? ==> r.0.error == NotFound && r.1 == t
    ensures r.0.Ok? ==> userId in r.1.rows && r.0.value == ProfileOf(WithoutPassword(r.1.rows[userId]))
    ensures r.1 == UpdateProfileStep(t, userId, dto, now).1
  {
    var d := UpdateUserDto(None, None, None, PresentOnly(dto.nickname), PresentOnly(dto.profileImageUrl), PresentOnly(dto.bio));
    UpdateIgnoresNicknames(t, userId, d, 0, now);
    var (updated, t') := UpdateStep(t, userId, d, 0, now);
    match updated
    case Err(e) => (Err(e), t')
    case Ok(updatedUser) => (Ok(ProfileOf(updatedUser)), t')
  }
}

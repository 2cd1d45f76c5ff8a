/**
 * The authentication service: credential check, availability checks,
 * registration, and the refresh-token session state machine (login writes the
 * user's single slot, refresh requires the presented token to be the one in the
 * slot and not expired, logout clears the slot).
 */
module AuthService {
  import opened Common
  import opened JsText
  import opened Jwt
  import Bcrypt
  import opened UserEntity
  import opened Users
  import opened TokenService
  import opened UserCreation
  import opened UserUpdate

  /** `validateUser(id, password)`: the password-free row whose username is
      `id`, when the password matches its hash; the same `None` for an unknown
      username and for a wrong password. */
  function ValidateUser(t: Table, loginId: string, password: string): (r: Option<UserView>)
    requires TableValid(t)
    ensures r.Some? <==> exists j | j in t.rows :: t.rows[j].username == loginId && Bcrypt.Compare(password, t.rows[j].password)
    ensures r.Some? ==> r.value.id in t.rows && r.value == WithoutPassword(t.rows[r.value.id]) && r.value.username == loginId
  {
    match FindBy(t, ByUsername(loginId))
    case None => None
    case Some(user) =>
      if !Bcrypt.Compare(password, user.password) then None
      else
        assert forall j | j in t.rows && t.rows[j].username == loginId :: j == user.id;
        Some(WithoutPassword(user))
  }

  /** A stored user is accepted exactly with the passwords that have the
      bcrypt key stream of the one it registered with; when both are at most
      72 bytes long and hold no NUL character, that is its own password and no
      other. */
  lemma ValidateUserExact(t: Table, j: int, password: string, attempt: string, salt: int)
    requires TableValid(t) && j in t.rows && t.rows[j].password == Bcrypt.HashPassword(password, salt)
    ensures ValidateUser(t, t.rows[j].username, attempt).Some? <==> Bcrypt.Key(attempt) == Bcrypt.Key(password)
    ensures |Bcrypt.Utf8(password)| <= Bcrypt.MaxKeyBytes && |Bcrypt.Utf8(attempt)| <= Bcrypt.MaxKeyBytes
            && '\0' !in password && '\0' !in attempt ==>
              (ValidateUser(t, t.rows[j].username, attempt).Some? <==> attempt == password)
    ensures ValidateUser(t, t.rows[j].username, attempt).Some? ==> ValidateUser(t, t.rows[j].username, attempt).value.id == j
  {
    FindByUnique(t, j, ByUsername(t.rows[j].username));
    Bcrypt.CompareExact(password, attempt, salt);
  }

  /** `checkUsernameAvailability`: unavailable when missing or blank after
      trimming, otherwise available exactly when no row has that username. */
  function CheckUsernameAvailability(t: Table, username: Option<string>): (available: bool)
    requires TableValid(t)
    ensures available <==> username.Some? && !IsBlank(username.value) && !Taken(t, ByUsername(username.value))
  {
    if !Truthy(username) || IsBlank(username.value) then false
    else FindBy(t, ByUsername(username.value)).None?
  }

  /** `checkNicknameAvailability`: the same rule on nicknames. */
  function CheckNicknameAvailability(t: Table, nickname: Option<string>): (available: bool)
    requires TableValid(t)
    ensures available <==> nickname.Some? && !IsBlank(nickname.value) && !Taken(t, ByNickname(nickname.value))
  {
    if !Truthy(nickname) || IsBlank(nickname.value) then false
    else FindBy(t, ByNickname(nickname.value)).None?
  }

  /** What the availability checks promise: when both names are reported
      available, a sign-up with them does not fail. */
  lemma AvailableNamesSignUp(t: Table, loginId: string, password: string, nickname: string,
                             profileImageUrl: Option<string>, salt: int, now: int)
    requires TableValid(t)
    requires CheckUsernameAvailability(t, Some(loginId)) && CheckNicknameAvailability(t, Some(nickname))
    ensures CreateForSignupStep(t, loginId, password, nickname, profileImageUrl, salt, now).0.Ok?
  {
  }

  /** `register`'s result: the new user and an access token for it. */
  datatype RegisterOutput = RegisterOutput(accessToken: Token, user: UserView)

  /** `register`: creation errors propagate unchanged; otherwise an access token
      with `{ email, sub: id, username }` of the created user (the email as
      stored, no `|| null` here). The row is created before the token is
      signed, so when signing throws the new row stays and the signing error
      propagates. */
  function RegisterStep(t: Table, dto: CreateUserDto, salt: int, now: int, cfg: TokenConfig): (r: (Result<RegisterOutput>, Table))
    requires TableValid(t)
    ensures TableValid(r.1)
    ensures r.1 == CreateStep(t, dto, salt, now).1
    ensures r.0.Ok? <==> CreateStep(t, dto, salt, now).0.Ok? && cfg.accessTtl.Some?
    ensures CreateStep(t, dto, salt, now).0.Err? ==> r == (Err(Conflict), t)
    ensures CreateStep(t, dto, salt, now).0.Ok? && cfg.accessTtl.None? ==> r.0 == Err(SigningFailure) && r.1 != t
    ensures r.0.Ok? ==>
      && r.0.value.user.id == t.nextId && r.0.value.user.username == dto.username
      && r.0.value.user == WithoutPassword(r.1.rows[t.nextId])
      && r.0.value.accessToken.Signed?
      && r.0.value.accessToken.claims == AccessClaims(t.nextId, dto.username, Some(dto.email))
  {
    var (created, t') := CreateStep(t, dto, salt, now);
    match created
    case Err(e) => (Err(e), t')
    case Ok(user) =>
      var payload := AccessClaims(user.id, user.username, user.email);
      match GenerateAccessToken(payload, now, cfg)
      case None => (Err(SigningFailure), t')
      case Some(accessToken) => (Ok(RegisterOutput(accessToken, user)), t')
  }

  /** `AuthService.register`. */
  method Register(repo: UserRepository, dto: CreateUserDto, salt: int, now: int, cfg: TokenConfig) returns (r: Result<RegisterOutput>)
    requires repo.Valid()
    modifies repo
    ensures repo.Valid()
    ensures (r, repo.table) == RegisterStep(old(repo.table), dto, salt, now, cfg)
  {
    var user := Create(repo, dto, salt, now);
    if user.Err? {
      return Err(user.error);
    }
    var payload := AccessClaims(user.value.id, user.value.username, user.value.email);
    var accessToken := GenerateAccessToken(payload, now, cfg);
    if accessToken.None? {
      return Err(SigningFailure);
    }
    r := Ok(RegisterOutput(accessToken.value, user.value));
  }

  /** The sign-up form: login id, password, nickname, optional image URL. */
  datatype SignupDto = SignupDto(id: string, password: string, nickname: string, profileImageUrl: Option<string>)

  /** `signup`: `true` once the row is created; a conflict propagates with the
      table unchanged. A user who signed up is accepted by `validateUser`
      with the login id and password of the sign-up. */
  function SignupStep(t: Table, dto: SignupDto, salt: int, now: int): (r: (Result<bool>, Table))
    requires TableValid(t)
    ensures TableValid(r.1)
    ensures r.0.Ok? <==> !Taken(t, ByUsername(dto.id)) && !Taken(t, ByNickname(dto.nickname))
    ensures r.0.Err? ==> r == (Err(Conflict), t)
    ensures r.0.Ok? ==>
      && r.0.value
      && r.1 == CreateForSignupStep(t, dto.id, dto.password, dto.nickname, dto.profileImageUrl, salt, now).1
      && ValidateUser(r.1, dto.id, dto.password).Some?
      && ValidateUser(r.1, dto.id, dto.password).value.id == t.nextId
  {
    var (created, t') := CreateForSignupStep(t, dto.id, dto.password, dto.nickname, dto.profileImageUrl, salt, now);
    match created
    case Err(e) => (Err(e), t')
    case Ok(user) =>
      ValidateUserExact(t', user.id, dto.password, dto.password, salt);
      (Ok(true), t')
  }

  /** `AuthService.signup`. */
  method Signup(repo: UserRepository, dto: SignupDto, salt: int, now: int) returns (r: Result<bool>)
    requires repo.Valid()
    modifies repo
    ensures repo.Valid()
    ensures (r, repo.table) == SignupStep(old(repo.table), dto, salt, now)
  {
    var created := CreateForSignup(repo, dto.id, dto.password, dto.nickname, dto.profileImageUrl, salt, now);
    if created.Err? {
      return Err(created.error);
    }
    r := Ok(true);
  }

  /** The user part of `login`'s result: no password and no refresh slot. */
  datatype LoginUser = LoginUser(
    id: int,
    username: string,
    nickname: Option<string>,
    profileImageUrl: Option<string>,
    email: Option<string>,
    createdAt: int,
    updatedAt: int)

  datatype LoginOutput = LoginOutput(accessToken: Token, refreshToken: Token, user: LoginUser)

  /** The response projection of `login`, with empty strings turned to `null`. */
  function LoginUserOf(user: UserView): (p: LoginUser)
    ensures p.id == user.id && p.username == user.username
    ensures p.nickname == OrNull(user.nickname) && p.profileImageUrl == OrNull(user.profileImageUrl)
    ensures p.email == OrNull(user.email)
  {
    LoginUser(user.id, user.username, OrNull(user.nickname), OrNull(user.profileImageUrl), OrNull(user.email),
              user.createdAt, user.updatedAt)
  }

  /** `login(user)`: every failure (a lifetime rejected by the signing
      library, the slot write failing for an unknown id or an invalid expiry)
      is `BadRequest` with the table unchanged. On success the user's slot
      holds exactly the returned refresh token and the expiry computed for
      `now`, no other row changes, and the access token carries
      `{ sub, username, email || null }`. */
  function LoginStep(t: Table, user: UserView, now: int, cfg: TokenConfig): (r: (Result<LoginOutput>, Table))
    requires TableValid(t)
    ensures TableValid(r.1)
    ensures r.0.Err? ==> r.0.error == BadRequest && r.1 == t
    ensures r.0.Ok? <==> cfg.accessTtl.Some? && cfg.refreshTtl.Some? && user.id in t.rows && CalculateRefreshTokenExpiresAt(now, cfg).At?
    ensures r.0.Ok? ==>
      && r.1.rows.Keys == t.rows.Keys && r.1.nextId == t.nextId
      && (forall j | j in t.rows && j != user.id :: r.1.rows[j] == t.rows[j])
      && r.1.rows[user.id].refreshToken == Some(r.0.value.refreshToken)
      && r.1.rows[user.id].refreshTokenExpiresAt == Some(CalculateRefreshTokenExpiresAt(now, cfg).ms)
      && r.1.rows[user.id] == t.rows[user.id].(refreshToken := r.1.rows[user.id].refreshToken,
                                               refreshTokenExpiresAt := r.1.rows[user.id].refreshTokenExpiresAt,
                                               updatedAt := r.1.rows[user.id].updatedAt)
      && r.0.value.refreshToken == GenerateRefreshToken(user.id, now, cfg).value
      && r.0.value.accessToken == GenerateAccessToken(AccessClaims(user.id, user.username, OrNull(user.email)), now, cfg).value
      && r.0.value.user == LoginUserOf(user)
  {
    match GenerateAccessToken(AccessClaims(user.id, user.username, OrNull(user.email)), now, cfg)
    case None => (Err(BadRequest), t)
    case Some(accessToken) =>
      match GenerateRefreshToken(user.id, now, cfg)
      case None => (Err(BadRequest), t)
      case Some(refreshToken) =>
        match WriteSlot(t, user.id, Some(refreshToken), Some(CalculateRefreshTokenExpiresAt(now, cfg)), now)
        case Err(_) => (Err(BadRequest), t)
        case Ok(t') => (Ok(LoginOutput(accessToken, refreshToken, LoginUserOf(user))), t')
  }

  /** `AuthService.login`. */
  method Login(repo: UserRepository, user: UserView, now: int, cfg: TokenConfig) returns (r: Result<LoginOutput>)
    requires repo.Valid()
    modifies repo
    ensures repo.Valid()
    ensures (r, repo.table) == LoginStep(old(repo.table), user, now, cfg)
  {
    var payload := AccessClaims(user.id, user.username, OrNull(user.email));
    var accessToken := GenerateAccessToken(payload, now, cfg);
    if accessToken.None? {
      return Err(BadRequest);
    }
    var refreshToken := GenerateRefreshToken(user.id, now, cfg);
    if refreshToken.None? {
      return Err(BadRequest);
    }
    var refreshTokenExpiresAt := CalculateRefreshTokenExpiresAt(now, cfg);
    var written := UpdateRefreshToken(repo, user.id, refreshToken, Some(refreshTokenExpiresAt), now);
    if written.Err? {
      return Err(BadRequest);
    }
    r := Ok(LoginOutput(accessToken.value, refreshToken.value, LoginUserOf(user)));
  }

  /** The presented token is a valid refresh token whose subject exists and
      whose slot holds exactly that token. */
  predicate SlotHolds(t: Table, token: Token, now: int)
  {
    && VerifyRefreshToken(token, now).Some?
    && VerifyRefreshToken(token, now).value.sub in t.rows
    && t.rows[VerifyRefreshToken(token, now).value.sub].refreshToken == Some(token)
  }

  /** A non-null stored expiry strictly before `now`. */
  predicate SlotExpired(u: User, now: int)
  {
    u.refreshTokenExpiresAt.Some? && now > u.refreshTokenExpiresAt.value
  }

  /** `refreshAccessToken(token)`: every failure is `Unauthorized`. A token
      that does not verify as a refresh token, or whose subject is unknown, or
      that is not the one in the subject's slot leaves the table as it is. A
      matching token whose stored expiry has passed has the slot cleared
      before the rejection. Otherwise a new access token for the stored
      `{ sub, username, email || null }` is issued (a signing failure is
      `Unauthorized` too) and the table is untouched. */
  function RefreshStep(t: Table, token: Token, now: int, cfg: TokenConfig): (r: (Result<Token>, Table))
    requires TableValid(t)
    ensures TableValid(r.1)
    ensures r.0.Err? ==> r.0.error == Unauthorized
    ensures !SlotHolds(t, token, now) ==> r == (Err(Unauthorized), t)
    ensures r.0.Ok? <==> SlotHolds(t, token, now) && !SlotExpired(t.rows[token.claims.sub], now) && cfg.accessTtl.Some?
    ensures SlotHolds(t, token, now) && !SlotExpired(t.rows[token.claims.sub], now) ==> r.1 == t
    ensures SlotHolds(t, token, now) && SlotExpired(t.rows[token.claims.sub], now) ==>
      && r.1.rows.Keys == t.rows.Keys && r.1.nextId == t.nextId
      && (forall j | j in t.rows && j != token.claims.sub :: r.1.rows[j] == t.rows[j])
      && r.1.rows[token.claims.sub] == t.rows[token.claims.sub].(refreshToken := None, refreshTokenExpiresAt := None,
                                                                 updatedAt := r.1.rows[token.claims.sub].updatedAt)
    ensures r.0.Ok? ==>
      && r.1 == t
      && var u := t.rows[token.claims.sub];
      && r.0.value == GenerateAccessToken(AccessClaims(u.id, u.username, OrNull(u.email)), now, cfg).value
  {
    match VerifyRefreshToken(token, now)
    case None => (Err(Unauthorized), t)
    case Some(payload) =>
      match FindOne(t, payload.sub)
      case Err(_) => (Err(Unauthorized), t)
      case Ok(user) =>
        if user.refreshToken != Some(token) then (Err(Unauthorized), t)
        else if user.refreshTokenExpiresAt.Some? && now > user.refreshTokenExpiresAt.value then
          (Err(Unauthorized), WriteSlot(t, payload.sub, None, None, now).value)
        else
          match GenerateAccessToken(AccessClaims(user.id, user.username, OrNull(user.email)), now, cfg)
          case None => (Err(Unauthorized), t)
          case Some(accessToken) => (Ok(accessToken), t)
  }

  /** `AuthService.refreshAccessToken`. */
  method RefreshAccessToken(repo: UserRepository, refreshToken: Token, now: int, cfg: TokenConfig) returns (r: Result<Token>)
    requires repo.Valid()
    modifies repo
    ensures repo.Valid()
    ensures (r, repo.table) == RefreshStep(old(repo.table), refreshToken, now, cfg)
  {
    var payload := VerifyRefreshToken(refreshToken, now);
    if payload.None? {
      return Err(Unauthorized);
    }
    var user := FindOne(repo.table, payload.value.sub);
    if user.Err? || user.value.refreshToken != Some(refreshToken) {
      return Err(Unauthorized);
    }
    if user.value.refreshTokenExpiresAt.Some? && now > user.value.refreshTokenExpiresAt.value {
      var _ := UpdateRefreshToken(repo, payload.value.sub, None, None, now);
      return Err(Unauthorized);
    }
    var newPayload := AccessClaims(user.value.id, user.value.username, OrNull(user.value.email));
    var accessToken := GenerateAccessToken(newPayload, now, cfg);
    if accessToken.None? {
      return Err(Unauthorized);
    }
    r := Ok(accessToken.value);
  }

  /** JavaScript truthiness of the token argument: only the empty string is falsy. */
  predicate TokenTruthy(token: Option<Token>)
  {
    token.Some? && token.value != Unsigned("")
  }

  /** `logout(userId?, refreshToken?)`. A non-zero `userId` selects that user
      without any token check; otherwise a truthy token must pass the same
      slot check as refresh (`Unauthorized` if not; its expiry is not looked
      at); with neither, `BadRequest`. The selected user's slot is then
      cleared; an unknown `userId` gives `NotFound`. Every failure leaves the
      table unchanged; a success changes only the two slot columns of the
      selected user. */
  function LogoutStep(t: Table, userId: Option<int>, token: Option<Token>, now: int): (r: (Result<()>, Table))
    requires TableValid(t)
    ensures TableValid(r.1)
    ensures r.0.Err? ==> r.1 == t
    ensures (userId.None? || userId.value == 0) && !TokenTruthy(token) ==> r.0 == Err(BadRequest)
    ensures userId.Some? && userId.value != 0 ==>
      (r.0.Ok? <==> userId.value in t.rows) && (r.0.Err? ==> r.0.error == NotFound)
    ensures (userId.None? || userId.value == 0) && TokenTruthy(token) ==>
      (r.0.Ok? <==> SlotHolds(t, token.value, now)) && (r.0.Err? ==> r.0.error == Unauthorized)
    ensures r.0.Ok? ==>
      var target := if userId.Some? && userId.value != 0 then userId.value else token.value.claims.sub;
      && r.1.rows.Keys == t.rows.Keys && r.1.nextId == t.nextId
      && (forall j | j in t.rows && j != target :: r.1.rows[j] == t.rows[j])
      && r.1.rows[target] == t.rows[target].(refreshToken := None, refreshTokenExpiresAt := None,
                                             updatedAt := r.1.rows[target].updatedAt)
  {
    var target: Result<int> :=
      if userId.Some? && userId.value != 0 then Ok(userId.value)
      else if TokenTruthy(token) then
        match VerifyRefreshToken(token.value, now)
        case None => Err(Unauthorized)
        case Some(payload) =>
          match FindOne(t, payload.sub)
          case Err(_) => Err(Unauthorized)
          case Ok(user) => if user.refreshToken != Some(token.value) then Err(Unauthorized) else Ok(user.id)
      else Err(BadRequest);
    match target
    case Err(e) => (Err(e), t)
    case Ok(id) =>
      match WriteSlot(t, id, None, None, now)
      case Err(e) => (Err(e), t)
      case Ok(t') => (Ok(()), t')
  }

  /** `AuthService.logout`. The check that the selected id is truthy before the
      slot is cleared always passes (a non-zero `userId`, or a stored id, which
      is at least 1), so its `Unauthorized` branch is not reachable. */
  method Logout(repo: UserRepository, userId: Option<int>, refreshToken: Option<Token>, now: int) returns (r: Result<()>)
    requires repo.Valid()
    modifies repo
    ensures repo.Valid()
    ensures (r, repo.table) == LogoutStep(old(repo.table), userId, refreshToken, now)
  {
    var targetUserId: Option<int> := None;
    if userId.Some? && userId.value != 0 {
      targetUserId := userId;
    } else if TokenTruthy(refreshToken) {
      var payload := VerifyRefreshToken(refreshToken.value, now);
      if payload.None? {
        return Err(Unauthorized);
      }
      var user := FindOne(repo.table, payload.value.sub);
      if user.Err? || user.value.refreshToken != Some(refreshToken.value) {
        return Err(Unauthorized);
      }
      targetUserId := Some(user.value.id);
    } else {
      return Err(BadRequest);
    }
    r := UpdateRefreshToken(repo, targetUserId.value, None, None, now);
  }

  /** A refresh token that met an expired slot cannot be used again: the slot
      was cleared, so every later refresh with it is rejected. */
  lemma {:induction false} ExpiredTokenStaysRejected(t: Table, token: Token, now: int, later: int, cfg: TokenConfig)
    requires TableValid(t) && SlotHolds(t, token, now) && SlotExpired(t.rows[token.claims.sub], now)
    ensures RefreshStep(t, token, now, cfg).0 == Err(Unauthorized)
    ensures RefreshStep(RefreshStep(t, token, now, cfg).1, token, later, cfg).0 == Err(Unauthorized)
  {
    var t1 := RefreshStep(t, token, now, cfg).1;
    assert !SlotHolds(t1, token, later);
  }

  /** After a successful logout with a refresh token, that token no longer
      refreshes, at any time. */
  lemma {:induction false} LogoutRevokes(t: Table, token: Token, now: int, later: int, cfg: TokenConfig)
    requires TableValid(t) && LogoutStep(t, None, Some(token), now).0.Ok?
    ensures RefreshStep(LogoutStep(t, None, Some(token), now).1, token, later, cfg).0 == Err(Unauthorized)
  {
    var t1 := LogoutStep(t, None, Some(token), now).1;
    assert !SlotHolds(t1, token, later);
  }

  /** One session slot per user: after a second login at a later second, the
      token of the first login is different from the new one and is rejected. */
  lemma {:induction false} LaterLoginSupersedes(t: Table, user: UserView, now1: int, now2: int, later: int, cfg: TokenConfig)
    requires TableValid(t)
    requires LoginStep(t, user, now1, cfg).0.Ok?
    requires LoginStep(LoginStep(t, user, now1, cfg).1, user, now2, cfg).0.Ok?
    requires Seconds(now1) != Seconds(now2)
    ensures var first := LoginStep(t, user, now1, cfg);
            var second := LoginStep(first.1, user, now2, cfg);
            && first.0.value.refreshToken != second.0.value.refreshToken
            && RefreshStep(second.1, first.0.value.refreshToken, later, cfg).0 == Err(Unauthorized)
  {
    var first := LoginStep(t, user, now1, cfg);
    var second := LoginStep(first.1, user, now2, cfg);
    var r1 := first.0.value.refreshToken;
    assert r1.issuedAt != second.0.value.refreshToken.issuedAt;
    assert !SlotHolds(second.1, r1, later);
  }

  /** An access token, even a valid one, is never accepted by refresh. */
  lemma AccessTokenCannotRefresh(t: Table, user: UserView, issued: int, now: int, cfg: TokenConfig)
    requires TableValid(t) && cfg.accessTtl.Some?
    ensures var access := GenerateAccessToken(AccessClaims(user.id, user.username, OrNull(user.email)), issued, cfg).value;
            RefreshStep(t, access, now, cfg) == (Err(Unauthorized), t)
  {
    AccessTokenIsNotRefresh(user.id, user.username, OrNull(user.email), issued, now, cfg);
  }

  /** The whole session with the default configuration: a login, a refresh
      with the returned token within the day, a logout with it, and a refresh
      with it afterwards, which is rejected. */
  lemma {:induction false} SessionLifecycle(t: Table, id: int, now1: int, now2: int, now3: int, now4: int, cfg: TokenConfig)
    requires TableValid(t) && id in t.rows
    requires !Truthy(cfg.refreshExpiresIn) && cfg.refreshTtl == Some(7 * 24 * 60 * 60) && cfg.accessTtl.Some?
    requires 0 <= now1 <= now2 <= now3 && now2 < now1 + DayMs && now3 < now1 + DayMs
    requires now1 + 7 * DayMs <= MaxTimeMs
    ensures var login := LoginStep(t, WithoutPassword(t.rows[id]), now1, cfg);
            && login.0.Ok?
            && var token := login.0.value.refreshToken;
            && RefreshStep(login.1, token, now2, cfg).0.Ok?
            && RefreshStep(login.1, token, now2, cfg).1 == login.1
            && LogoutStep(login.1, None, Some(token), now3).0.Ok?
            && RefreshStep(LogoutStep(login.1, None, Some(token), now3).1, token, now4, cfg).0 == Err(Unauthorized)
  {
    DefaultExpiry(now1, cfg);
    var login := LoginStep(t, WithoutPassword(t.rows[id]), now1, cfg);
    var token := login.0.value.refreshToken;
    assert Seconds(now2) < Seconds(now1) + 7 * 24 * 60 * 60;
    assert Seconds(now3) < Seconds(now1) + 7 * 24 * 60 * 60;
    RefreshTokenVerifies(id, now1, now2, cfg);
    RefreshTokenVerifies(id, now1, now3, cfg);
    assert SlotHolds(login.1, token, now2);
    assert SlotHolds(login.1, token, now3);
    LogoutRevokes(login.1, token, now3, now4, cfg);
  }

  /** With the default lifetimes, a refresh token that still verifies never
      meets an expired slot: the stored expiry, seven days after the login in
      milliseconds, is never earlier than the token's own expiry, seven days
      after the login in whole seconds. */
  lemma {:induction false} DefaultSlotOutlivesToken(t: Table, user: UserView, now1: int, now2: int, cfg: TokenConfig)
    requires TableValid(t)
    requires !Truthy(cfg.refreshExpiresIn) && cfg.refreshTtl == Some(7 * 24 * 60 * 60)
    requires LoginStep(t, user, now1, cfg).0.Ok?
    ensures var login := LoginStep(t, user, now1, cfg);
            SlotHolds(login.1, login.0.value.refreshToken, now2) ==> !SlotExpired(login.1.rows[user.id], now2)
  {
    DefaultExpiry(now1, cfg);
    var login := LoginStep(t, user, now1, cfg);
    if SlotHolds(login.1, login.0.value.refreshToken, now2) {
      SecondsBefore(now1, now2, 7 * 24 * 60 * 60);
    }
  }

  /** A lifetime of more than 200 000 000 days takes the expiry out of the
      range of valid dates: the slot write fails and login is `BadRequest`,
      with the table unchanged. */
  lemma HugeDayCountLoginFails(t: Table, user: UserView, now: int, cfg: TokenConfig, n: nat)
    requires TableValid(t)
    requires cfg.refreshExpiresIn == Some(Decimal(n) + "d") && n > 200_000_000
    requires -MaxTimeMs <= now <= MaxTimeMs
    ensures LoginStep(t, user, now, cfg) == (Err(BadRequest), t)
  {
    assert Decimal(n) + "d" + "" == Decimal(n) + "d";
    DayCountExpiry(now, cfg, n, "");
    LargeDayCountInvalid(now, n);
  }
}

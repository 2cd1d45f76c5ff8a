/**
 * The authentication controller: cookie attributes, and the control flow of
 * the `login`, `refresh` and `logout` routes around the service calls. The
 * HTTP response is the list of cookie operations issued on it and the JSON
 * body sent. A cookie value is the token it serialises; any other string is
 * an `Unsigned` token.
 */
module AuthController {
  import opened Common
  import opened Jwt
  import opened Users
  import opened TokenService
  import opened AuthService

  datatype SameSite = Lax | NoneSite

  datatype CookieOptions = CookieOptions(httpOnly: bool, secure: bool, sameSite: SameSite, maxAge: int, path: string)

  /** One hour, the default cookie lifetime and the access cookie's. */
  const AccessCookieMaxAge: int := 60 * 60 * 1000

  /** Seven days, the refresh cookie's lifetime. */
  const RefreshCookieMaxAge: int := 7 * 24 * 60 * 60 * 1000

  /** `getCookieOptions(isProduction, maxAge = one hour)`: always HTTP-only on
      path `/`; `Secure` and `SameSite=None` in production, `SameSite=Lax`
      and not secure otherwise. */
  function GetCookieOptions(isProduction: bool, maxAge: Option<int>): (o: CookieOptions)
    ensures o.httpOnly && o.path == "/"
    ensures o.secure == isProduction
    ensures o.sameSite == NoneSite <==> isProduction
    ensures o.maxAge == if maxAge.Some? then maxAge.value else AccessCookieMaxAge
  {
    CookieOptions(true, isProduction, if isProduction then NoneSite else Lax,
                  if maxAge.Some? then maxAge.value else 3600000, "/")
  }

  /** Browsers drop a `SameSite=None` cookie that is not `Secure`; the options
      never produce one. */
  lemma CrossSiteCookiesAreSecure(isProduction: bool, maxAge: Option<int>)
    ensures GetCookieOptions(isProduction, maxAge).sameSite == NoneSite ==> GetCookieOptions(isProduction, maxAge).secure
  {
  }

  /** The refresh cookie lives exactly as long as the slot expiry of the
      default configuration. */
  lemma RefreshCookieMatchesDefaultExpiry(now: int, cfg: TokenConfig)
    requires !Truthy(cfg.refreshExpiresIn)
    ensures RefreshCookieMaxAge == 7 * DayMs
    ensures CalculateRefreshTokenExpiresAt(now, cfg) == TimeClip(now + RefreshCookieMaxAge)
  {
    DefaultExpiry(now, cfg);
  }

  /** `res.cookie(name, value, options)` and `res.clearCookie(name, { path: '/' })`. */
  datatype CookieOp = SetCookie(name: string, value: Token, options: CookieOptions) | ClearCookie(name: string, path: string)

  datatype Message = Refreshed | LoggedOut

  /** The JSON body: the login user, or a confirmation message. */
  datatype Body = UserBody(user: LoginUser) | MessageBody(message: Message)

  datatype Reply = Reply(cookies: seq<CookieOp>, body: Body)

  datatype LoginDto = LoginDto(id: string, password: string)

  /** `POST /auth/login`: `Unauthorized` before any token is issued when the
      credentials are wrong; a login failure propagates with its store effect.
      On success the access token of the login goes into the `access_token`
      cookie for an hour and the refresh token into the `refresh_token` cookie
      for seven days, both with the options of `getCookieOptions`; the refresh
      cookie holds exactly the token now in the user's slot, and the body is
      the login's user projection alone. */
  function LoginRoute(t: Table, dto: LoginDto, now: int, cfg: TokenConfig, isProduction: bool): (r: (Result<Reply>, Table))
    requires TableValid(t)
    ensures TableValid(r.1)
    ensures r.0.Err? ==> r.1 == t
    ensures ValidateUser(t, dto.id, dto.password).None? ==> r == (Err(Unauthorized), t)
    ensures ValidateUser(t, dto.id, dto.password).Some? ==>
      var login := LoginStep(t, ValidateUser(t, dto.id, dto.password).value, now, cfg);
      && r.1 == login.1
      && (r.0.Ok? <==> login.0.Ok?)
      && (r.0.Err? ==> r.0 == Err(BadRequest))
    ensures r.0.Ok? ==>
      && ValidateUser(t, dto.id, dto.password).Some?
      && var id := ValidateUser(t, dto.id, dto.password).value.id;
      && |r.0.value.cookies| == 2
      && r.0.value.cookies[0].SetCookie? && r.0.value.cookies[0].name == "access_token"
      && r.0.value.cookies[0].options.maxAge == AccessCookieMaxAge
      && r.0.value.cookies[1].SetCookie? && r.0.value.cookies[1].name == "refresh_token"
      && r.0.value.cookies[1].options.maxAge == RefreshCookieMaxAge
      && id in r.1.rows && r.1.rows[id].refreshToken == Some(r.0.value.cookies[1].value)
      && r.0.value.body.UserBody? && r.0.value.body.user.id == id
    ensures r.0.Ok? ==>
      var user := ValidateUser(t, dto.id, dto.password).value;
      && r.0.value.cookies[0].value == GenerateAccessToken(AccessClaims(user.id, user.username, OrNull(user.email)), now, cfg).value
      && r.0.value.cookies[0].options == GetCookieOptions(isProduction, None)
      && r.0.value.cookies[1].value == GenerateRefreshToken(user.id, now, cfg).value
      && r.0.value.cookies[1].options == GetCookieOptions(isProduction, Some(RefreshCookieMaxAge))
      && r.0.value.body == UserBody(LoginUserOf(user))
  {
    match ValidateUser(t, dto.id, dto.password)
    case None => (Err(Unauthorized), t)
    case Some(user) =>
      var (result, t') := LoginStep(t, user, now, cfg);
      match result
      case Err(e) => (Err(e), t')
      case Ok(out) =>
        var cookies := [SetCookie("access_token", out.accessToken, GetCookieOptions(isProduction, None)),
                        SetCookie("refresh_token", out.refreshToken, GetCookieOptions(isProduction, Some(RefreshCookieMaxAge)))];
        (Ok(Reply(cookies, UserBody(out.user))), t')
  }

  /** `POST /auth/refresh`: `BadRequest` without a truthy `refresh_token`
      cookie, before the service is called; a refresh failure (always
      `Unauthorized`) propagates. On success only the `access_token` cookie is
      set, with the default options, to the access token the refresh issued,
      which is not a refresh token. */
  function RefreshRoute(t: Table, cookie: Option<Token>, now: int, cfg: TokenConfig, isProduction: bool): (r: (Result<Reply>, Table))
    requires TableValid(t)
    ensures TableValid(r.1)
    ensures !TokenTruthy(cookie) ==> r == (Err(BadRequest), t)
    ensures TokenTruthy(cookie) ==> r.0.Ok? == RefreshStep(t, cookie.value, now, cfg).0.Ok? && r.1 == RefreshStep(t, cookie.value, now, cfg).1
    ensures TokenTruthy(cookie) && r.0.Err? ==> r.0 == Err(Unauthorized)
    ensures r.0.Ok? ==>
      && r.0.value.body == MessageBody(Refreshed) && |r.0.value.cookies| == 1
      && r.0.value.cookies[0].SetCookie? && r.0.value.cookies[0].name == "access_token"
      && VerifyRefreshToken(r.0.value.cookies[0].value, now).None?
    ensures r.0.Ok? ==>
      && r.0.value.cookies[0].value == RefreshStep(t, cookie.value, now, cfg).0.value
      && r.0.value.cookies[0].options == GetCookieOptions(isProduction, None)
  {
    if !TokenTruthy(cookie) then (Err(BadRequest), t)
    else
      var (result, t') := RefreshStep(t, cookie.value, now, cfg);
      match result
      case Err(e) => (Err(e), t')
      case Ok(accessToken) =>
        (Ok(Reply([SetCookie("access_token", accessToken, GetCookieOptions(isProduction, None))], MessageBody(Refreshed))), t')
  }

  /** `POST /auth/logout`: the service is always called with no user id, so a
      missing cookie is the service's `BadRequest` and a stale one its
      `Unauthorized`. Both cookies are cleared only after the service has
      cleared the slot. */
  function LogoutRoute(t: Table, cookie: Option<Token>, now: int): (r: (Result<Reply>, Table))
    requires TableValid(t)
    ensures TableValid(r.1)
    ensures r.1 == LogoutStep(t, None, cookie, now).1
    ensures r.0.Ok? <==> TokenTruthy(cookie) && SlotHolds(t, cookie.value, now)
    ensures !TokenTruthy(cookie) ==> r.0 == Err(BadRequest)
    ensures TokenTruthy(cookie) && !SlotHolds(t, cookie.value, now) ==> r.0 == Err(Unauthorized)
    ensures r.0.Ok? ==> r.0.value == Reply([ClearCookie("access_token", "/"), ClearCookie("refresh_token", "/")], MessageBody(LoggedOut))
  {
    var (result, t') := LogoutStep(t, None, cookie, now);
    match result
    case Err(e) => (Err(e), t')
    case Ok(_) => (Ok(Reply([ClearCookie("access_token", "/"), ClearCookie("refresh_token", "/")], MessageBody(LoggedOut))), t')
  }

  /** A browser session through the routes: the refresh cookie set at login
      refreshes within the day, logging out with it clears both cookies, and
      the same cookie is then refused. */
  lemma {:induction false} CookieSession(t: Table, dto: LoginDto, now1: int, now2: int, now3: int, now4: int,
                                         cfg: TokenConfig, isProduction: bool)
    requires TableValid(t) && ValidateUser(t, dto.id, dto.password).Some?
    requires !Truthy(cfg.refreshExpiresIn) && cfg.refreshTtl == Some(7 * 24 * 60 * 60) && cfg.accessTtl.Some?
    requires 0 <= now1 <= now2 <= now3 && now2 < now1 + DayMs && now3 < now1 + DayMs
    requires now1 + 7 * DayMs <= MaxTimeMs
    ensures var login := LoginRoute(t, dto, now1, cfg, isProduction);
            && login.0.Ok?
            && var cookie := Some(login.0.value.cookies[1].value);
            && RefreshRoute(login.1, cookie, now2, cfg, isProduction).0.Ok?
            && LogoutRoute(login.1, cookie, now3).0.Ok?
            && RefreshRoute(LogoutRoute(login.1, cookie, now3).1, cookie, now4, cfg, isProduction).0 == Err(Unauthorized)
  {
    var user := ValidateUser(t, dto.id, dto.password).value;
    SessionLifecycle(t, user.id, now1, now2, now3, now4, cfg);
  }

  /** The response object the handlers write to. */
  class Response {
    var cookies: seq<CookieOp>
    var body: Option<Body>

    constructor ()
      ensures cookies == [] && body.None?
    {
      cookies := [];
      body := None;
    }

    /** `res.cookie` / `res.clearCookie`. */
    method Cookie(op: CookieOp)
      modifies this
      ensures cookies == old(cookies) + [op] && body == old(body)
    {
      cookies := cookies + [op];
    }

    /** `res.json(body)`. */
    method Json(b: Body)
      modifies this
      ensures body == Some(b) && cookies == old(cookies)
    {
      body := Some(b);
    }
  }

  /** The route outcome as the response shows it: on success the reply's
      cookie operations appended and its body sent; on failure nothing. */
  ghost predicate Responded(res: Response, cookies0: seq<CookieOp>, body0: Option<Body>, r: Result<()>, outcome: Result<Reply>)
    reads res
  {
    match outcome
    case Ok(reply) => r == Ok(()) && res.cookies == cookies0 + reply.cookies && res.body == Some(reply.body)
    case Err(e) => r == Err(e) && res.cookies == cookies0 && res.body == body0
  }

  lemma AppendTwo(s: seq<CookieOp>, a: CookieOp, b: CookieOp)
    ensures s + [a] + [b] == s + [a, b]
  {
  }

  /** `AuthController.login`. */
  method Login(repo: UserRepository, res: Response, dto: LoginDto, now: int, cfg: TokenConfig, isProduction: bool)
    returns (r: Result<()>)
    requires repo.Valid()
    modifies repo, res
    ensures repo.Valid()
    ensures var (outcome, t') := LoginRoute(old(repo.table), dto, now, cfg, isProduction);
            repo.table == t' && Responded(res, old(res.cookies), old(res.body), r, outcome)
  {
    ghost var t0, cookies0 := repo.table, res.cookies;
    var user := ValidateUser(repo.table, dto.id, dto.password);
    if user.None? {
      return Err(Unauthorized);
    }
    var result := AuthService.Login(repo, user.value, now, cfg);
    assert (result, repo.table) == LoginStep(t0, user.value, now, cfg);
    if result.Err? {
      return Err(result.error);
    }
    var access := SetCookie("access_token", result.value.accessToken, GetCookieOptions(isProduction, None));
    var refresh := SetCookie("refresh_token", result.value.refreshToken, GetCookieOptions(isProduction, Some(RefreshCookieMaxAge)));
    res.Cookie(access);
    res.Cookie(refresh);
    res.Json(UserBody(result.value.user));
    AppendTwo(cookies0, access, refresh);
    r := Ok(());
  }

  /** `AuthController.refreshToken`. */
  method Refresh(repo: UserRepository, res: Response, cookie: Option<Token>, now: int, cfg: TokenConfig, isProduction: bool)
    returns (r: Result<()>)
    requires repo.Valid()
    modifies repo, res
    ensures repo.Valid()
    ensures var (outcome, t') := RefreshRoute(old(repo.table), cookie, now, cfg, isProduction);
            repo.table == t' && Responded(res, old(res.cookies), old(res.body), r, outcome)
  {
    if !TokenTruthy(cookie) {
      return Err(BadRequest);
    }
    var result := RefreshAccessToken(repo, cookie.value, now, cfg);
    if result.Err? {
      return Err(result.error);
    }
    res.Cookie(SetCookie("access_token", result.value, GetCookieOptions(isProduction, None)));
    res.Json(MessageBody(Refreshed));
    r := Ok(());
  }

  /** `AuthController.logout`. */
  method Logout(repo: UserRepository, res: Response, cookie: Option<Token>, now: int) returns (r: Result<()>)
    requires repo.Valid()
    modifies repo, res
    ensures repo.Valid()
    ensures var (outcome, t') := LogoutRoute(old(repo.table), cookie, now);
            repo.table == t' && Responded(res, old(res.cookies), old(res.body), r, outcome)
  {
    var result := AuthService.Logout(repo, None, cookie, now);
    if result.Err? {
      return Err(result.error);
    }
    res.Cookie(ClearCookie("access_token", "/"));
    res.Cookie(ClearCookie("refresh_token", "/"));
    res.Json(MessageBody(LoggedOut));
    r := Ok(());
  }
}

/**
 * The token service: claim sets of access and refresh tokens, the refresh
 * lifetime string and the expiry instant stored beside a refresh token, and
 * the check that only refresh tokens are accepted where one is expected.
 */
module TokenService {
  import opened Common
  import opened JsText
  import opened Jwt

  const DayMs: int := 24 * 60 * 60 * 1000

  /** The configuration the service reads: the `JWT_REFRESH_EXPIRES_IN` value
      (absent when unset), and the signing library's reading of the access
      lifetime (`JWT_EXPIRES_IN`, default one hour) and of the refresh lifetime
      string, in seconds (`None` when the library rejects the string). */
  datatype TokenConfig = TokenConfig(refreshExpiresIn: Option<string>, accessTtl: Option<int>, refreshTtl: Option<int>)

  /** `JWT_REFRESH_EXPIRES_IN || '7d'`. */
  function RefreshLifetime(cfg: TokenConfig): (s: string)
    ensures s != ""
    ensures Truthy(cfg.refreshExpiresIn) ==> s == cfg.refreshExpiresIn.value
    ensures !Truthy(cfg.refreshExpiresIn) ==> s == "7d"
  {
    if Truthy(cfg.refreshExpiresIn) then cfg.refreshExpiresIn.value else "7d"
  }

  /** The access-token payload `{ sub, username, email }`; it has no `type`. */
  function AccessClaims(sub: int, username: string, email: Option<string>): Claims
  {
    Claims(sub, Some(username), email, None)
  }

  /** The refresh-token payload `{ sub: userId, type: 'refresh' }`. */
  function RefreshClaims(userId: int): Claims
  {
    Claims(userId, None, None, Some("refresh"))
  }

  /** `generateAccessToken`: the payload is signed as given, nothing added or
      removed, with the configured access lifetime; `None` when the signing
      library rejects that lifetime string (it throws). */
  function GenerateAccessToken(payload: Claims, now: int, cfg: TokenConfig): (r: Option<Token>)
    ensures r.Some? <==> cfg.accessTtl.Some?
    ensures r.Some? ==> r.value.Signed? && r.value.claims == payload && r.value.expiresAt == Seconds(now) + cfg.accessTtl.value
    ensures r.Some? && cfg.accessTtl.value > 0 ==> Verify(r.value, now) == Some(payload)
  {
    if cfg.accessTtl.Some? then Some(Sign(payload, now, cfg.accessTtl.value)) else None
  }

  /** `generateRefreshToken`: signs `{ sub: userId, type: 'refresh' }` with the
      refresh lifetime; `None` when the signing library rejects that lifetime
      string (it throws). */
  function GenerateRefreshToken(userId: int, now: int, cfg: TokenConfig): (r: Option<Token>)
    ensures r.Some? <==> cfg.refreshTtl.Some?
    ensures r.Some? ==> r.value.Signed? && r.value.claims == RefreshClaims(userId)
    ensures r.Some? ==> r.value.expiresAt == Seconds(now) + cfg.refreshTtl.value
  {
    if cfg.refreshTtl.Some? then Some(Sign(RefreshClaims(userId), now, cfg.refreshTtl.value)) else None
  }

  /** The whole-day count read from the lifetime string: when it contains a
      `'d'`, `parseInt` of the string with its first `'d'` removed (`None` for
      `NaN`); otherwise 7, whatever the string says. */
  function ExpiryDays(lifetime: string): Option<int>
  {
    if 'd' in lifetime then ParseInt(RemoveFirst(lifetime, 'd')) else Some(7)
  }

  /** `calculateRefreshTokenExpiresAt`: now plus the day count, clipped to the
      range of valid dates, or an invalid date when the count is `NaN`. */
  function CalculateRefreshTokenExpiresAt(now: int, cfg: TokenConfig): (e: Instant)
    ensures ExpiryDays(RefreshLifetime(cfg)).None? ==> e == InvalidDate
    ensures e.At? ==> -MaxTimeMs <= e.ms <= MaxTimeMs && (e.ms - now) % DayMs == 0
  {
    match ExpiryDays(RefreshLifetime(cfg))
    case Some(n) =>
      WholeDays(n);
      assert now + n * DayMs - now == n * DayMs;
      TimeClip(now + n * DayMs)
    case None => InvalidDate
  }

  /** A whole number of days is a multiple of the day length. */
  lemma WholeDays(n: int)
    ensures (n * DayMs) % DayMs == 0
  {
  }

  /** `verifyRefreshToken`: the verified payload, unchanged, when its `type` is
      exactly `'refresh'`; a failure for anything else, including every
      access token (which has no `type`). */
  function VerifyRefreshToken(t: Token, now: int): (r: Option<Claims>)
    ensures r.Some? <==> Verify(t, now).Some? && Verify(t, now).value.kind == Some("refresh")
    ensures r.Some? ==> r == Verify(t, now)
  {
    match Verify(t, now)
    case Some(p) => if p.kind == Some("refresh") then Some(p) else None
    case None => None
  }

  /** Unset configuration: the expiry is seven days ahead. */
  lemma DefaultExpiry(now: int, cfg: TokenConfig)
    requires !Truthy(cfg.refreshExpiresIn)
    ensures CalculateRefreshTokenExpiresAt(now, cfg) == TimeClip(now + 7 * DayMs)
  {
    assert RefreshLifetime(cfg) == ['7', 'd'];
    assert RemoveFirst("7d", 'd') == Decimal(7) + "";
    ParseIntDecimal(7, "");
  }

  /** With its first `'d'` at `|p|`, a lifetime is read as `parseInt(p + q)`. */
  lemma ExpiryDaysAt(p: string, q: string)
    requires 'd' !in p
    ensures ExpiryDays(p + ['d'] + q) == ParseInt(p + q)
  {
    var s := p + ['d'] + q;
    assert s[|p|] == 'd';
    RemoveFirstAt(p, 'd', q);
  }

  /** A lifetime `p + "d" + q` with no `'d'` in `p`, where `p + q` parses as
      `k`, gives an expiry `k` days ahead, when that is a valid date. */
  lemma DayStringExpiry(now: int, cfg: TokenConfig, p: string, q: string, k: int)
    requires cfg.refreshExpiresIn == Some(p + "d" + q) && 'd' !in p
    requires ParseInt(p + q) == Some(k)
    ensures CalculateRefreshTokenExpiresAt(now, cfg) == TimeClip(now + k * DayMs)
  {
    LifetimeDays(cfg, p, q);
  }

  /** The configured lifetime `p + "d" + q` is read as `parseInt(p + q)` days. */
  lemma LifetimeDays(cfg: TokenConfig, p: string, q: string)
    requires cfg.refreshExpiresIn == Some(p + "d" + q) && 'd' !in p
    ensures ExpiryDays(RefreshLifetime(cfg)) == ParseInt(p + q)
  {
    assert RefreshLifetime(cfg) == p + ['d'] + q;
    ExpiryDaysAt(p, q);
  }

  /** A lifetime whose part before the first `'d'` starts with neither white
      space, a sign nor a digit is `NaN` days: the expiry is an invalid date. */
  lemma NoDigitDayExpiry(now: int, cfg: TokenConfig, p: string, q: string)
    requires cfg.refreshExpiresIn == Some(p + "d" + q) && 'd' !in p
    requires p != [] && !IsSpace(p[0]) && !IsDigit(p[0]) && p[0] != '-' && p[0] != '+'
    ensures CalculateRefreshTokenExpiresAt(now, cfg) == InvalidDate
  {
    assert (p + q)[0] == p[0];
    ParseIntNoDigit(p + q);
    LifetimeDays(cfg, p, q);
  }

  /** A lifetime spelled `<n>d` gives an expiry exactly `n` days ahead (when
      that is a valid date); so does
      `<n>d` followed by anything that does not start with a digit once the
      first `'d'` is gone (e.g. `"30 days"` reads as 30). */
  lemma DayCountExpiry(now: int, cfg: TokenConfig, n: nat, rest: string)
    requires cfg.refreshExpiresIn == Some(Decimal(n) + "d" + rest)
    requires rest == [] || !IsDigit(rest[0])
    ensures CalculateRefreshTokenExpiresAt(now, cfg) == TimeClip(now + n * DayMs)
  {
    DecimalHasNo(n, 'd');
    ParseIntDecimal(n, rest);
    DayStringExpiry(now, cfg, Decimal(n), rest, n);
  }

  /** A lifetime without a `'d'` (hours, minutes, a bare number of seconds) is
      not read at all: the stored expiry is seven days ahead, whatever lifetime
      the token itself was signed with. */
  lemma NonDayLifetimeExpiry(now: int, cfg: TokenConfig)
    requires Truthy(cfg.refreshExpiresIn) && 'd' !in cfg.refreshExpiresIn.value
    ensures CalculateRefreshTokenExpiresAt(now, cfg) == TimeClip(now + 7 * DayMs)
  {
  }

  /** A lifetime such as `".5d"` is accepted by the string test but `parseInt`
      finds no digit: the computed expiry is an invalid date. */
  lemma FractionalDayExpiry(now: int, cfg: TokenConfig)
    requires cfg.refreshExpiresIn == Some(".5d")
    ensures CalculateRefreshTokenExpiresAt(now, cfg) == InvalidDate
  {
    var p, q := ".5", "";
    assert p + "d" + q == ".5d" by {
      assert |p + "d" + q| == 3;
      assert (p + "d" + q)[0] == '.' && (p + "d" + q)[1] == '5' && (p + "d" + q)[2] == 'd';
    }
    NoDigitDayExpiry(now, cfg, p, q);
  }

  /** A freshly issued refresh token passes `verifyRefreshToken` with its own
      claims while its lifetime lasts. */
  lemma RefreshTokenVerifies(userId: int, issued: int, now: int, cfg: TokenConfig)
    requires cfg.refreshTtl.Some? && Seconds(now) < Seconds(issued) + cfg.refreshTtl.value
    ensures VerifyRefreshToken(GenerateRefreshToken(userId, issued, cfg).value, now) == Some(RefreshClaims(userId))
  {
  }

  /** An access token is never accepted as a refresh token. */
  lemma AccessTokenIsNotRefresh(sub: int, username: string, email: Option<string>, issued: int, now: int, cfg: TokenConfig)
    requires cfg.accessTtl.Some?
    ensures VerifyRefreshToken(GenerateAccessToken(AccessClaims(sub, username, email), issued, cfg).value, now) == None
  {
  }

  /** A day count beyond 200 000 000 days either way, from a valid current
      date, always lands outside the range of valid dates. So the rounding of
      `parseInt` to the nearest double, which only changes counts of at least
      2^53, never changes the computed expiry. */
  lemma LargeDayCountInvalid(now: int, n: int)
    requires -MaxTimeMs <= now <= MaxTimeMs
    requires n > 200_000_000 || n < -200_000_000
    ensures TimeClip(now + n * DayMs) == InvalidDate
  {
    if n > 0 {
      assert n * DayMs >= 200_000_001 * DayMs;
    } else {
      assert n * DayMs <= -200_000_001 * DayMs;
    }
  }
}

/**
 * The route guard: picks the access token from the `access_token` cookie or,
 * failing that, from an `Authorization: Bearer` header (section 2.1 of
 * RFC 6750), verifies it, and attaches the caller's identity to the request.
 *
 * Cookie and header values are strings. A string is read as a token through
 * `issued`, the tokens this service signed keyed by their compact
 * serialisation; any other string is `Unsigned` and never verifies.
 */
module JwtAuthGuard {
  import opened Common
  import opened JsText
  import opened Jwt
  import opened TokenService

  /** The token a string stands for: the issued token it serialises, or an
      unsigned one. */
  function TokenOf(s: string, issued: map<string, Token>): (t: Token)
    ensures s in issued ==> t == issued[s]
    ensures s !in issued ==> t == Unsigned(s)
  {
    if s in issued then issued[s] else Unsigned(s)
  }

  /** `extractTokenFromHeader`: the header split on single spaces; the second
      piece when the first is exactly `Bearer`, otherwise nothing. */
  function ExtractTokenFromHeader(authorization: Option<string>): (r: Option<string>)
    ensures r.Some? ==> authorization.Some? && ' ' !in r.value
  {
    if authorization.None? then None
    else
      var parts := Split(authorization.value, ' ');
      if parts[0] == "Bearer" && |parts| >= 2 then Some(parts[1]) else None
  }

  /** The header has the `Bearer ` scheme prefix. */
  predicate BearerForm(s: string)
  {
    |s| >= 7 && s[..7] == "Bearer "
  }

  /** A token comes out exactly for headers starting with `Bearer `, and it is
      the longest run of non-space characters right after that prefix. */
  lemma ExtractBearer(s: string)
    ensures ExtractTokenFromHeader(Some(s)).Some? <==> BearerForm(s)
    ensures BearerForm(s) ==>
      var tok := ExtractTokenFromHeader(Some(s)).value;
      && 7 + |tok| <= |s| && s[7..7 + |tok|] == tok && ' ' !in tok
      && (7 + |tok| < |s| ==> s[7 + |tok|] == ' ')
  {
    if BearerForm(s) {
      BearerToken(s);
    } else if ExtractTokenFromHeader(Some(s)).Some? {
      SplitBearer(s);
    }
  }

  /** The token taken from a `Bearer ` header: the non-space run after the
      prefix. */
  lemma BearerToken(s: string)
    requires BearerForm(s)
    ensures ExtractTokenFromHeader(Some(s)).Some?
    ensures var tok := ExtractTokenFromHeader(Some(s)).value;
      && 7 + |tok| <= |s| && s[7..7 + |tok|] == tok
      && (7 + |tok| < |s| ==> s[7 + |tok|] == ' ')
  {
    BearerSplit(s);
    ExtractFromBearerSplit(s);
    FirstPieceAt(s, 7);
  }

  /** With the split known, extraction yields the first piece after `Bearer`. */
  lemma ExtractFromBearerSplit(s: string)
    requires BearerForm(s) && Split(s, ' ') == ["Bearer"] + Split(s[7..], ' ')
    ensures ExtractTokenFromHeader(Some(s)) == Some(Split(s[7..], ' ')[0])
  {
  }

  /** The first piece of the split of `s[k..]` sits at `k` and ends at a space
      or at the end. */
  lemma FirstPieceAt(s: string, k: nat)
    requires k <= |s|
    ensures var tok := Split(s[k..], ' ')[0];
      && k + |tok| <= |s| && s[k..k + |tok|] == tok
      && (k + |tok| < |s| ==> s[k + |tok|] == ' ')
  {
    var rest := s[k..];
    var tok := Split(rest, ' ')[0];
    assert |tok| <= |rest| && rest[..|tok|] == tok && (|tok| < |rest| ==> rest[|tok|] == ' ');
    ShiftPiece(s, k, tok);
  }

  lemma ShiftPiece(s: string, k: nat, tok: string)
    requires k + |tok| <= |s| && s[k..][..|tok|] == tok
    requires |tok| < |s| - k ==> s[k..][|tok|] == ' '
    ensures s[k..k + |tok|] == tok && (k + |tok| < |s| ==> s[k + |tok|] == ' ')
  {
    assert s[k..k + |tok|] == s[k..][..|tok|];
  }

  /** After a `Bearer ` prefix the split yields `Bearer`, then the pieces of
      the rest. */
  lemma {:induction false} BearerSplit(s: string)
    requires BearerForm(s)
    ensures Split(s, ' ') == ["Bearer"] + Split(s[7..], ' ')
  {
    var rest := s[7..];
    assert s == "Bearer" + [' '] + rest;
    IndexOfFirst("Bearer", ' ', rest);
    assert s[..6] == "Bearer";
  }

  /** A split whose first piece is `Bearer` and which has a second piece comes
      from a header with the `Bearer ` prefix. */
  lemma {:induction false} SplitBearer(s: string)
    requires Split(s, ' ')[0] == "Bearer" && |Split(s, ' ')| >= 2
    ensures BearerForm(s)
  {
    var parts := Split(s, ' ');
    assert ' ' in s;
    assert |parts[0]| < |s|;
    assert s[..7] == parts[0] + [' '];
  }

  /** An RFC 6750 credential `Bearer <token>` yields the token. */
  lemma BearerCredential(tok: string)
    requires ' ' !in tok
    ensures ExtractTokenFromHeader(Some("Bearer " + tok)) == Some(tok)
  {
    var s := "Bearer " + tok;
    assert s[..7] == "Bearer ";
    ExtractBearer(s);
    var got := ExtractTokenFromHeader(Some(s)).value;
    assert s[7..] == tok;
    assert forall i | 0 <= i < |tok| :: s[7 + i] == tok[i] && tok[i] != ' ';
    assert |got| == |tok|;
    assert got == tok;
  }

  /** The token the guard uses: a truthy `access_token` cookie; otherwise
      whatever the header gives. */
  function SelectToken(cookie: Option<string>, authorization: Option<string>): (r: Option<string>)
  {
    if Truthy(cookie) then cookie else ExtractTokenFromHeader(authorization)
  }

  /** `request.user` as the guard sets it. */
  datatype RequestUser = RequestUser(userId: int, username: Option<string>, email: Option<string>)

  /** `canActivate`'s outcome: `Unauthorized` when no truthy token is found or
      it does not verify; otherwise the identity from its claims. */
  function Authenticate(cookie: Option<string>, authorization: Option<string>,
                        issued: map<string, Token>, now: int): (r: Result<RequestUser>)
    ensures r.Err? ==> r.error == Unauthorized
    ensures r.Ok? <==> Truthy(SelectToken(cookie, authorization))
                       && Verify(TokenOf(SelectToken(cookie, authorization).value, issued), now).Some?
    ensures r.Ok? ==>
      var c := Verify(TokenOf(SelectToken(cookie, authorization).value, issued), now).value;
      r.value == RequestUser(c.sub, c.username, c.email)
  {
    var token := SelectToken(cookie, authorization);
    if !Truthy(token) then Err(Unauthorized)
    else
      match Verify(TokenOf(token.value, issued), now)
      case None => Err(Unauthorized)
      case Some(payload) => Ok(RequestUser(payload.sub, payload.username, payload.email))
  }

  /** The cookie takes precedence: with a truthy `access_token` cookie the
      header is never consulted. */
  lemma CookieTakesPrecedence(cookie: string, header1: Option<string>, header2: Option<string>,
                              issued: map<string, Token>, now: int)
    requires cookie != ""
    ensures Authenticate(Some(cookie), header1, issued, now) == Authenticate(Some(cookie), header2, issued, now)
  {
  }

  /** With no cookie and no `Bearer` header the request is rejected. */
  lemma NoCredentialsRejected(cookie: Option<string>, authorization: Option<string>, issued: map<string, Token>, now: int)
    requires !Truthy(cookie)
    requires authorization.None? || !BearerForm(authorization.value)
    ensures Authenticate(cookie, authorization, issued, now) == Err(Unauthorized)
  {
    if authorization.Some? {
      ExtractBearer(authorization.value);
    }
  }

  /** An access token the service issued, sent as `Bearer` credentials, lets
      its subject in while it is valid. */
  lemma IssuedAccessTokenAdmits(s: string, sub: int, username: string, email: Option<string>,
                                issuedAt: int, now: int, cfg: TokenConfig, issued: map<string, Token>)
    requires s != "" && ' ' !in s
    requires cfg.accessTtl.Some?
    requires s in issued && issued[s] == GenerateAccessToken(AccessClaims(sub, username, email), issuedAt, cfg).value
    requires Seconds(now) < Seconds(issuedAt) + cfg.accessTtl.value
    ensures Authenticate(None, Some("Bearer " + s), issued, now) == Ok(RequestUser(sub, Some(username), email))
  {
    BearerCredential(s);
  }

  /** The guard checks no `type` claim: a refresh token, signed with the same
      secret, is accepted as an access token, with an identity lacking the
      username. */
  lemma RefreshTokenPassesGuard(s: string, userId: int, issuedAt: int, now: int, cfg: TokenConfig, issued: map<string, Token>)
    requires s != "" && cfg.refreshTtl.Some?
    requires s in issued && issued[s] == GenerateRefreshToken(userId, issuedAt, cfg).value
    requires Seconds(now) < Seconds(issuedAt) + cfg.refreshTtl.value
    ensures Authenticate(Some(s), None, issued, now) == Ok(RequestUser(userId, None, None))
  {
  }

  /** The guard with a check that the token is not a refresh token (its claims
      carry no `type`): it accepts exactly what the written guard accepts,
      minus refresh tokens. */
  function AuthenticateAccessOnly(cookie: Option<string>, authorization: Option<string>,
                                  issued: map<string, Token>, now: int): (r: Result<RequestUser>)
    ensures r.Err? ==> r.error == Unauthorized
    ensures r.Ok? <==> Authenticate(cookie, authorization, issued, now).Ok?
                       && VerifyRefreshToken(TokenOf(SelectToken(cookie, authorization).value, issued), now).None?
                       && Verify(TokenOf(SelectToken(cookie, authorization).value, issued), now).value.kind.None?
    ensures r.Ok? ==> r == Authenticate(cookie, authorization, issued, now)
  {
    match Authenticate(cookie, authorization, issued, now)
    case Err(e) => Err(e)
    case Ok(user) =>
      if Verify(TokenOf(SelectToken(cookie, authorization).value, issued), now).value.kind.Some? then Err(Unauthorized)
      else Ok(user)
  }

  /** The corrected guard rejects every refresh token the service issues. */
  lemma AccessOnlyRejectsRefreshTokens(cookie: Option<string>, authorization: Option<string>,
                                       userId: int, issuedAt: int, now: int, cfg: TokenConfig, issued: map<string, Token>)
    requires cfg.refreshTtl.Some?
    requires Truthy(SelectToken(cookie, authorization))
    requires TokenOf(SelectToken(cookie, authorization).value, issued) == GenerateRefreshToken(userId, issuedAt, cfg).value
    ensures AuthenticateAccessOnly(cookie, authorization, issued, now) == Err(Unauthorized)
  {
  }

  /** The request as the guard sees it: the two credential sources, and the
      `user` property the guard sets. */
  class Request {
    const cookie: Option<string>
    const authorization: Option<string>
    var user: Option<RequestUser>

    constructor (cookie: Option<string>, authorization: Option<string>)
      ensures this.cookie == cookie && this.authorization == authorization && user.None?
    {
      this.cookie := cookie;
      this.authorization := authorization;
      user := None;
    }
  }

  /** `JwtAuthGuard.canActivate`: on success `request.user` is set from the
      token's claims and the answer is `true`; on failure the request is not
      touched. */
  method CanActivate(request: Request, issued: map<string, Token>, now: int) returns (r: Result<bool>)
    modifies request
    ensures match Authenticate(request.cookie, request.authorization, issued, now)
            case Ok(u) => r == Ok(true) && request.user == Some(u)
            case Err(e) => r == Err(e) && request.user == old(request.user)
  {
    var token := request.cookie;
    if !Truthy(token) {
      token := ExtractTokenFromHeader(request.authorization);
    }
    if !Truthy(token) {
      return Err(Unauthorized);
    }
    var payload := Verify(TokenOf(token.value, issued), now);
    if payload.None? {
      return Err(Unauthorized);
    }
    request.user := Some(RequestUser(payload.value.sub, payload.value.username, payload.value.email));
    r := Ok(true);
  }
}

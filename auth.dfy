/** OAuth 2.0 against raindrop.io (src/auth/auth.ts): the authorize URL
    (section 4.1.1 of RFC 6749), the authorization-code and refresh-token
    grants (sections 4.1.3 and 6 of RFC 6749), the expiry test with its
    five-minute safety margin, and the decision between using the stored
    access token and refreshing it. The clock is the parameter `now`
    (epoch milliseconds); the token endpoint is the oracle `post`. */
module Auth {
  import opened Types
  import opened Http

  const AuthorizeUrl: string := "https://raindrop.io/oauth/authorize"

  /** Five minutes, in milliseconds. */
  const ExpiryMarginMs: int := 5 * 60 * 1000

  const ExchangeFailedPrefix: string := "OAuth token exchange failed: "
  const RefreshFailedPrefix: string := "Token refresh failed: "

  /** `if (state)`: an absent or empty state is left out of the URL. */
  predicate HasState(state: Option<string>)
  {
    state.Some? && state.value != ""
  }

  /** The parameters of the authorize request, in insertion order. */
  function AuthorizeParams(creds: Credentials, state: Option<string>): (ps: seq<Param>)
    ensures Keys(ps) == ["client_id", "redirect_uri", "response_type"] + (if HasState(state) then ["state"] else [])
    ensures ValueOf(ps, "client_id") == Some(creds.clientId)
    ensures ValueOf(ps, "redirect_uri") == Some(creds.redirectUri)
    ensures ValueOf(ps, "response_type") == Some("code")
    ensures ValueOf(ps, "state") == if HasState(state) then state else None
  {
    var ps := [Param("client_id", creds.clientId), Param("redirect_uri", creds.redirectUri), Param("response_type", "code")]
              + (if HasState(state) then [Param("state", state.value)] else []);
    ValueOfStep(ps); ValueOfStep(ps[1..]); ValueOfStep(ps[1..][1..]);
    if HasState(state) then ValueOfStep(ps[1..][1..][1..]); ps else ps
  }

  /** `URLSearchParams.toString()` without percent-encoding: `k=v` pairs joined by `&`. */
  function QueryString(ps: seq<Param>): string
  {
    if ps == [] then ""
    else ps[0].key + "=" + ps[0].value + (if |ps| == 1 then "" else "&" + QueryString(ps[1..]))
  }

  /** The authorize URL: the endpoint, `?`, then `client_id`, `redirect_uri`
      and `response_type=code`, and `state` last when there is one. */
  function CreateAuthUrl(creds: Credentials, state: Option<string>): (url: string)
    ensures url == AuthorizeUrl + "?"
                   + ("client_id" + "=" + creds.clientId + "&"
                   + ("redirect_uri" + "=" + creds.redirectUri + "&"
                   + ("response_type" + "=" + "code"
                   + (if HasState(state) then "&" + ("state" + "=" + state.value + "") else ""))))
  {
    var ps := AuthorizeParams(creds, state);
    var last := "response_type" + "=" + "code"
                + (if HasState(state) then "&" + ("state" + "=" + state.value + "") else "");
    assert QueryString(ps[2..]) == last by {
      if HasState(state) {
        assert ps[2..][1..] == [Param("state", state.value)];
      } else {
        assert ps[2..] == [Param("response_type", "code")];
      }
    }
    assert ps[1..][1..] == ps[2..];
    assert QueryString(ps[1..]) == "redirect_uri" + "=" + creds.redirectUri + "&" + last;
    assert QueryString(ps) == "client_id" + "=" + creds.clientId + "&" + ("redirect_uri" + "=" + creds.redirectUri + "&" + last);
    AuthorizeUrl + "?" + QueryString(ps)
  }

  /** The body of the authorization-code grant. */
  function CodeExchangeForm(creds: Credentials, code: string): (form: seq<Param>)
    ensures ValueOf(form, "grant_type") == Some("authorization_code")
    ensures ValueOf(form, "code") == Some(code)
    ensures ValueOf(form, "client_id") == Some(creds.clientId)
    ensures ValueOf(form, "client_secret") == Some(creds.clientSecret)
    ensures ValueOf(form, "redirect_uri") == Some(creds.redirectUri)
  {
    var form := [ Param("grant_type", "authorization_code"), Param("code", code), Param("client_id", creds.clientId),
                  Param("client_secret", creds.clientSecret), Param("redirect_uri", creds.redirectUri) ];
    ValueOfStep(form); ValueOfStep(form[1..]); ValueOfStep(form[1..][1..]);
    ValueOfStep(form[1..][1..][1..]); ValueOfStep(form[1..][1..][1..][1..]);
    form
  }

  /** The body of the refresh-token grant; it carries no redirect URI. */
  function RefreshForm(creds: Credentials, refreshToken: string): (form: seq<Param>)
    ensures ValueOf(form, "grant_type") == Some("refresh_token")
    ensures ValueOf(form, "refresh_token") == Some(refreshToken)
    ensures ValueOf(form, "client_id") == Some(creds.clientId)
    ensures ValueOf(form, "client_secret") == Some(creds.clientSecret)
    ensures ValueOf(form, "redirect_uri") == None
  {
    var form := [ Param("grant_type", "refresh_token"), Param("refresh_token", refreshToken),
                  Param("client_id", creds.clientId), Param("client_secret", creds.clientSecret) ];
    ValueOfStep(form); ValueOfStep(form[1..]); ValueOfStep(form[1..][1..]); ValueOfStep(form[1..][1..][1..]);
    form
  }

  /** The token set a successful token response stands for, `now` being the
      moment the response is read. */
  function TokensFromResponse(resp: TokenResponse, now: int): AuthTokens
  {
    AuthTokens(resp.accessToken, resp.refreshToken, now + resp.expiresIn * 1000)
  }

  /** exchangeCodeForTokens: exactly one POST of the code-exchange body, and
      no retry after a failure. */
  function ExchangeCodeForTokens(creds: Credentials, code: string, now: int, post: TokenEndpoint): (r: Traced<AuthTokens>)
    ensures r.calls == [TokenPost(CodeExchangeForm(creds, code))]
    ensures var reply := post(CodeExchangeForm(creds, code));
      && (r.result.Ok? <==> reply.Response?)
      && (r.result.Ok? ==> r.result.value.accessToken == reply.body.accessToken
                           && r.result.value.refreshToken == reply.body.refreshToken
                           && r.result.value.expiresAt == now + reply.body.expiresIn * 1000)
      && (r.result.Err? && reply.error.isAxiosError ==> ExchangeFailedPrefix <= r.result.message)
      && (r.result.Err? && !reply.error.isAxiosError ==> r.result.message == reply.error.message)
  {
    var form := CodeExchangeForm(creds, code);
    match post(form)
    case Response(body) => Traced(Ok(TokensFromResponse(body, now)), [TokenPost(form)])
    case Thrown(e) => Traced(Err(WrapError(ExchangeFailedPrefix, e)), [TokenPost(form)])
  }

  /** refreshAccessToken: one POST of the refresh body; the request itself
      is recorded by its caller, GetValidAccessToken. */
  function RefreshAccessToken(creds: Credentials, refreshToken: string, now: int, post: TokenEndpoint): (r: Result<AuthTokens>)
    ensures var reply := post(RefreshForm(creds, refreshToken));
      && (r.Ok? <==> reply.Response?)
      && (r.Ok? ==> r.value.accessToken == reply.body.accessToken
                    && r.value.refreshToken == reply.body.refreshToken
                    && r.value.expiresAt == now + reply.body.expiresIn * 1000)
      && (r.Err? && reply.error.isAxiosError ==> RefreshFailedPrefix <= r.message)
      && (r.Err? && !reply.error.isAxiosError ==> r.message == reply.error.message)
  {
    match post(RefreshForm(creds, refreshToken))
    case Response(body) => Ok(TokensFromResponse(body, now))
    case Thrown(e) => Err(WrapError(RefreshFailedPrefix, e))
  }

  predicate IsTokenExpired(tokens: AuthTokens, now: int)
  {
    now >= tokens.expiresAt - ExpiryMarginMs
  }

  /** The access token to use, and the new token set when a refresh happened. */
  datatype AccessGrant = AccessGrant(accessToken: string, updatedTokens: Option<AuthTokens>)

  function GetValidAccessToken(creds: Credentials, tokens: AuthTokens, now: int, post: TokenEndpoint): (r: Traced<AccessGrant>)
    ensures !IsTokenExpired(tokens, now) ==> r == Traced(Ok(AccessGrant(tokens.accessToken, None)), [])
    ensures IsTokenExpired(tokens, now) ==>
      var refreshed := RefreshAccessToken(creds, tokens.refreshToken, now, post);
      && r.calls == [TokenPost(RefreshForm(creds, tokens.refreshToken))]
      && (r.result.Ok? <==> refreshed.Ok?)
      && (r.result.Ok? ==> r.result.value.updatedTokens == Some(refreshed.value)
                           && r.result.value.accessToken == refreshed.value.accessToken)
      && (r.result.Err? ==> r.result.message == refreshed.message)
  {
    if !IsTokenExpired(tokens, now) then
      Traced(Ok(AccessGrant(tokens.accessToken, None)), [])
    else
      var calls := [TokenPost(RefreshForm(creds, tokens.refreshToken))];
      match RefreshAccessToken(creds, tokens.refreshToken, now, post)
      case Ok(updated) => Traced(Ok(AccessGrant(updated.accessToken, Some(updated))), calls)
      case Err(m) => Traced(Err(m), calls)
  }

  /** A token set counts as expired from five minutes before `expiresAt` on. */
  lemma ExpiryMarginBoundary(tokens: AuthTokens)
    ensures IsTokenExpired(tokens, tokens.expiresAt - 300000)
    ensures !IsTokenExpired(tokens, tokens.expiresAt - 300001)
  {
  }

  /** Once expired, a token set stays expired as the clock advances. */
  lemma ExpiryIsMonotone(tokens: AuthTokens, now: int, later: int)
    requires now <= later && IsTokenExpired(tokens, now)
    ensures IsTokenExpired(tokens, later)
  {
  }

  /** A freshly granted token set expires after `now` exactly when
      `expires_in` is positive, and is usable at once exactly when it is
      granted for more than the five-minute margin. */
  lemma FreshTokensExpiry(resp: TokenResponse, now: int)
    ensures TokensFromResponse(resp, now).expiresAt > now <==> resp.expiresIn > 0
    ensures !IsTokenExpired(TokensFromResponse(resp, now), now) <==> resp.expiresIn > 300
  {
  }

  /** After a refresh that grants more than five minutes, validating the
      new token set at the same instant uses it as it is, with no request. */
  lemma {:induction false} RefreshedTokensNeedNoSecondRefresh(creds: Credentials, tokens: AuthTokens, now: int, post: TokenEndpoint)
    requires IsTokenExpired(tokens, now)
    requires post(RefreshForm(creds, tokens.refreshToken)).Response?
    requires post(RefreshForm(creds, tokens.refreshToken)).body.expiresIn > 300
    ensures var first := GetValidAccessToken(creds, tokens, now, post);
      && first.result.Ok? && first.result.value.updatedTokens.Some?
      && GetValidAccessToken(creds, first.result.value.updatedTokens.value, now, post)
         == Traced(Ok(AccessGrant(first.result.value.accessToken, None)), [])
  {
    var resp := post(RefreshForm(creds, tokens.refreshToken)).body;
    FreshTokensExpiry(resp, now);
  }
}

/** The authentication handlers of `app.py`: post-processing of the OAuth callback,
    the refresh-token exchange and logout. The code exchange and the HTTP POST to the
    provider are passed in; the session is the signed-cookie dictionary as the handler
    leaves it. */
module App {
  import opened Outcomes
  import opened Strings

  /** The cookie-backed session dictionary. */
  type Session = map<string, string>

  /** The token dictionary returned by the authorization-code exchange; a field is None
      when the dictionary has no such key. */
  datatype TokenSet = TokenSet(
    userinfo: Option<map<string, string>>,
    accessToken: Option<string>,
    idToken: Option<string>,
    refreshToken: Option<string>)

  /** A redirect to `url`, with the framework's default redirect status. */
  datatype Redirect = Redirect(url: string)

  /** What a handler leaves behind: the session as it stands when the handler ends, and
      either its redirect or the exception it raised. */
  datatype HandlerResult = HandlerResult(session: Session, outcome: Result<Redirect, Failure>)

  const IdTokenKey: string := "id_token"
  const RefreshTokenKey: string := "refresh_token"
  const TokenParam: string := "/?token="
  const RefreshParam: string := "&refresh_token="

  /** Python truthiness of the `userinfo` entry: absent, None and an empty dictionary
      are all false. */
  predicate Truthy(userinfo: Option<map<string, string>>)
  {
    userinfo.Some? && |userinfo.value| > 0
  }

  /** The landing URL: the configured base, the id token as `token`, and the refresh
      token as a last `refresh_token` parameter when the exchange returned one. Neither
      token is escaped. */
  function RedirectUrl(base: string, idToken: string, refreshToken: Option<string>): (url: string)
    ensures StartsWith(url, base + TokenParam + idToken)
    ensures refreshToken.None? ==> url == base + TokenParam + idToken
    ensures refreshToken.Some? ==>
              url[|base + TokenParam + idToken|..] == RefreshParam + refreshToken.value
  {
    var url := base + TokenParam + idToken;
    if refreshToken.Some? then url + RefreshParam + refreshToken.value else url
  }

  /** Reads the tokens back from a landing URL built on `base`: the query after
      `/?token=` is cut at `&`; its first field is the id token, and an optional second
      field must be a `refresh_token` parameter. */
  function ParseRedirect(url: string, base: string): (tokens: Option<(string, Option<string>)>)
  {
    var head := base + TokenParam;
    if !StartsWith(url, head) then None
    else
      var fields := Split(url[|head|..], '&');
      var refreshName := RefreshParam[1..];
      if |fields| == 1 then Some((fields[0], None))
      else if |fields| == 2 && StartsWith(fields[1], refreshName) then
        Some((fields[0], Some(fields[1][|refreshName|..])))
      else None
  }

  /** The landing URL is unambiguous as long as neither token holds `&`: parsing it gives
      back the id token and the optional refresh token. */
  lemma {:induction false} RedirectRoundTrip(base: string, idToken: string, refreshToken: Option<string>)
    requires '&' !in idToken
    requires refreshToken.Some? ==> '&' !in refreshToken.value
    ensures ParseRedirect(RedirectUrl(base, idToken, refreshToken), base) == Some((idToken, refreshToken))
  {
    var head := base + TokenParam;
    var url := RedirectUrl(base, idToken, refreshToken);
    assert url[..|head|] == head;
    var query := url[|head|..];
    var refreshName := RefreshParam[1..];
    if refreshToken.None? {
      assert query == idToken;
      SplitWithoutSeparator(idToken, '&');
    } else {
      var second := refreshName + refreshToken.value;
      assert '&' !in refreshName;
      assert '&' !in second by {
        forall i | 0 <= i < |second| ensures second[i] != '&' {
          if i >= |refreshName| {
            assert second[i] == refreshToken.value[i - |refreshName|];
          }
        }
      }
      assert query == idToken + ['&'] + second;
      SplitAfterField(idToken, '&', second);
      SplitWithoutSeparator(second, '&');
      assert Split(query, '&') == [idToken, second];
      assert second[..|refreshName|] == refreshName;
      assert second[|refreshName|..] == refreshToken.value;
    }
  }

  /** Because tokens are not escaped, an id token that itself contains a refresh
      parameter gives the same URL as a genuine refresh token. */
  lemma UnescapedTokensCollide(base: string)
    ensures RedirectUrl(base, "a&refresh_token=b", None) == RedirectUrl(base, "a", Some("b"))
  {
  }

  /** `auth`: the userinfo guard, the session writes, then the landing redirect.
      The session's `id_token` entry receives the ACCESS token, while the URL carries
      the id token. A key missing from the token dictionary raises at the point it is
      read, keeping whatever session writes came before. */
  function AuthCallback(token: TokenSet, session: Session, base: string): (r: HandlerResult)
    // falsy userinfo fails before anything is read or written
    ensures !Truthy(token.userinfo) ==> r == HandlerResult(session, Failure(ValueError))
    ensures r.outcome.Success? <==>
              Truthy(token.userinfo) && token.accessToken.Some? && token.idToken.Some?
    // the session is written only once the access token has been read, and then it
    // records the access token under the id-token key
    ensures !(Truthy(token.userinfo) && token.accessToken.Some?) ==> r.session == session
    ensures Truthy(token.userinfo) && token.accessToken.Some? ==>
              IdTokenKey in r.session && r.session[IdTokenKey] == token.accessToken.value
    // the refresh token is stored exactly when the exchange returned one
    ensures Truthy(token.userinfo) && token.accessToken.Some? && token.refreshToken.Some? ==>
              RefreshTokenKey in r.session && r.session[RefreshTokenKey] == token.refreshToken.value
    ensures token.refreshToken.None? ==>
              (RefreshTokenKey in r.session <==> RefreshTokenKey in session)
              && (RefreshTokenKey in session ==> r.session[RefreshTokenKey] == session[RefreshTokenKey])
    // no other session entry changes
    ensures r.session - {IdTokenKey, RefreshTokenKey} == session - {IdTokenKey, RefreshTokenKey}
    // a successful callback lands on the URL built from the id token and refresh token
    ensures r.outcome.Success? ==>
              r.outcome.value.url == RedirectUrl(base, token.idToken.value, token.refreshToken)
  {
    if !Truthy(token.userinfo) then HandlerResult(session, Failure(ValueError))
    else
      match token.accessToken
      case None => HandlerResult(session, Failure(KeyMissing("access_token")))
      case Some(accessToken) =>
        var withAccess := session[IdTokenKey := accessToken];
        var written :=
          if token.refreshToken.Some? then withAccess[RefreshTokenKey := token.refreshToken.value]
          else withAccess;
        match token.idToken
        case None => HandlerResult(written, Failure(KeyMissing("id_token")))
        case Some(idToken) =>
          HandlerResult(written, Success(Redirect(RedirectUrl(base, idToken, token.refreshToken))))
  }

  /** A successful callback hands the client exactly the exchanged id token and optional
      refresh token, readable back from the landing URL when neither holds `&`. */
  lemma CallbackRedirectCarriesTokens(token: TokenSet, session: Session, base: string)
    requires AuthCallback(token, session, base).outcome.Success?
    requires '&' !in token.idToken.value
    requires token.refreshToken.Some? ==> '&' !in token.refreshToken.value
    ensures ParseRedirect(AuthCallback(token, session, base).outcome.value.url, base)
            == Some((token.idToken.value, token.refreshToken))
  {
    RedirectRoundTrip(base, token.idToken.value, token.refreshToken);
  }

  /** The session's `id_token` entry and the URL's `token` parameter hold different
      tokens: the access token goes to the session, the id token to the URL. */
  lemma SessionHoldsAccessToken(token: TokenSet, session: Session, base: string)
    requires Truthy(token.userinfo) && token.accessToken.Some? && token.idToken.Some?
    ensures var r := AuthCallback(token, session, base);
            && IdTokenKey in r.session && r.session[IdTokenKey] == token.accessToken.value
            && r.outcome.Success?
            && StartsWith(r.outcome.value.url, base + TokenParam + token.idToken.value)
  {
  }

  /** `logout`: a redirect to the configured base; the session is left as it is. */
  function Logout(session: Session, base: string): (r: HandlerResult)
    ensures r.session == session
    ensures r.outcome.Success? && r.outcome.value.url == base
  {
    HandlerResult(session, Success(Redirect(base)))
  }

  // ---------------------------------------------------------------------------------
  // Refresh

  const TokenEndpoint: string :=
    "https://norpan-keycloak1.cnaas.sunet.se/realms/norpan/protocol/openid-connect/token"
  const ClientId: string := "nac"
  const RefreshFailedMessage: string := "Failed to refresh token"

  /** A JSON response: status code and a flat JSON object body. */
  datatype JsonResponse = JsonResponse(status: int, body: map<string, string>)

  /** What the POST to the provider produced: a transport error, or a reply whose body
      is a JSON object (Some) or not JSON at all (None). */
  datatype PostResult = TransportError | Reply(status: int, json: Option<map<string, string>>)

  /** Sends form data to a URL. */
  type Poster = (string, map<string, string>) -> PostResult

  /** The form sent to the provider's token endpoint. */
  function RefreshForm(refreshToken: string, clientSecret: string): (form: map<string, string>)
  {
    map["client_id" := ClientId, "client_secret" := clientSecret,
        "refresh_token" := refreshToken, "grant_type" := "refresh_token"]
  }

  /** The status codes for which the HTTP client's status check raises: client and
      server errors. */
  predicate RaisesForStatus(status: int)
  {
    400 <= status < 600
  }

  /** The one response for every failed exchange. */
  const RefreshFailed: JsonResponse := JsonResponse(400, map["error" := RefreshFailedMessage])

  /** The exchange went through: the POST returned and its status check did not raise. */
  predicate Exchanged(reply: PostResult)
  {
    reply.Reply? && !RaisesForStatus(reply.status)
  }

  /** `refresh`: posts the refresh grant; any transport error or error status becomes the
      fixed 400 response, otherwise the new access token is returned alone. Reading the
      body happens outside the error handler, so a non-JSON body or a missing
      `access_token` raises. */
  function Refresh(refreshToken: string, clientSecret: string, post: Poster): (r: Result<JsonResponse, Failure>)
    ensures var reply := post(TokenEndpoint, RefreshForm(refreshToken, clientSecret));
            && (!Exchanged(reply) ==> r == Success(RefreshFailed))
            && (r == Success(RefreshFailed) ==> !Exchanged(reply))
            && (r.Success? && Exchanged(reply) ==>
                  && reply.json.Some? && "access_token" in reply.json.value
                  && r.value.status == 200
                  && r.value.body.Keys == {"access_token"}
                  && r.value.body["access_token"] == reply.json.value["access_token"])
            && (r.Failure? <==> Exchanged(reply)
                                && (reply.json.None? || "access_token" !in reply.json.value))
  {
    match post(TokenEndpoint, RefreshForm(refreshToken, clientSecret))
    case TransportError => Success(RefreshFailed)
    case Reply(status, json) =>
      if RaisesForStatus(status) then Success(RefreshFailed)
      else
        match json
        case None => Failure(ValueError)
        case Some(body) =>
          if "access_token" in body then Success(JsonResponse(200, map["access_token" := body["access_token"]]))
          else Failure(KeyMissing("access_token"))
  }

  /** No provider detail leaks: two failed exchanges, for any tokens and any replies,
      give identical responses. */
  lemma RefreshFailureIsUniform(t1: string, t2: string, s1: string, s2: string, p1: Poster, p2: Poster)
    requires !Exchanged(p1(TokenEndpoint, RefreshForm(t1, s1)))
    requires !Exchanged(p2(TokenEndpoint, RefreshForm(t2, s2)))
    ensures Refresh(t1, s1, p1) == Refresh(t2, s2, p2)
  {
  }

  /** The response is a function of the result of the refresh-grant POST to the
      provider's token endpoint, and of nothing else the provider could do. */
  lemma RefreshDependsOnlyOnPost(refreshToken: string, clientSecret: string, p1: Poster, p2: Poster)
    requires p1(TokenEndpoint, RefreshForm(refreshToken, clientSecret))
             == p2(TokenEndpoint, RefreshForm(refreshToken, clientSecret))
    ensures Refresh(refreshToken, clientSecret, p1) == Refresh(refreshToken, clientSecret, p2)
  {
  }
}

# Authentication gateway of transcribe-backend, in Dafny

This project models the logic the transcribe-backend service owns around its OpenID
Connect login, written as pure functions:

- the **bearer-token gate** `verify_user` / `verify_token` (`auth/oidc.py`). It checks
  that the `Authorization` header is present and starts with exactly `"Bearer "`, and
  takes the token as `split(" ")[1]`. The token is then decoded and its `iss` is
  compared with the provider's issuer. Tokens with `exp < now` are rejected. On success
  the gate returns the `sub` claim.
- the **OAuth callback** `auth` (`app.py`). It guards on `userinfo` and writes the
  session: `id_token` gets the *access* token, and `refresh_token` is written when the
  exchange returned one. It then redirects to `<base>/?token=<id token>`, with
  `&refresh_token=<refresh token>` appended when present.
- the **refresh exchange** `refresh`. Any transport error or error status becomes the
  fixed `400 {"error": "Failed to refresh token"}`. A successful exchange returns
  `{"access_token": …}`.
- **logout**, a constant redirect that leaves the session alone.

Every library or network result is a parameter:

- `Oidc.Decoder` stands for fetching the key set and decoding the JWT with it (None
  when decoding raises).
- The provider issuer and the current time (whole seconds) are plain values.
- `App.TokenSet` is the dictionary returned by the code exchange.
- `App.Poster` is the HTTP POST to the provider.

Exceptions are `Outcomes.Failure` values:

- `Unauthenticated` stands for every `raise UnauthenticatedError(...)`. The class's
  constructor takes no message (auth/oidc.py:23-25), yet every call site passes one.
  Every rejection therefore raises a constructor error instead of a 401, so the model
  keeps one abstract rejection and claims no status code.
- `KeyMissing(key)` is a dictionary lookup of an absent key. This covers the claims
  `iss`, `exp` and `sub`, the token entries `access_token` and `id_token`, and the
  refresh reply's `access_token`.
- `ValueError` is the userinfo guard, and also a refresh reply whose body is not JSON.

Modules: `Outcomes` (option, result, failure), `Strings` (Python `startswith` and
`split` on one character, with `Join` as split's proven inverse), `Oidc` (auth/oidc.py)
and `App` (app.py).

Two facts about the code that the model pins down:

- A token whose expiry equals the current time is admitted, because the expiry test
  at auth/oidc.py:45 is a strict `<`.
- The landing URL carries the *id* token (app.py:61), while the session's `id_token`
  entry holds the *access* token (app.py:56).

## Model

| member | source | states |
|---|---|---|
| Oidc.VerifyUser | auth/oidc.py:50-67 | for an `exp` that `fromtimestamp` can represent, a request is admitted exactly when the header exists, carries the exact `Bearer ` prefix, and the text after it up to the next space decodes to claims with the provider's issuer, `exp >= now` and a subject; the result is then that `sub`; a missing header or wrong prefix is rejected |
| Oidc.ExtractToken | auth/oidc.py:59-62 | `split(" ")[1]` on a prefixed header is always in range and equals the text between the first and the second space; it is a string, possibly empty, never absent, so the None test cannot fire |
| Oidc.BearerSplit | auth/oidc.py:56-59 | a header with the bearer prefix splits into at least two fields, the second being the first space-free run after the prefix |
| Oidc.VerifyToken | auth/oidc.py:32-47 | for an `exp` that `fromtimestamp` can represent, succeeds exactly when decoding succeeds with `iss` equal to the issuer and `exp >= now`, returning the decoded claims; a decode failure is a rejection; a wrong issuer is rejected even when `exp` is missing, so the issuer check comes first |
| Oidc.ExpiryBoundary | auth/oidc.py:44-46 | for an `exp` that `fromtimestamp` can represent and the right issuer, a token is rejected iff `exp < now`, so `exp == now` is accepted |
| Oidc.MissingHeaderConsultsNothing | auth/oidc.py:51-54 | without a header the answer is the same rejection whatever the decoder, issuer and clock |
| Oidc.DecodeFailureConsultsNothing | auth/oidc.py:33-37 | when decoding fails the answer does not depend on the issuer or the clock |
| Oidc.IssuerBeforeExpiry | auth/oidc.py:39-46 | with a wrong issuer the answer does not depend on the clock |
| Oidc.PrefixIsExact | auth/oidc.py:56-57 | a header `bearer …` or `Bearer<TAB>…` is rejected whatever follows: the prefix is case-sensitive and needs a space |
| Oidc.TokenIgnoresTail | auth/oidc.py:59 | for a space-free token, anything after the second space is dropped |
| Oidc.TokenWhole | auth/oidc.py:59 | a header of the prefix and a space-free token yields exactly that token |
| Oidc.EmptyTokens | auth/oidc.py:59-62 | the extracted token may be empty (`Bearer ` and `Bearer  abc`) |
| Strings.Split | auth/oidc.py:59 | `split` on one character gives at least one field, no field holds the separator, and joining the fields back gives the input |
| Strings.SplitJoin | auth/oidc.py:59 | split undoes join when no field holds the separator |
| App.AuthCallback | app.py:49-66 | falsy or missing userinfo raises with the session untouched; the session is written only after `access_token` is read and then holds it under `id_token`; `refresh_token` is written when the exchange returned one and is otherwise left as it was; no other entry changes; the callback succeeds exactly when userinfo is truthy and both tokens are present, and then redirects to `<base>/?token=<id token>` followed by `&refresh_token=<refresh token>` when one was returned |
| App.RedirectUrl | app.py:61-64 | the landing URL starts with `<base>/?token=<id token>`; without a refresh token it is exactly that, and with one it ends in `&refresh_token=<refresh token>` as the last parameter |
| App.RedirectRoundTrip | app.py:61-64 | parsing the landing URL gives back the id token and the optional refresh token when neither holds `&` |
| App.CallbackRedirectCarriesTokens | app.py:56-66 | a successful callback's URL carries the exchanged id token and refresh token |
| App.UnescapedTokensCollide | app.py:61-64 | because tokens are not escaped, an id token containing `&refresh_token=b` gives the same URL as a genuine refresh token `b` |
| App.SessionHoldsAccessToken | app.py:56-61 | for every token set with truthy userinfo and both tokens present, the session's `id_token` entry is the access token while the URL's `token` parameter is the id token |
| App.Logout | app.py:75-77 | logout redirects to the configured base and leaves the session unchanged |
| App.Refresh | app.py:80-98 | a transport error or a status in 400..599 gives the fixed 400 `{"error": "Failed to refresh token"}` and nothing else does; otherwise the response is status 200 with exactly the reply's `access_token`; a non-JSON body or a missing `access_token` raises, since the body is read outside the error handler |
| App.RefreshFailureIsUniform | app.py:89-96 | two failed exchanges give identical responses whatever the tokens and replies, so no provider detail leaks |
| App.RefreshDependsOnlyOnPost | app.py:82-93 | the response is a function of the result of the POST of the refresh-grant form (`client_id` `nac`, secret, token, `grant_type` `refresh_token`) to the fixed token endpoint |

## Left out

- JWT decoding, signature checking and key-set fetching (auth/oidc.py:33-35) belong to
  the OAuth library. They are one `Decoder` parameter, and a network failure while
  fetching keys is not distinguished from a decode failure.
- Loading the provider metadata (auth/oidc.py:39) is a network call, so the issuer is a
  parameter. A failure to load it is not modelled.
- Claims are typed: `iss` and `sub` as strings, `exp` as whole seconds. A claim of
  another JSON type, which would make the comparison or `fromtimestamp` behave
  differently, is not modelled. Fractional seconds and local-time conversion are left
  out too.
- The authorization-code exchange and the login redirect (app.py:51, 69-72) run inside
  the OAuth library, including its anti-forgery state check. The exchange result is the
  `TokenSet` input.
- Token-dictionary values and session values are modelled as strings. A
  `refresh_token` key whose value is not a string, which Python would format into the
  URL, is not modelled.
- App.AuthCallback: the model reports the session as the handler leaves it when a
  missing `id_token` raises after the session writes. Whether the session middleware
  then persists that cookie is not modelled.
- App.Refresh: the JSON body is a flat string-to-string object, and a body that is
  JSON but not an object is not modelled.
- The redirect status code is the framework's default and is not modelled.
- App.RedirectUrl: the model gives the URL as the code concatenates it. The `Location`
  header the framework sends is a percent-quoted form of it, in which `&`, `=`, `/` and
  `?` stay unquoted; that quoting is not modelled.
- Oidc.VerifyToken: `datetime.fromtimestamp` raises for an `exp` outside the range of
  calendar years 1 to 9999, and nothing catches it. The model treats every integer
  `exp` as comparable, so for such an `exp` it admits or rejects where the code raises.
- Oidc.ExpiryBoundary: holds only for an `exp` that `fromtimestamp` can represent, for
  the same reason.
- Oidc.VerifyUser: its admission condition carries the same `exp` range limit.
- App construction, CORS, session middleware, router inclusion and settings loading
  (app.py:18-46, auth/oidc.py:9-20) are wiring.
- The `/docs` self-redirect (app.py:101-105) is plumbing; it only calls `verify_user`.
- Async execution and concurrent requests are not modelled. Each request is handled
  sequentially.

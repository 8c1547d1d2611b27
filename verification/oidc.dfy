/** The bearer-token gate of `auth/oidc.py`: header parsing and token extraction
    (`verify_user`), then decoding, issuer and expiry checks (`verify_token`).
    Key-set fetching and JWT decoding belong to the OAuth library and are passed in as
    a decoder; the provider's issuer and the current time are passed in as values. */
module Oidc {
  import opened Outcomes
  import opened Strings

  /** The only accepted authorization scheme, with exactly one trailing space. */
  const BearerPrefix: string := "Bearer "

  /** The claims of a decoded token that the gate reads. A field is None when the
      decoded claim set has no such key; `exp` is in whole seconds since the epoch. */
  datatype Claims = Claims(iss: Option<string>, exp: Option<int>, sub: Option<string>)

  /** Fetching the provider's key set and decoding a token with it: None when decoding
      raises (bad signature, unknown key, malformed text). */
  type Decoder = string -> Option<Claims>

  /** The claims are trusted: issued by the provider and not yet past their expiry.
      A token whose expiry equals the current second is still trusted. */
  predicate Trusted(c: Claims, issuer: string, now: int)
  {
    c.iss == Some(issuer) && c.exp.Some? && now <= c.exp.value
  }

  /** The text between the first and the second space of a header that carries the
      bearer prefix: `auth_header.split(" ")[1]`. The index is always in range, so the
      token is always a string (possibly empty), never absent. */
  function ExtractToken(header: string): (token: string)
    requires StartsWith(header, BearerPrefix)
    ensures token == FirstField(header[|BearerPrefix|..], ' ')
    ensures ' ' !in token
  {
    BearerSplit(header);
    Split(header, ' ')[1]
  }

  /** Splitting a bearer header on spaces yields the scheme and at least one more field,
      the first field after the scheme's space. */
  lemma BearerSplit(header: string)
    requires StartsWith(header, BearerPrefix)
    ensures |Split(header, ' ')| >= 2
    ensures Split(header, ' ')[1] == FirstField(header[|BearerPrefix|..], ' ')
  {
    var rest := header[|BearerPrefix|..];
    assert header == "Bearer" + [' '] + rest;
    SplitAfterField("Bearer", ' ', rest);
    SplitHead(rest, ' ');
  }

  /** `verify_token`: decode, then compare the issuer, then compare the expiry.
      A missing claim raises a key error at the point it is read. */
  function VerifyToken(idToken: string, decode: Decoder, issuer: string, now: int)
    : (r: Result<Claims, Failure>)
    ensures r.Success? <==> decode(idToken).Some? && Trusted(decode(idToken).value, issuer, now)
    ensures r.Success? ==> Some(r.value) == decode(idToken)
    // a decoding failure is a rejection, and no claim is examined
    ensures decode(idToken).None? ==> r == Failure(Unauthenticated)
    // a wrong issuer is rejected whatever the expiry claim holds, even when it is missing
    ensures (decode(idToken).Some? && decode(idToken).value.iss.Some?
             && decode(idToken).value.iss != Some(issuer)) ==> r == Failure(Unauthenticated)
  {
    match decode(idToken)
    case None => Failure(Unauthenticated)
    case Some(claims) =>
      match claims.iss
      case None => Failure(KeyMissing("iss"))
      case Some(iss) =>
        if iss != issuer then Failure(Unauthenticated)
        else
          match claims.exp
          case None => Failure(KeyMissing("exp"))
          case Some(exp) =>
            if exp < now then Failure(Unauthenticated) else Success(claims)
  }

  /** The gate admits a request exactly when its header carries the bearer prefix, the
      token after it decodes to trusted claims, and those claims name a subject. */
  ghost predicate Admits(header: Option<string>, decode: Decoder, issuer: string, now: int)
  {
    && header.Some?
    && StartsWith(header.value, BearerPrefix)
    && var claims := decode(FirstField(header.value[|BearerPrefix|..], ' '));
    && claims.Some?
    && Trusted(claims.value, issuer, now)
    && claims.value.sub.Some?
  }

  /** `verify_user`: the `Authorization` header must be present and carry the bearer
      prefix; the extracted token is then verified and its subject returned. */
  function VerifyUser(header: Option<string>, decode: Decoder, issuer: string, now: int)
    : (r: Result<string, Failure>)
    ensures r.Success? <==> Admits(header, decode, issuer, now)
    ensures r.Success? ==>
              Some(r.value) == decode(FirstField(header.value[|BearerPrefix|..], ' ')).value.sub
    // no header, or a header without the exact prefix, is rejected before any decoding
    ensures header.None? ==> r == Failure(Unauthenticated)
    ensures header.Some? && !StartsWith(header.value, BearerPrefix) ==> r == Failure(Unauthenticated)
  {
    match header
    case None => Failure(Unauthenticated)
    case Some(h) =>
      if !StartsWith(h, BearerPrefix) then Failure(Unauthenticated)
      else
        // the source's test of the token against None cannot succeed: the token is a string
        var idToken := ExtractToken(h);
        match VerifyToken(idToken, decode, issuer, now)
        case Failure(e) => Failure(e)
        case Success(claims) =>
          match claims.sub
          case None => Failure(KeyMissing("sub"))
          case Some(sub) => Success(sub)
  }

  /** Anything after the second space of the header is dropped. */
  lemma TokenIgnoresTail(token: string, tail: string)
    requires ' ' !in token
    ensures StartsWith(BearerPrefix + token + " " + tail, BearerPrefix)
    ensures ExtractToken(BearerPrefix + token + " " + tail) == token
  {
    var h := BearerPrefix + token + " " + tail;
    assert h[..|BearerPrefix|] == BearerPrefix;
    assert h[|BearerPrefix|..] == token + [' '] + tail;
    FirstFieldStopsAtSeparator(token, ' ', tail);
  }

  /** A header made of the prefix and a space-free token yields exactly that token. */
  lemma TokenWhole(token: string)
    requires ' ' !in token
    ensures StartsWith(BearerPrefix + token, BearerPrefix)
    ensures ExtractToken(BearerPrefix + token) == token
  {
    var h := BearerPrefix + token;
    assert h[..|BearerPrefix|] == BearerPrefix;
    assert h[|BearerPrefix|..] == token;
    FirstFieldWhole(token, ' ');
  }

  /** The extracted token may be empty: the bare prefix, or two spaces after the scheme. */
  lemma EmptyTokens()
    ensures ExtractToken("Bearer ") == ""
    ensures ExtractToken("Bearer  abc") == ""
  {
    TokenWhole("");
    TokenIgnoresTail("", "abc");
  }

  /** The prefix check is case-sensitive and needs a space, not any other blank:
      a lower-case scheme or a tab after it is rejected, whatever follows. */
  lemma PrefixIsExact(rest: string, decode: Decoder, issuer: string, now: int)
    ensures VerifyUser(Some("bearer " + rest), decode, issuer, now) == Failure(Unauthenticated)
    ensures VerifyUser(Some("Bearer\t" + rest), decode, issuer, now) == Failure(Unauthenticated)
  {
  }

  /** The expiry check is strict: expiry equal to now is admitted, one second earlier is not. */
  lemma ExpiryBoundary(idToken: string, decode: Decoder, issuer: string, now: int)
    requires decode(idToken).Some? && decode(idToken).value.iss == Some(issuer)
    requires decode(idToken).value.exp.Some?
    ensures VerifyToken(idToken, decode, issuer, now).Failure?
            <==> decode(idToken).value.exp.value < now
  {
  }

  /** A request without a header gets the same answer whatever the decoder, issuer and
      clock: nothing past the header check is consulted. */
  lemma MissingHeaderConsultsNothing(d1: Decoder, d2: Decoder, i1: string, i2: string, n1: int, n2: int)
    ensures VerifyUser(None, d1, i1, n1) == VerifyUser(None, d2, i2, n2) == Failure(Unauthenticated)
  {
  }

  /** A token that fails to decode gets the same answer whatever the issuer and clock. */
  lemma DecodeFailureConsultsNothing(idToken: string, decode: Decoder, i1: string, i2: string, n1: int, n2: int)
    requires decode(idToken).None?
    ensures VerifyToken(idToken, decode, i1, n1) == VerifyToken(idToken, decode, i2, n2)
  {
  }

  /** A wrong issuer gets the same answer whatever the clock: the issuer check comes first. */
  lemma IssuerBeforeExpiry(idToken: string, decode: Decoder, issuer: string, n1: int, n2: int)
    requires decode(idToken).Some? && decode(idToken).value.iss.Some?
    requires decode(idToken).value.iss != Some(issuer)
    ensures VerifyToken(idToken, decode, issuer, n1) == VerifyToken(idToken, decode, issuer, n2)
  {
  }
}

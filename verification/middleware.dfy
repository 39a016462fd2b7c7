/**
 * The request guard: an ordered chain of early exits on the `Authorization` header, which carries
 * a bearer token (section 2.1 of RFC 6750). Every rejection is status 401 with an error message;
 * only a request that passes every check gets its claims and session attached and proceeds.
 * `GetUserSession` is not part of this model: the session lookup is a parameter.
 */
module Middleware {
  import opened Wrappers
  import opened Models
  import opened Hex
  import opened Auth
  import Crypto

  const BEARER_PREFIX := "Bearer "
  const UNAUTHORIZED := 401

  /** `strings.HasPrefix`: case-sensitive. */
  predicate HasPrefix(s: string, prefix: string)
    ensures HasPrefix(s, prefix) <==> |prefix| <= |s| && forall i | 0 <= i < |prefix| :: s[i] == prefix[i]
  {
    |prefix| <= |s| && s[..|prefix|] == prefix
  }

  /** `strings.TrimPrefix`: one leading copy of the prefix removed, if there is one. */
  function TrimPrefix(s: string, prefix: string): (r: string)
    ensures HasPrefix(s, prefix) ==> prefix + r == s
    ensures !HasPrefix(s, prefix) ==> r == s
  {
    if HasPrefix(s, prefix) then s[|prefix|..] else s
  }

  /** Exactly one "Bearer " is removed, and the scheme name is matched case-sensitively: a header not opening with a capital B never passes. */
  lemma BearerPrefixExamples()
    ensures TrimPrefix("Bearer Bearer abc", BEARER_PREFIX) == "Bearer abc"
    ensures forall s: string | |s| > 0 && s[0] != 'B' :: !HasPrefix(s, BEARER_PREFIX)
    ensures !HasPrefix("bearer abc", BEARER_PREFIX)
    ensures !HasPrefix("Bearer", BEARER_PREFIX)
  {
    assert HasPrefix("Bearer Bearer abc", BEARER_PREFIX);
    assert "Bearer abc" == "Bearer Bearer abc"[7..];
    assert "bearer abc"[0] != BEARER_PREFIX[0];
  }

  datatype Rejection = MissingToken | InvalidTokenFormat | TokenExpired | InvalidToken | TokenRevoked

  /** The `error` field of the 401 body. */
  function Message(why: Rejection): (text: string)
    ensures text != ""
    ensures text == "invalid token" <==> why == InvalidToken
  {
    match why
    case MissingToken => "missing token"
    case InvalidTokenFormat => "invalid token format"
    case TokenExpired => "token expired"
    case InvalidToken => "invalid token"
    case TokenRevoked => "token revoked"
  }

  /** The five rejections answer with five different texts, so a client can tell them apart. */
  lemma MessagesDistinct(a: Rejection, b: Rejection)
    ensures Message(a) == Message(b) ==> a == b
  {
  }

  datatype LookupError = LookupError(message: string)

  datatype GuardOutcome = Reject(reason: Rejection) | Admit(claims: Claims, session: UserSession)

  /** Every check passes: a bearer header, a valid token, a session found and not revoked. */
  predicate Passes(authHeader: string, jwtSecret: string, now: int, codec: JwtCodec,
                   getUserSession: (string, Claims) -> Result<UserSession, LookupError>)
  {
    var tokenString := TrimPrefix(authHeader, BEARER_PREFIX);
    var validated := ValidateToken(tokenString, jwtSecret, now, codec);
    && authHeader != ""
    && HasPrefix(authHeader, BEARER_PREFIX)
    && validated.Success?
    && getUserSession(tokenString, validated.value).Success?
    && !getUserSession(tokenString, validated.value).value.isRevoked
  }

  /**
   * The decision `CheckJWT` takes, with the early exit after "invalid token" that the chain
   * evidently intends. `getUserSession(raw, claims)` stands for `repositories.GetUserSession`.
   */
  function Guard(authHeader: string, jwtSecret: string, now: int, codec: JwtCodec,
                 getUserSession: (string, Claims) -> Result<UserSession, LookupError>): (r: GuardOutcome)
    ensures authHeader == "" ==> r == Reject(MissingToken)
    ensures authHeader != "" && !HasPrefix(authHeader, BEARER_PREFIX) ==> r == Reject(InvalidTokenFormat)
    ensures HasPrefix(authHeader, BEARER_PREFIX) ==>
      var tokenString := TrimPrefix(authHeader, BEARER_PREFIX);
      var validated := ValidateToken(tokenString, jwtSecret, now, codec);
      && (validated.Failure? && IsExpired(validated.error) ==> r == Reject(TokenExpired))
      && (validated.Failure? && !IsExpired(validated.error) ==> r == Reject(InvalidToken))
      && (validated.Success? && getUserSession(tokenString, validated.value).Failure? ==> r == Reject(InvalidToken))
      && ((validated.Success? && getUserSession(tokenString, validated.value).Success? &&
           getUserSession(tokenString, validated.value).value.isRevoked) ==> r == Reject(TokenRevoked))
    ensures r.Admit? <==> Passes(authHeader, jwtSecret, now, codec, getUserSession)
    ensures r.Admit? ==>
      var tokenString := TrimPrefix(authHeader, BEARER_PREFIX);
      && Success(r.claims) == ValidateToken(tokenString, jwtSecret, now, codec)
      && Success(r.session) == getUserSession(tokenString, r.claims)
  {
    if authHeader == "" then Reject(MissingToken)
    else if !HasPrefix(authHeader, BEARER_PREFIX) then Reject(InvalidTokenFormat)
    else
      var tokenString := TrimPrefix(authHeader, BEARER_PREFIX);
      match ValidateToken(tokenString, jwtSecret, now, codec)
      case Failure(err) => if IsExpired(err) then Reject(TokenExpired) else Reject(InvalidToken)
      case Success(claims) =>
        match getUserSession(tokenString, claims)
        case Failure(_) => Reject(InvalidToken)
        case Success(userSession) =>
          if userSession.isRevoked then Reject(TokenRevoked) else Admit(claims, userSession)
  }

  /**
   * A freshly issued access token, presented as "Bearer <token>" within 24 hours, is admitted with
   * TOTP-verified access claims when the lookup finds a live session for it; after 24 hours it is
   * rejected as expired before any lookup.
   */
  lemma IssuedAccessTokenGuard(
    user: User, deviceInfo: DeviceInfo, jwtSecret: string, issuedAt: int,
    tokenJti: Uuid, refreshTokenJti: Uuid,
    codec: JwtCodec, sha256: string -> Crypto.Digest, marshal: DeviceInfo -> Option<seq<byte>>,
    getUserSession: (string, Claims) -> Result<UserSession, LookupError>, at: int)
    requires CodecSound(codec)
    requires IssuePair(user, deviceInfo, jwtSecret, issuedAt, tokenJti, refreshTokenJti, codec, sha256, marshal).Success?
    ensures var issued := IssuePair(user, deviceInfo, jwtSecret, issuedAt, tokenJti, refreshTokenJti, codec, sha256, marshal).value;
      var accessToken := issued.pair.accessToken;
      var outcome := Guard(BEARER_PREFIX + accessToken, jwtSecret, at, codec, getUserSession);
      && (at >= issuedAt + ACCESS_TOKEN_LIFETIME ==> outcome == Reject(TokenExpired))
      && (at < issuedAt + ACCESS_TOKEN_LIFETIME && getUserSession(accessToken, AccessClaims(user, tokenJti, issuedAt)) == Success(issued.session) ==>
            outcome == Admit(AccessClaims(user, tokenJti, issuedAt), issued.session) && outcome.claims.totpVerified)
  {
    var issued := IssuePair(user, deviceInfo, jwtSecret, issuedAt, tokenJti, refreshTokenJti, codec, sha256, marshal).value;
    var header := BEARER_PREFIX + issued.pair.accessToken;
    assert HasPrefix(header, BEARER_PREFIX);
    assert TrimPrefix(header, BEARER_PREFIX) == issued.pair.accessToken;
    SignedTokenValidUntilExpiry(AccessClaims(user, tokenJti, issuedAt), jwtSecret, codec, at);
  }

  // ---------------------------------------------------------------- the request context

  datatype ContextValue = ClaimsValue(claims: Claims) | SessionValue(session: UserSession)

  /** The parts of a `gin.Context` the guard reads and writes. */
  class Context {
    /** The value of `GetHeader("Authorization")`: "" when the header is absent. */
    const authorization: string
    var aborted: bool
    var status: int
    var errorMessage: Option<string>
    var keys: map<string, ContextValue>
    var nextCalled: bool

    constructor (authorization: string)
      ensures this.authorization == authorization
      ensures !aborted && status == 200 && errorMessage.None? && keys == map[] && !nextCalled
    {
      this.authorization := authorization;
      aborted, status, errorMessage, keys, nextCalled := false, 200, None, map[], false;
    }

    /** `AbortWithStatusJSON(code, {"error": message})`. */
    method AbortWithStatusJson(code: int, message: string)
      modifies this
      ensures aborted && status == code && errorMessage == Some(message)
      ensures keys == old(keys) && nextCalled == old(nextCalled)
    {
      aborted, status, errorMessage := true, code, Some(message);
    }

    method Set(key: string, value: ContextValue)
      modifies this
      ensures keys == old(keys)[key := value]
      ensures aborted == old(aborted) && status == old(status) && errorMessage == old(errorMessage)
      ensures nextCalled == old(nextCalled)
    {
      keys := keys[key := value];
    }

    method Next()
      modifies this
      ensures nextCalled
      ensures aborted == old(aborted) && status == old(status) && errorMessage == old(errorMessage)
      ensures keys == old(keys)
    {
      nextCalled := true;
    }
  }

  /**
   * The handler `CheckJWT` returns, run on one request: a rejection aborts with 401 and its
   * message and attaches nothing; admission attaches claims and session and calls the next handler.
   */
  method CheckJwt(c: Context, jwtSecret: string, now: int, codec: JwtCodec,
                  getUserSession: (string, Claims) -> Result<UserSession, LookupError>)
    modifies c
    ensures match Guard(c.authorization, jwtSecret, now, codec, getUserSession)
      case Reject(why) =>
        && c.aborted && c.status == UNAUTHORIZED && c.errorMessage == Some(Message(why))
        && c.keys == old(c.keys) && c.nextCalled == old(c.nextCalled)
      case Admit(claims, session) =>
        && c.keys == old(c.keys)["claims" := ClaimsValue(claims)]["userSession" := SessionValue(session)]
        && c.nextCalled
        && c.aborted == old(c.aborted) && c.status == old(c.status) && c.errorMessage == old(c.errorMessage)
  {
    var authHeader := c.authorization;
    if authHeader == "" {
      c.AbortWithStatusJson(UNAUTHORIZED, "missing token");
      return;
    }
    if !HasPrefix(authHeader, BEARER_PREFIX) {
      c.AbortWithStatusJson(UNAUTHORIZED, "invalid token format");
      return;
    }
    var tokenString := TrimPrefix(authHeader, BEARER_PREFIX);
    var validated := ValidateToken(tokenString, jwtSecret, now, codec);
    if validated.Failure? {
      if IsExpired(validated.error) {
        c.AbortWithStatusJson(UNAUTHORIZED, "token expired");
        return;
      }
      c.AbortWithStatusJson(UNAUTHORIZED, "invalid token");
      return;
    }
    var claims := validated.value;
    var userSession := getUserSession(tokenString, claims);
    if userSession.Failure? {
      c.AbortWithStatusJson(UNAUTHORIZED, "invalid token");
      return;
    }
    if userSession.value.isRevoked {
      c.AbortWithStatusJson(UNAUTHORIZED, "token revoked");
      return;
    }
    c.Set("claims", ClaimsValue(claims));
    c.Set("userSession", SessionValue(userSession.value));
    c.Next();
  }

  // ---------------------------------------------------------------- the chain as written

  /** What the handler does to the request, in order; NilDereference is a runtime panic. */
  datatype Effect = Abort(status: int, message: string) | SetKey(key: string, value: ContextValue) | CallNext | NilDereference

  /** The effects of the intended chain. */
  function Effects(outcome: GuardOutcome): (effects: seq<Effect>)
    ensures outcome.Reject? <==> |effects| == 1 && effects[0].Abort?
    ensures CallNext in effects <==> outcome.Admit?
  {
    match outcome
    case Reject(why) => [Abort(UNAUTHORIZED, Message(why))]
    case Admit(claims, session) =>
      [SetKey("claims", ClaimsValue(claims)), SetKey("userSession", SessionValue(session)), CallNext]
  }

  /**
   * The chain as the source writes it: the "invalid token" abort has no `return`, so execution
   * goes on to `GetUserSession(token.Raw, ...)` with the nil token of the failed validation.
   * Every other path is the intended one.
   */
  function CheckJwtAsWritten(authHeader: string, jwtSecret: string, now: int, codec: JwtCodec,
                             getUserSession: (string, Claims) -> Result<UserSession, LookupError>): (effects: seq<Effect>)
    ensures |effects| >= 1 && effects[0] == Effects(Guard(authHeader, jwtSecret, now, codec, getUserSession))[0]
    ensures NilDereference in effects ==> Guard(authHeader, jwtSecret, now, codec, getUserSession) == Reject(InvalidToken)
  {
    var validated := ValidateToken(TrimPrefix(authHeader, BEARER_PREFIX), jwtSecret, now, codec);
    if HasPrefix(authHeader, BEARER_PREFIX) && validated.Failure? && !IsExpired(validated.error) then
      [Abort(UNAUTHORIZED, Message(InvalidToken)), NilDereference]
    else
      Effects(Guard(authHeader, jwtSecret, now, codec, getUserSession))
  }

  /**
   * Any bearer token that fails validation for a reason other than expiry makes the chain as written run on past its abort.
   * That the run-on dereferences nil assumes `ValidateToken` yields a nil token on every error, as `services/auth.go:147`
   * does; jwt's parser itself returns a nil token only for a token it cannot split or decode, such as "x".
   */
  lemma MissingReturnFallsThrough(authHeader: string, jwtSecret: string, now: int, codec: JwtCodec,
                                  getUserSession: (string, Claims) -> Result<UserSession, LookupError>)
    requires HasPrefix(authHeader, BEARER_PREFIX)
    requires var v := ValidateToken(TrimPrefix(authHeader, BEARER_PREFIX), jwtSecret, now, codec);
      v.Failure? && !IsExpired(v.error)
    ensures CheckJwtAsWritten(authHeader, jwtSecret, now, codec, getUserSession) ==
      [Abort(UNAUTHORIZED, "invalid token"), NilDereference]
    ensures Effects(Guard(authHeader, jwtSecret, now, codec, getUserSession)) == [Abort(UNAUTHORIZED, "invalid token")]
  {
  }

  /** A concrete request that shows it: "Bearer x" where "x" is not a JWT at all. */
  lemma MalformedTokenFallsThrough(jwtSecret: string, now: int)
    ensures var codec := JwtCodec((c: Claims, k: string) => None, (t: string) => None, (t: string, m: SigningMethod, k: string) => false);
      var lookup := (t: string, c: Claims) => Failure(LookupError("record not found"));
      && CheckJwtAsWritten("Bearer x", jwtSecret, now, codec, lookup) == [Abort(UNAUTHORIZED, "invalid token"), NilDereference]
      && Guard("Bearer x", jwtSecret, now, codec, lookup) == Reject(InvalidToken)
  {
    var codec := JwtCodec((c: Claims, k: string) => None, (t: string) => None, (t: string, m: SigningMethod, k: string) => false);
    assert HasPrefix("Bearer x", BEARER_PREFIX);
    assert TrimPrefix("Bearer x", BEARER_PREFIX) == "x";
    assert ValidateToken("x", jwtSecret, now, codec) == Failure(Malformed);
  }

  /** Off that one path, the session-lookup failure that also answers "invalid token" included, the chain as written does exactly what the intended chain does. */
  lemma AsWrittenAgreesElsewhere(authHeader: string, jwtSecret: string, now: int, codec: JwtCodec,
                                 getUserSession: (string, Claims) -> Result<UserSession, LookupError>)
    requires var v := ValidateToken(TrimPrefix(authHeader, BEARER_PREFIX), jwtSecret, now, codec);
      !(HasPrefix(authHeader, BEARER_PREFIX) && v.Failure? && !IsExpired(v.error))
    ensures CheckJwtAsWritten(authHeader, jwtSecret, now, codec, getUserSession) ==
      Effects(Guard(authHeader, jwtSecret, now, codec, getUserSession))
  {
  }
}

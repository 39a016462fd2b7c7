/**
 * Token issuance and validation: JWT claims (RFC 7519) for temporary, access and refresh tokens,
 * HS256 signatures (section 3.2 of RFC 7518), and the session row stored for an access/refresh pair.
 * Signing and parsing are a record of functions; CodecSound states what the model relies on.
 * The clock (`now`, in seconds) and the UUID draws are inputs.
 */
module Auth {
  import opened Wrappers
  import opened Hex
  import opened Models
  import Crypto

  const ACCESS_TOKEN_LIFETIME := 24 * 60 * 60
  const REFRESH_TOKEN_LIFETIME := 7 * 24 * 60 * 60

  /** The `alg` values a JWT header can name. */
  datatype SigningMethod =
    | HS256 | HS384 | HS512
    | RS256 | RS384 | RS512
    | PS256 | PS384 | PS512
    | ES256 | ES384 | ES512
    | EdDSA | NoneAlg

  /** The methods of type `*jwt.SigningMethodHMAC`. */
  predicate IsHmac(m: SigningMethod) {
    m.HS256? || m.HS384? || m.HS512?
  }

  /** What parsing a token string yields before any check: its signing method and its claims. */
  datatype Decoded = Decoded(alg: SigningMethod, claims: Claims)

  /**
   * `sign(claims, key)`: `jwt.NewWithClaims(HS256, claims).SignedString(key)` (None on error).
   * `decode(token)`: split, base64url-decode and JSON-decode header and payload; None when the
   * token is malformed or names an unknown method.
   * `verify(token, method, key)`: the method's signature check over the token's signing input.
   */
  datatype JwtCodec = JwtCodec(
    sign: (Claims, string) -> Option<string>,
    decode: string -> Option<Decoded>,
    verify: (string, SigningMethod, string) -> bool)

  /**
   * A signed token decodes to HS256 and the claims it was signed with, its signature checks under
   * the same key, and its compact serialization contains a '.' (section 7.1 of RFC 7515).
   */
  ghost predicate CodecSound(c: JwtCodec) {
    forall claims, key :: c.sign(claims, key).Some? ==>
      && c.decode(c.sign(claims, key).value) == Some(Decoded(HS256, claims))
      && c.verify(c.sign(claims, key).value, HS256, key)
      && '.' in c.sign(claims, key).value
  }

  datatype AuthError =
    | SignFailed                     // "failed to sign tokens", or the temp token's signing error
    | MarshalFailed                  // json.Marshal of the device info failed
    | SessionInsertFailed(err: DbError)

  /** Why `jwt.ParseWithClaims` refused a token. */
  datatype ValidationError =
    | Malformed
    | UnexpectedSigningMethod
    | SignatureInvalid
    | InvalidClaims(expired: bool, notValidYet: bool)

  /** `errors.Is(err, jwt.ErrTokenExpired)`. */
  predicate IsExpired(e: ValidationError)
    ensures IsExpired(e) ==> e.InvalidClaims? && e.expired
    ensures e.InvalidClaims? && e.expired ==> IsExpired(e)
  {
    e.InvalidClaims? && e.expired
  }

  /** The claims all three token kinds share, with no issuer, no audience and no not-before time. */
  function NewClaims(user: User, tokenType: string, totpVerified: bool, jti: Uuid, issuedAt: int, expiresAt: int): Claims
  {
    Claims(user.userId, user.email, tokenType, totpVerified,
      RegisteredClaims("", UuidString(user.userId), [], Some(expiresAt), None, Some(issuedAt), UuidString(jti)))
  }

  function TempClaims(user: User, jti: Uuid, now: int, duration: int): (c: Claims)
    ensures Describes(c, user, jti, TEMP_AUTH, false, now, now + duration)
  {
    NewClaims(user, TEMP_AUTH, false, jti, now, now + duration)
  }

  function AccessClaims(user: User, jti: Uuid, now: int): (c: Claims)
    ensures Describes(c, user, jti, ACCESS_TOKEN, true, now, now + ACCESS_TOKEN_LIFETIME)
  {
    NewClaims(user, ACCESS_TOKEN, true, jti, now, now + ACCESS_TOKEN_LIFETIME)
  }

  function RefreshClaims(user: User, jti: Uuid, now: int): (c: Claims)
    ensures Describes(c, user, jti, REFRESH_TOKEN, true, now, now + REFRESH_TOKEN_LIFETIME)
  {
    NewClaims(user, REFRESH_TOKEN, true, jti, now, now + REFRESH_TOKEN_LIFETIME)
  }

  /** The claims a token kind promises about a user, a token id and an issue time. */
  predicate Describes(c: Claims, user: User, jti: Uuid, tokenType: string, totpVerified: bool, issuedAt: int, expiresAt: int) {
    && c.userId == user.userId
    && c.email == user.email
    && c.tokenType == tokenType
    && c.totpVerified == totpVerified
    && c.registered.id == UuidString(jti)
    && c.registered.subject == UuidString(user.userId)
    && c.registered.issuer == ""
    && c.registered.issuedAt == Some(issuedAt)
    && c.registered.expiresAt == Some(expiresAt)
    && c.registered.notBefore.None?
  }

  /** `GenerateTempToken`: a temp_auth token, TOTP not verified, expiring `duration` seconds after issue. */
  function GenerateTempToken(user: User, duration: int, jwtSecret: string, jti: Uuid, now: int, codec: JwtCodec)
    : (r: Result<string, AuthError>)
    ensures r.Failure? <==> codec.sign(TempClaims(user, jti, now, duration), jwtSecret).None?
    ensures r.Failure? ==> r.error == SignFailed
    ensures r.Success? ==> Some(r.value) == codec.sign(TempClaims(user, jti, now, duration), jwtSecret)
    ensures CodecSound(codec) && r.Success? ==>
      && codec.decode(r.value).Some?
      && codec.decode(r.value).value.alg == HS256
      && Describes(codec.decode(r.value).value.claims, user, jti, TEMP_AUTH, false, now, now + duration)
  {
    match codec.sign(TempClaims(user, jti, now, duration), jwtSecret)
    case None => Failure(SignFailed)
    case Some(tokenString) => Success(tokenString)
  }

  /** The time-based claim checks of jwt's default validator: `exp` must be later than now, `nbf` not later. */
  function ClaimsError(c: Claims, now: int): (r: Option<ValidationError>)
    ensures r.None? <==>
      (c.registered.expiresAt.None? || now < c.registered.expiresAt.value) &&
      (c.registered.notBefore.None? || now >= c.registered.notBefore.value)
    ensures r.Some? ==>
      && r.value.InvalidClaims?
      && (r.value.expired <==> c.registered.expiresAt.Some? && now >= c.registered.expiresAt.value)
  {
    var expired := c.registered.expiresAt.Some? && !(now < c.registered.expiresAt.value);
    var early := c.registered.notBefore.Some? && now < c.registered.notBefore.value;
    if expired || early then Some(InvalidClaims(expired, early)) else None
  }

  /**
   * `ValidateToken`: parse; the key function refuses every non-HMAC method; check the signature;
   * then the claims. Claims come back only when all of these passed.
   */
  function ValidateToken(tokenString: string, jwtSecret: string, now: int, codec: JwtCodec)
    : (r: Result<Claims, ValidationError>)
    ensures r.Success? <==>
      && codec.decode(tokenString).Some?
      && IsHmac(codec.decode(tokenString).value.alg)
      && codec.verify(tokenString, codec.decode(tokenString).value.alg, jwtSecret)
      && ClaimsError(codec.decode(tokenString).value.claims, now).None?
    ensures r.Success? ==> r.value == codec.decode(tokenString).value.claims
    ensures codec.decode(tokenString).None? ==> r == Failure(Malformed)
    ensures codec.decode(tokenString).Some? && !IsHmac(codec.decode(tokenString).value.alg) ==>
      r == Failure(UnexpectedSigningMethod)
    ensures r.Failure? && IsExpired(r.error) ==>
      codec.verify(tokenString, codec.decode(tokenString).value.alg, jwtSecret)
  {
    match codec.decode(tokenString)
    case None => Failure(Malformed)
    case Some(Decoded(alg, claims)) =>
      if !IsHmac(alg) then Failure(UnexpectedSigningMethod)
      else if !codec.verify(tokenString, alg, jwtSecret) then Failure(SignatureInvalid)
      else
        match ClaimsError(claims, now)
        case Some(e) => Failure(e)
        case None => Success(claims)
  }

  /** A token this service signed validates, with the key it was signed with, exactly until it expires. */
  lemma SignedTokenValidUntilExpiry(claims: Claims, jwtSecret: string, codec: JwtCodec, at: int)
    requires CodecSound(codec)
    requires codec.sign(claims, jwtSecret).Some?
    requires claims.registered.expiresAt.Some? && claims.registered.notBefore.None?
    ensures var exp := claims.registered.expiresAt.value;
      ValidateToken(codec.sign(claims, jwtSecret).value, jwtSecret, at, codec) ==
        if at < exp then Success(claims) else Failure(InvalidClaims(true, false))
  {
    var t := codec.sign(claims, jwtSecret).value;
    assert codec.decode(t) == Some(Decoded(HS256, claims));
    assert codec.verify(t, HS256, jwtSecret);
  }

  /** A temp token validates, with TOTP unverified, for `duration` seconds from issue and is expired from then on. */
  lemma TempTokenLifetime(user: User, duration: int, jwtSecret: string, jti: Uuid, now: int, codec: JwtCodec, at: int)
    requires CodecSound(codec)
    requires GenerateTempToken(user, duration, jwtSecret, jti, now, codec).Success?
    ensures var v := ValidateToken(GenerateTempToken(user, duration, jwtSecret, jti, now, codec).value, jwtSecret, at, codec);
      && (at < now + duration ==> v.Success? && v.value.tokenType == TEMP_AUTH && !v.value.totpVerified)
      && (at >= now + duration ==> v.Failure? && IsExpired(v.error))
  {
    SignedTokenValidUntilExpiry(TempClaims(user, jti, now, duration), jwtSecret, codec, at);
  }

  // ---------------------------------------------------------------- access/refresh pairs

  /** A signed pair and the session row that records it. */
  datatype Issued = Issued(pair: PairToken, session: UserSession)

  /**
   * What `GenerateTokenWithSession` computes before the insert: both tokens are signed, and only
   * when both signatures and the device-info marshalling succeeded is a session row built, holding
   * the two token ids and the SHA-256 hex hashes of the two token strings.
   */
  function IssuePair(
    user: User, deviceInfo: DeviceInfo, jwtSecret: string, now: int,
    tokenJti: Uuid, refreshTokenJti: Uuid,
    codec: JwtCodec, sha256: string -> Crypto.Digest, marshal: DeviceInfo -> Option<seq<byte>>)
    : (r: Result<Issued, AuthError>)
    ensures r.Failure? <==>
      codec.sign(AccessClaims(user, tokenJti, now), jwtSecret).None? ||
      codec.sign(RefreshClaims(user, refreshTokenJti, now), jwtSecret).None? ||
      marshal(deviceInfo).None?
    ensures (codec.sign(AccessClaims(user, tokenJti, now), jwtSecret).None? ||
             codec.sign(RefreshClaims(user, refreshTokenJti, now), jwtSecret).None?) ==> r == Failure(SignFailed)
    ensures r.Success? ==>
      var pair, session := r.value.pair, r.value.session;
      && codec.sign(AccessClaims(user, tokenJti, now), jwtSecret) == Some(pair.accessToken)
      && codec.sign(RefreshClaims(user, refreshTokenJti, now), jwtSecret) == Some(pair.refreshToken)
      && session.userId == user.userId
      && session.tokenId == UuidString(tokenJti)
      && session.refreshTokenId == UuidString(refreshTokenJti)
      && session.tokenHash == Crypto.HashSHA256(pair.accessToken, sha256)
      && session.refreshTokenHash == Crypto.HashSHA256(pair.refreshToken, sha256)
      && session.deviceInfo == marshal(deviceInfo).value
      && !session.isRevoked
  {
    var accessToken := codec.sign(AccessClaims(user, tokenJti, now), jwtSecret);
    var refreshToken := codec.sign(RefreshClaims(user, refreshTokenJti, now), jwtSecret);
    if accessToken.None? || refreshToken.None? then Failure(SignFailed)
    else
      match marshal(deviceInfo)
      case None => Failure(MarshalFailed)
      case Some(deviceJson) =>
        var session := UserSession(
          user.userId, UuidString(tokenJti), UuidString(refreshTokenJti),
          Crypto.HashSHA256(accessToken.value, sha256), Crypto.HashSHA256(refreshToken.value, sha256),
          deviceJson, false);
        Success(Issued(PairToken(accessToken.value, refreshToken.value), session))
  }

  /**
   * The pair's claims: access and refresh tokens share the issue time, are both TOTP-verified,
   * expire 24 hours and 7 days after it, and carry the ids the session row records.
   */
  lemma PairTokenClaims(
    user: User, deviceInfo: DeviceInfo, jwtSecret: string, now: int,
    tokenJti: Uuid, refreshTokenJti: Uuid,
    codec: JwtCodec, sha256: string -> Crypto.Digest, marshal: DeviceInfo -> Option<seq<byte>>)
    requires CodecSound(codec)
    requires IssuePair(user, deviceInfo, jwtSecret, now, tokenJti, refreshTokenJti, codec, sha256, marshal).Success?
    ensures var issued := IssuePair(user, deviceInfo, jwtSecret, now, tokenJti, refreshTokenJti, codec, sha256, marshal).value;
      var access := codec.decode(issued.pair.accessToken);
      var refresh := codec.decode(issued.pair.refreshToken);
      && access.Some? && access.value.alg == HS256
      && refresh.Some? && refresh.value.alg == HS256
      && Describes(access.value.claims, user, tokenJti, ACCESS_TOKEN, true, now, now + 24 * 60 * 60)
      && Describes(refresh.value.claims, user, refreshTokenJti, REFRESH_TOKEN, true, now, now + 7 * 24 * 60 * 60)
      && access.value.claims.registered.id == issued.session.tokenId
      && refresh.value.claims.registered.id == issued.session.refreshTokenId
  {
    var issued := IssuePair(user, deviceInfo, jwtSecret, now, tokenJti, refreshTokenJti, codec, sha256, marshal).value;
    assert codec.sign(AccessClaims(user, tokenJti, now), jwtSecret) == Some(issued.pair.accessToken);
    assert codec.sign(RefreshClaims(user, refreshTokenJti, now), jwtSecret) == Some(issued.pair.refreshToken);
  }

  /** The access token validates for 24 hours after issue, the refresh token for 7 days; both are expired afterwards. */
  lemma PairLifetimes(
    user: User, deviceInfo: DeviceInfo, jwtSecret: string, now: int,
    tokenJti: Uuid, refreshTokenJti: Uuid,
    codec: JwtCodec, sha256: string -> Crypto.Digest, marshal: DeviceInfo -> Option<seq<byte>>, at: int)
    requires CodecSound(codec)
    requires IssuePair(user, deviceInfo, jwtSecret, now, tokenJti, refreshTokenJti, codec, sha256, marshal).Success?
    ensures var pair := IssuePair(user, deviceInfo, jwtSecret, now, tokenJti, refreshTokenJti, codec, sha256, marshal).value.pair;
      var access := ValidateToken(pair.accessToken, jwtSecret, at, codec);
      var refresh := ValidateToken(pair.refreshToken, jwtSecret, at, codec);
      && (access.Success? <==> at < now + 24 * 60 * 60)
      && (access.Failure? ==> IsExpired(access.error))
      && (refresh.Success? <==> at < now + 7 * 24 * 60 * 60)
      && (refresh.Failure? ==> IsExpired(refresh.error))
      && (access.Success? ==> access.value.totpVerified && access.value.tokenType == ACCESS_TOKEN)
  {
    SignedTokenValidUntilExpiry(AccessClaims(user, tokenJti, now), jwtSecret, codec, at);
    SignedTokenValidUntilExpiry(RefreshClaims(user, refreshTokenJti, now), jwtSecret, codec, at);
  }

  /**
   * The session row never holds a raw token string, and a presented token matches the stored
   * access hash only if its SHA-256 digest equals the issued access token's.
   */
  lemma SessionHoldsOnlyHashes(
    user: User, deviceInfo: DeviceInfo, jwtSecret: string, now: int,
    tokenJti: Uuid, refreshTokenJti: Uuid,
    codec: JwtCodec, sha256: string -> Crypto.Digest, marshal: DeviceInfo -> Option<seq<byte>>, presented: string)
    requires CodecSound(codec)
    requires IssuePair(user, deviceInfo, jwtSecret, now, tokenJti, refreshTokenJti, codec, sha256, marshal).Success?
    ensures var issued := IssuePair(user, deviceInfo, jwtSecret, now, tokenJti, refreshTokenJti, codec, sha256, marshal).value;
      && issued.session.tokenHash != issued.pair.accessToken
      && issued.session.refreshTokenHash != issued.pair.refreshToken
      && issued.session.tokenHash != issued.pair.refreshToken
      && issued.session.refreshTokenHash != issued.pair.accessToken
      && (Crypto.HashSHA256(presented, sha256) == issued.session.tokenHash ==> sha256(presented) == sha256(issued.pair.accessToken))
  {
    var issued := IssuePair(user, deviceInfo, jwtSecret, now, tokenJti, refreshTokenJti, codec, sha256, marshal).value;
    var access, refresh := issued.pair.accessToken, issued.pair.refreshToken;
    assert codec.sign(AccessClaims(user, tokenJti, now), jwtSecret) == Some(access);
    assert codec.sign(RefreshClaims(user, refreshTokenJti, now), jwtSecret) == Some(refresh);
    NoDotInHash(access, sha256);
    NoDotInHash(refresh, sha256);
    if Crypto.HashSHA256(presented, sha256) == issued.session.tokenHash {
      Crypto.HashSHA256Injective(presented, access, sha256);
    }
  }

  /** A hex hash differs from every string that contains a '.'. */
  lemma NoDotInHash(data: string, sha256: string -> Crypto.Digest)
    ensures '.' !in Crypto.HashSHA256(data, sha256)
  {
    var h := Crypto.HashSHA256(data, sha256);
    forall i | 0 <= i < |h| ensures h[i] != '.' {
      assert IsDigit(h[i]);
    }
  }

  // ---------------------------------------------------------------- the session table

  /** Every token id, access or refresh, recorded in some row. */
  function TokenIds(rows: seq<UserSession>): (ids: set<string>)
    ensures forall i :: 0 <= i < |rows| ==> rows[i].tokenId in ids && rows[i].refreshTokenId in ids
  {
    if rows == [] then {} else TokenIds(rows[..|rows| - 1]) + {rows[|rows| - 1].tokenId, rows[|rows| - 1].refreshTokenId}
  }

  /** No token id appears twice in the table, within a row or across rows. */
  ghost predicate UniqueTokenIds(rows: seq<UserSession>) {
    && (forall i :: 0 <= i < |rows| ==> rows[i].tokenId != rows[i].refreshTokenId)
    && (forall i, j :: 0 <= i < j < |rows| ==>
          && rows[i].tokenId != rows[j].tokenId
          && rows[i].tokenId != rows[j].refreshTokenId
          && rows[i].refreshTokenId != rows[j].tokenId
          && rows[i].refreshTokenId != rows[j].refreshTokenId)
  }

  /** Two fresh, separate UUID draws keep every token id in the table unique. */
  lemma FreshDrawsKeepIdsUnique(
    rows: seq<UserSession>,
    user: User, deviceInfo: DeviceInfo, jwtSecret: string, now: int,
    tokenJti: Uuid, refreshTokenJti: Uuid,
    codec: JwtCodec, sha256: string -> Crypto.Digest, marshal: DeviceInfo -> Option<seq<byte>>)
    requires UniqueTokenIds(rows)
    requires tokenJti != refreshTokenJti
    requires UuidString(tokenJti) !in TokenIds(rows) && UuidString(refreshTokenJti) !in TokenIds(rows)
    requires IssuePair(user, deviceInfo, jwtSecret, now, tokenJti, refreshTokenJti, codec, sha256, marshal).Success?
    ensures UniqueTokenIds(rows + [IssuePair(user, deviceInfo, jwtSecret, now, tokenJti, refreshTokenJti, codec, sha256, marshal).value.session])
  {
    var s := IssuePair(user, deviceInfo, jwtSecret, now, tokenJti, refreshTokenJti, codec, sha256, marshal).value.session;
    if UuidString(tokenJti) == UuidString(refreshTokenJti) {
      UuidStringInjective(tokenJti, refreshTokenJti);
    }
    var rows' := rows + [s];
    forall i, j | 0 <= i < j < |rows'|
      ensures rows'[i].tokenId != rows'[j].tokenId && rows'[i].tokenId != rows'[j].refreshTokenId
      ensures rows'[i].refreshTokenId != rows'[j].tokenId && rows'[i].refreshTokenId != rows'[j].refreshTokenId
    {
      if j == |rows| {
        assert rows'[i] == rows[i];
      }
    }
  }

  /** The session table (`user_sessions`): rows in insertion order. */
  class SessionTable {
    var rows: seq<UserSession>

    constructor ()
      ensures rows == []
    {
      rows := [];
    }

    /** gorm's `Create`: the row is added unless the database reports `fault`. */
    method Create(session: UserSession, fault: Option<DbError>) returns (err: Option<DbError>)
      modifies this
      ensures err == fault
      ensures rows == if fault.None? then old(rows) + [session] else old(rows)
    {
      err := fault;
      if fault.None? {
        rows := rows + [session];
      }
    }
  }

  /**
   * `GenerateTokenWithSession`: sign both tokens, hash them, build the session row, insert it.
   * No row is inserted unless both signatures succeeded, no tokens are returned when the insert
   * fails, and on success the returned strings are exactly the ones whose hashes were stored.
   */
  method GenerateTokenWithSession(
    user: User, deviceInfo: DeviceInfo, db: SessionTable, jwtSecret: string, now: int,
    tokenJti: Uuid, refreshTokenJti: Uuid,
    codec: JwtCodec, sha256: string -> Crypto.Digest, marshal: DeviceInfo -> Option<seq<byte>>,
    insertFault: Option<DbError>)
    returns (r: Result<PairToken, AuthError>)
    modifies db
    ensures var issued := IssuePair(user, deviceInfo, jwtSecret, now, tokenJti, refreshTokenJti, codec, sha256, marshal);
      if issued.Failure? then r == Failure(issued.error) && db.rows == old(db.rows)
      else if insertFault.Some? then r == Failure(SessionInsertFailed(insertFault.value)) && db.rows == old(db.rows)
      else r == Success(issued.value.pair) && db.rows == old(db.rows) + [issued.value.session]
  {
    var accessClaims := AccessClaims(user, tokenJti, now);
    var refreshClaims := RefreshClaims(user, refreshTokenJti, now);
    var accessTokenString := codec.sign(accessClaims, jwtSecret);
    var refreshTokenString := codec.sign(refreshClaims, jwtSecret);
    if accessTokenString.None? || refreshTokenString.None? {
      return Failure(SignFailed);
    }
    var accessTokenHash := Crypto.HashSHA256(accessTokenString.value, sha256);
    var refreshTokenHash := Crypto.HashSHA256(refreshTokenString.value, sha256);
    var deviceJson := marshal(deviceInfo);
    if deviceJson.None? {
      return Failure(MarshalFailed);
    }
    var userSession := UserSession(
      user.userId, UuidString(tokenJti), UuidString(refreshTokenJti),
      accessTokenHash, refreshTokenHash, deviceJson.value, false);
    var createSessionErr := db.Create(userSession, insertFault);
    if createSessionErr.Some? {
      return Failure(SessionInsertFailed(createSessionErr.value));
    }
    return Success(PairToken(accessTokenString.value, refreshTokenString.value));
  }
}

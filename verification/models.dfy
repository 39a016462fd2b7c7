/**
 * The records the service stores and exchanges: users with their TOTP configuration,
 * JWT claims, token pairs, device information and session rows.
 * Times are whole seconds since the Unix epoch; a Go `*time.Time` is an `Option<int>`.
 */
module Models {
  import opened Wrappers
  import opened Hex

  /** A `uuid.UUID`: sixteen bytes. */
  type Uuid = u: seq<byte> | |u| == 16 witness seq(16, _ => 0)

  /** `uuid.UUID.String()`: the 8-4-4-4-12 grouping of lower-case hex digits. */
  function UuidString(u: Uuid): (s: string)
    ensures |s| == 36
    ensures s[8] == '-' && s[13] == '-' && s[18] == '-' && s[23] == '-'
  {
    Encode(u[..4]) + "-" + Encode(u[4..6]) + "-" + Encode(u[6..8]) + "-" + Encode(u[8..10]) + "-" + Encode(u[10..])
  }

  /** The string form of a UUID determines the UUID. */
  lemma UuidStringInjective(a: Uuid, b: Uuid)
    requires UuidString(a) == UuidString(b)
    ensures a == b
  {
    var s, t := UuidString(a), UuidString(b);
    assert s[..8] == Encode(a[..4]) && t[..8] == Encode(b[..4]);
    assert s[9..13] == Encode(a[4..6]) && t[9..13] == Encode(b[4..6]);
    assert s[14..18] == Encode(a[6..8]) && t[14..18] == Encode(b[6..8]);
    assert s[19..23] == Encode(a[8..10]) && t[19..23] == Encode(b[8..10]);
    assert s[24..] == Encode(a[10..]) && t[24..] == Encode(b[10..]);
    EncodeInjective(a[..4], b[..4]);
    EncodeInjective(a[4..6], b[4..6]);
    EncodeInjective(a[6..8], b[6..8]);
    EncodeInjective(a[8..10], b[8..10]);
    EncodeInjective(a[10..], b[10..]);
    assert a == a[..4] + a[4..6] + a[6..8] + a[8..10] + a[10..];
    assert b == b[..4] + b[4..6] + b[6..8] + b[8..10] + b[10..];
  }

  datatype UserTotp = UserTotp(
    userTotpId: Uuid,
    userId: Uuid,
    secret: string,
    isEnabled: bool,
    lastUsedAt: Option<int>,
    createdAt: Option<int>)

  datatype User = User(
    userId: Uuid,
    name: string,
    email: string,
    password: string,
    createdAt: Option<int>,
    updatedAt: Option<int>,
    userTotp: UserTotp)

  /** The three values of the `type` claim. */
  const TEMP_AUTH := "temp_auth"
  const ACCESS_TOKEN := "access_token"
  const REFRESH_TOKEN := "refresh_token"

  /** The registered claim names of section 4.1 of RFC 7519, as `jwt.RegisteredClaims` holds them. */
  datatype RegisteredClaims = RegisteredClaims(
    issuer: string,
    subject: string,
    audience: seq<string>,
    expiresAt: Option<int>,
    notBefore: Option<int>,
    issuedAt: Option<int>,
    id: string)

  datatype Claims = Claims(
    userId: Uuid,
    email: string,
    tokenType: string,
    totpVerified: bool,
    registered: RegisteredClaims)

  datatype PairToken = PairToken(accessToken: string, refreshToken: string)

  /** Client metadata; the user-agent parsing that fills it is not part of this model. */
  datatype DeviceInfo = DeviceInfo(
    ipAddress: string,
    userAgent: string,
    deviceType: string,
    browser: string,
    os: string)

  /** A session row: the ids of an issued access/refresh pair and the hashes of the two token strings. */
  datatype UserSession = UserSession(
    userId: Uuid,
    tokenId: string,
    refreshTokenId: string,
    tokenHash: string,
    refreshTokenHash: string,
    deviceInfo: seq<byte>,
    isRevoked: bool)

  /** An error the database layer reports. */
  datatype DbError = DbError(message: string)
}

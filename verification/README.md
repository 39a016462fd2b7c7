# User service credential and session core, in Dafny

This project models the credential and session core of a Go user service. The service signs up users with bcrypt-hashed passwords. It issues HS256-signed JWTs: temporary TOTP-pending tokens, and access/refresh pairs that it records as session rows holding SHA-256 hashes of the token strings. It validates tokens, and it guards requests on the `Authorization: Bearer` header. TOTP secrets are encrypted with AES-GCM for storage. The repository layer has its own error taxonomy.

Modules, one per source component:

- `Wrappers`: `Option` and `Result`, the model of Go's `(T, error)` returns.
- `Hex`: the `byte` type and lower-case hex encoding as `encoding/hex` writes it, with its inverse.
- `Models`: the records of `models/User.go` and `models/Claims.go`, and `uuid.UUID.String()`.
- `Crypto` (`utils/crypto.go`): bcrypt wrappers, `HashSHA256`, the encryptor's key check and ciphertext framing.
- `RepoErrors` (`repositories/errors.go`): error codes, the error record, `Error`, `Is`, `Unwrap`, the predefined errors.
- `Auth` (`services/auth.go`): claims for the three token kinds, signing, validation, the session row, the session table.
- `Middleware` (`api/middleware.go`): the guard's decision chain, the request context it writes, and the chain as written.
- `Users` (`api/init.go`, `repositories/User.go`): the signup flow over an email-keyed user table.

The model treats cryptographic and encoding primitives as records of functions. A ghost predicate states the only facts the proofs rely on. Members that need those facts take the predicate as a `requires`:

- `Crypto.BcryptSound`: a hash bcrypt produced compares equal to its password.
- `Crypto.AeadSound`: the nonce is 12 bytes, and opening what was sealed under the same nonce gives back the plaintext.
- `Crypto.Base64Sound`: decoding undoes encoding.
- `Auth.CodecSound`: a signed token decodes to HS256 and its claims, its signature checks under the same key, and it contains a '.' (compact serialization, section 7.1 of RFC 7515).

SHA-256 is a function `string -> Digest` (32 bytes). Hex encoding and the UUID string form are concrete. The clock (`now`, whole seconds) and the random draws are inputs: UUIDs, nonce bytes and the bcrypt salt. So are the database's answers: a lookup or insert fault.

## Behaviour of the source worth noting

- The temporary token lives for the caller's `duration`; `GenerateTempToken` fixes no lifetime of its own.
- Emails are not case-normalized: the lookup and the insert use the email exactly as it was bound.
- The guard does not check the token type. Whether a temporary or refresh token passes depends on `GetUserSession`, which is not part of this model.

The source does not compile. The model takes each function's evident intent:

- `api/middleware.go:32` destructures three results from `ValidateToken`, which returns two. The model uses its claims and error, and takes `token.Raw` to be the token string that was parsed.
- `GetUserSession` is not part of this model. It is the parameter `getUserSession(raw, claims)`.
- `models.UserSessions` declares no fields. The session row has the six fields set at `services/auth.go:116-123`, plus `IsRevoked`, which `api/middleware.go:49` reads.
- `api/init.go:75` answers with `user.ID`, but `User` has only `UserID`. The model answers with the stored user's `UserID`.
- `repositories/User.go` imports `api`, and `api` imports `repositories`: an import cycle. `utils/auth.go` redeclares `HashPassword`. `AppState` lacks the `EncryptorManager` field that `main.go:43` sets. None of these affects the model.
- The `"invalid token"` branch at `services/auth.go:154` cannot be reached. jwt v5 sets `token.Valid` whenever `ParseWithClaims` returns no error, and the claims always have type `*models.Claims`. `Auth.ValidateToken` therefore has no such branch.

`Auth.ValidateToken` follows the order of jwt v5's `ParseWithClaims`:

1. Decode. A malformed token or an unknown `alg` fails here.
2. Run the key function, which refuses every non-HMAC method.
3. Check the signature.
4. Run the default claims validator: `exp` must be later than now, `nbf` no later than now.

Only the last step can report *expired*. So a forged or foreign-method token is *invalid* even when it has expired.

## Model

| member | source | states |
|---|---|---|
| `Hex.Encode` | utils/crypto.go:31 | two lower-case hex digits per byte, so the text is twice as long as the digest |
| `Hex.DecodeEncode` | utils/crypto.go:31 | decoding the hex text gives back the bytes (proved by induction) |
| `Hex.EncodeInjective` | utils/crypto.go:31 | distinct byte strings have distinct hex text |
| `Models.UuidString` | services/auth.go:31 | `UUID.String()` is 36 characters with dashes at positions 8, 13, 18 and 23 |
| `Models.UuidStringInjective` | services/auth.go:56-57 | two distinct UUID draws give distinct token-id strings |
| `Crypto.HashPassword` | utils/crypto.go:17-20 | succeeds exactly when bcrypt produced a hash, and returns that hash |
| `Crypto.CheckPasswordHash` | utils/crypto.go:23-26 | true exactly when the bcrypt comparison reports no error, so a wrong password or a malformed hash is refused; under a sound bcrypt, accepts the password against every hash bcrypt generated from it |
| `Crypto.CheckAcceptsOwnHash` | utils/crypto.go:23-26 | CheckPasswordHash is true when the bcrypt comparison reports no error, so it accepts a password against its own bcrypt hash |
| `Crypto.HashSHA256` | utils/crypto.go:29-32 | output is 64 lower-case hex characters, and it decodes back to the SHA-256 digest |
| `Crypto.HashSHA256Injective` | utils/crypto.go:29-32 | equal hash strings imply equal digests |
| `Crypto.NewEncryptorManager` | utils/crypto.go:38-57 | fails for every key whose length is not 32 bytes; otherwise holds the AEAD built from the key |
| `Crypto.SealedText` | utils/crypto.go:66-67 | the stored text decodes back to the nonce followed by the sealed secret, so its first NonceSize bytes are the nonce |
| `Crypto.ReadFull` | utils/crypto.go:60-64 | the nonce buffer is filled exactly from the random source, or an error is reported when the source runs short |
| `Crypto.EncryptSecret` | utils/crypto.go:59-68 | fails exactly when the random source cannot supply NonceSize bytes; otherwise returns base64 of the nonce followed by the sealed secret |
| `Crypto.DecryptSecretAsWritten` | utils/crypto.go:70-84 | the source's decryption, whose split at NonceSize requires the decoded text to be long enough |
| `Crypto.ShortCiphertextPanics` | utils/crypto.go:77 | the base64 of no bytes decodes, yet violates that requirement |
| `Crypto.DecryptSecret` | utils/crypto.go:70-84 | invalid base64 and too-short input fail; plaintext is returned only when the AEAD opened the ciphertext, and an authentication failure never yields plaintext |
| `Crypto.DecryptSecretAgrees` | utils/crypto.go:70-84 | wherever the source's version is defined, the checked version gives the same answer |
| `Crypto.DecryptInvertsEncrypt` | utils/crypto.go:59-84 | decrypting what EncryptSecret produced gives back the secret |
| `RepoErrors.CodeValue` | repositories/errors.go:8-19 | every code has an `iota` value between 0 and 9 |
| `RepoErrors.CodeValuesDistinct` | repositories/errors.go:8-19 | the ten codes have distinct values, from 0 up to 9 |
| `RepoErrors.ErrorText` | repositories/errors.go:29-34 | a plain error prints its own text; a repository error's text begins with its message, followed by ": " when it wraps a cause |
| `RepoErrors.ErrorTextShape` | repositories/errors.go:29-34 | `Error()` is `Message + ": " + Err.Error()` when Err is non-nil, and Message otherwise |
| `RepoErrors.Unwrap` | repositories/errors.go:37-39 | returns exactly the wrapped Err |
| `RepoErrors.UnwrapNewRepositoryError` | repositories/errors.go:37-57 | Unwrap gives back the cause the error was built with, and the error's text ends with that cause's text |
| `RepoErrors.Is` | repositories/errors.go:42-48 | true exactly when the target is a repository error with the same code |
| `RepoErrors.IsComparesCodesOnly` | repositories/errors.go:42-48 | Is is true iff the target is a RepositoryError with the same code; nil and other errors never match |
| `RepoErrors.IsEquivalence` | repositories/errors.go:42-48 | on repository errors, Is is reflexive, symmetric and transitive |
| `RepoErrors.NewRepositoryError` | repositories/errors.go:51-57 | stores code, message and cause unchanged |
| `RepoErrors.PredefinedErrors` | repositories/errors.go:60-75 | the predefined errors carry codes 0, 1 and 2 and print as their messages |
| `RepoErrors.WrappedMatchesPredefined` | repositories/errors.go:42-57 | for each of the three predefined errors, an error built with its code matches it, whatever its message and cause, and a database error never does |
| `Auth.TempClaims` | services/auth.go:24-36 | the temp claims describe the user, the token id, type temp_auth, TOTP unverified, issued now and expiring after `duration` |
| `Auth.AccessClaims` | services/auth.go:63-74 | the access claims describe the user and token id, type access_token, TOTP verified, expiring 24 hours after issue |
| `Auth.RefreshClaims` | services/auth.go:78-89 | the refresh claims describe the user and token id, type refresh_token, TOTP verified, expiring 7×24 hours after issue |
| `Auth.GenerateTempToken` | services/auth.go:19-46 | fails, with a signing error, exactly when signing the temp claims fails, and otherwise returns the signed string; under a sound codec that string is an HS256 token whose claims have type temp_auth, TOTPVerified false, IssuedAt now, ExpiresAt now + duration, Subject the user id string, jti the drawn id |
| `Auth.IsExpired` | api/middleware.go:35 | `errors.Is(err, jwt.ErrTokenExpired)` holds exactly for a claims-validation failure with the expired flag set, never for a malformed token, a foreign method or a bad signature |
| `Auth.ValidateToken` | services/auth.go:138-155 | claims are returned iff the token parses, its method is HMAC, its signature checks and its claims are current; non-HMAC methods are refused; expiry is only reported for a token whose signature checked |
| `Auth.SignedTokenValidUntilExpiry` | services/auth.go:138-155 | a token signed with the key validates, returning its claims, exactly until its expiry, and is expired from then on |
| `Auth.TempTokenLifetime` | services/auth.go:20-36 | a temp token validates with TOTP unverified for `duration` seconds and is expired afterwards |
| `Auth.IssuePair` | services/auth.go:55-123 | fails if either signature (or the device-info marshalling) fails; otherwise the session row holds the user id, the two token ids, the SHA-256 hex hashes of the two returned token strings, and is not revoked |
| `Auth.PairTokenClaims` | services/auth.go:56-90 | access and refresh claims share IssuedAt, are both TOTP-verified, expire 24 hours and 7×24 hours later, and carry the jtis the session row records |
| `Auth.PairLifetimes` | services/auth.go:58-90 | the access token validates exactly for 24 hours and the refresh token for 7 days; both are expired afterwards |
| `Auth.SessionHoldsOnlyHashes` | services/auth.go:104-122 | the session row never holds a raw token string, and a presented token matches the stored hash only if its digest equals the issued token's |
| `Auth.FreshDrawsKeepIdsUnique` | services/auth.go:116-125 | two separate, unused UUID draws keep every token id in the session table unique |
| `Auth.SessionTable.Create` | services/auth.go:125-129 | the row is appended unless the database reports an error, which is returned |
| `Auth.GenerateTokenWithSession` | services/auth.go:49-135 | no row is inserted unless both signatures succeeded; an insert failure returns an error and no tokens; on success the returned pair is exactly the strings whose hashes were stored |
| `Middleware.HasPrefix` | api/middleware.go:24 | `strings.HasPrefix`: the header is at least as long as the prefix and agrees with it character by character, case included |
| `Middleware.Message` | api/middleware.go:18-50 | every 401 text is non-empty, and the text is "invalid token" exactly for the invalid-token rejection |
| `Middleware.MessagesDistinct` | api/middleware.go:18-50 | the five rejections answer with five different texts |
| `Middleware.TrimPrefix` | api/middleware.go:29 | the token string is the header with exactly one leading "Bearer " removed |
| `Middleware.BearerPrefixExamples` | api/middleware.go:22-29 | no header whose first character is not a capital B carries the prefix, so the scheme is matched case-sensitively; and, illustrating `TrimPrefix`'s contract, one prefix is removed from "Bearer Bearer abc" |
| `Middleware.Guard` | api/middleware.go:15-57 | the chain in order: empty header → missing token; no "Bearer " → invalid token format; expired → token expired; other validation error → invalid token; lookup error (keyed by raw token and claims) → invalid token; revoked → token revoked; admitted iff every check passed, with the validated claims and the looked-up session |
| `Middleware.IssuedAccessTokenGuard` | api/middleware.go:29-57 | an issued access token is admitted with TOTP-verified claims within 24 hours when its live session is found, and is rejected as expired afterwards |
| `Middleware.CheckJwt` | api/middleware.go:13-59 | a rejection aborts with 401 and its message and attaches nothing; admission sets "claims" and "userSession" and calls Next |
| `Middleware.MissingReturnFallsThrough` | api/middleware.go:34-42 | as written, a non-expiry validation failure aborts and then runs on into a nil dereference; the intended chain stops at the abort |
| `Middleware.MalformedTokenFallsThrough` | api/middleware.go:34-42 | the header "Bearer x", with a token that does not parse, shows it |
| `Middleware.AsWrittenAgreesElsewhere` | api/middleware.go:15-57 | on every other path, the session-lookup failure that also answers "invalid token" included, the chain as written has the intended effects |
| `Middleware.CheckJwtAsWritten` | api/middleware.go:15-57 | the chain as written: its first effect is always the intended one, and it runs on into a nil dereference only where the intended chain rejects with "invalid token" |
| `Users.Find` | api/init.go:42 | the lookup by email succeeds exactly when there is no fault and the email is stored, returning that row; with no fault a miss is not-found; a fault comes back as that database error |
| `Users.Register` | repositories/User.go:15-40 | the shared check-then-insert flow: an existing email stops it exactly when the lookup succeeds, a lookup fault stops it, a bcrypt failure on a free email stops it; the user is created exactly when the email is free, bcrypt succeeds and the insert succeeds, and a created user is the input with its password replaced by its bcrypt hash, under a fresh email |
| `Users.AfterRegister` | repositories/User.go:35 | a created user adds exactly one row, under its email; any other outcome leaves the table as it was, and existing rows are never changed |
| `Users.AfterSignUp` | api/init.go:67 | the table only grows, by at most the submitted email; a body that does not bind or an email already stored leaves it unchanged |
| `Users.SignUpResponse` | api/init.go:30-75 | the status is one of 201, 400, 409, 500; 400 exactly for a body that does not bind, 409 exactly for an email the lookup finds, 201 exactly when a user was created, with that user's id |
| `Users.BindFailureIsBadRequest` | api/init.go:30-40 | a body that does not bind yields 400 with the binding error, and the table is unchanged |
| `Users.FailuresChangeNothing` | api/init.go:42-73 | existing email → 409 and no insert; other lookup error → 500; hash failure → 500; every failure leaves the table unchanged (CreateUser's new table is the same AfterRegister) |
| `Users.SuccessfulSignUp` | api/init.go:57-75 | success yields 201 with the user's id, and adds exactly one row under that email: the input user with Password replaced by its bcrypt hash, which CheckPasswordHash accepts |
| `Users.UserTable.First` | repositories/User.go:15 | the row found has the looked-up email, and not-found is distinguished from other errors |
| `Users.UserTable.Create` | repositories/User.go:35 | inserts the row unless the database faults or the email is already taken |
| `Users.UserTable.RegisterUser` | repositories/User.go:14-40 | the shared check-then-insert flow; the table changes only when a user is created |
| `Users.UserTable.SignUp` | api/init.go:27-76 | the response and new table are those of the signup specification, and the table stays keyed by email |
| `Users.UserTable.CreateUser` | repositories/User.go:13-41 | the same flow, reporting nothing on any path; the table stays keyed by email |

## Findings

| source | as written | input that shows it | evidently intended | confidence | as-written member | corrected member |
|---|---|---|---|---|---|---|
| api/middleware.go:39-40 | the "invalid token" abort has no `return`, so the handler goes on to `GetUserSession(token.Raw, ...)` with the nil token of the failed validation | `Authorization: Bearer x`, where `x` is not a JWT (jwt's parser returns a nil token for it; for other failures, such as a bad signature, the nil dereference assumes that validation hands back a nil token on every error, as `services/auth.go:146-148` does) | return right after the abort, like every other rejection | not executed; high | `Middleware.CheckJwtAsWritten` with `Middleware.MalformedTokenFallsThrough` | `Middleware.Guard` (used by `Middleware.CheckJwt`) |
| utils/crypto.go:77 | the split at line 77 has no length check; its `cipherText[NonceSize():]` half panics when the decoded text is shorter than 12 bytes | the empty string, which is base64 of no bytes | fail with an error, like the other malformed inputs | not executed; high | `Crypto.DecryptSecretAsWritten` with `Crypto.ShortCiphertextPanics` | `Crypto.DecryptSecret` |

## Left out

- Process startup, environment and configuration loading, the Postgres connection and migration, and route registration (`main.go`, `configs/`, `api/auth.go`). They contain no logic to verify.
- Logging. At `api/init.go:70` and `repositories/User.go:38` the log call reads `err.Error()` on the nil `err` of the successful hash, not `createErr`, and would panic. `gin.Default()` (`main.go:46`) installs a recovery handler that answers 500, which is the response the model gives for an insert failure.
- The internals of bcrypt, SHA-256, AES-GCM, HS256 signing, JWT parsing, base64, UUID generation and JSON. They are function parameters constrained only by the predicates above. The 72-byte bcrypt password limit is inside `generate`.
- The conversions between Go strings and bytes. SHA-256 is taken over a string directly. The encryptor's plaintext is a byte sequence.
- User-agent parsing (`utils/api.go`). Device info is an opaque record, and its JSON is a byte sequence from a `marshal` parameter.
- `GetUserSession`, which is not part of this model. The guard takes the lookup as a parameter.
- The email-uniqueness race between lookup and insert. This is concurrency, and the database's unique constraint resolves it. The sequential `Users.UserTable.Create` does refuse a duplicate email.
- The database-generated `UserID` and the `now()` timestamp defaults. The stored user is the bound user with its password replaced.
- The commented-out `RevokeSession`, the empty `LogIn` and the empty repository stubs. They contain no code.
- `aes.NewCipher` and `cipher.NewGCM` errors. Neither can happen once the key is 32 bytes, so the length check is the only failure of `Crypto.NewEncryptorManager`.
- The hard-coded signing key "secret" at `api/middleware.go:32`. The key is a parameter.
- `Auth.GenerateTempToken`: the duration is in whole seconds. Go's nanosecond `time.Duration` is not modelled, nor is NumericDate truncating to the second.
- `Auth.ValidateToken`: the validator options the source does not set are not modelled: leeway, audience, issuer, and issued-at checking.

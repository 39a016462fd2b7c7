/**
 * Password hashing, token hashing and the authenticated encryption of TOTP secrets.
 * bcrypt, SHA-256 (FIPS 180-4), AES-GCM (NIST SP 800-38D) and base64 (section 4 of RFC 4648)
 * are not computed here: each is a record of functions, and a ghost predicate states the
 * round-trip facts the model relies on. Hex encoding is concrete.
 */
module Crypto {
  import opened Wrappers
  import opened Hex

  datatype CryptoError =
    | KeyLength            // "Encryption key must be 32 bytes"
    | RandomSourceFailed   // io.ReadFull could not fill the nonce
    | Base64Invalid        // base64.StdEncoding.DecodeString failed
    | CiphertextTooShort   // decoded text shorter than the nonce
    | AuthenticationFailed // gcm.Open rejected the ciphertext
    | HashingFailed        // bcrypt.GenerateFromPassword failed

  // ---------------------------------------------------------------- bcrypt

  type Salt = seq<byte>

  datatype BcryptError = MismatchedHashAndPassword | MalformedHash

  /**
   * `generate(password, salt)` is `bcrypt.GenerateFromPassword` at the default cost with the salt
   * drawn from the random source (None when it fails); `compare(hash, password)` is
   * `bcrypt.CompareHashAndPassword` (None when it reports no error).
   */
  datatype Bcrypt = Bcrypt(
    generate: (string, Salt) -> Option<string>,
    compare: (string, string) -> Option<BcryptError>)

  /** A hash bcrypt produced for a password is accepted for that password. */
  ghost predicate BcryptSound(b: Bcrypt) {
    forall password, salt :: b.generate(password, salt).Some? ==>
      b.compare(b.generate(password, salt).value, password).None?
  }

  function HashPassword(password: string, salt: Salt, b: Bcrypt): (r: Result<string, CryptoError>)
    ensures r.Success? <==> b.generate(password, salt).Some?
    ensures r.Success? ==> r.value == b.generate(password, salt).value
    ensures r.Failure? ==> r.error == HashingFailed
  {
    match b.generate(password, salt)
    case Some(h) => Success(h)
    case None => Failure(HashingFailed)
  }

  /** `CheckPasswordHash`: the comparison reports no error; under a sound bcrypt it accepts every hash bcrypt made of the password. */
  function CheckPasswordHash(password: string, hashedPassword: string, b: Bcrypt): (ok: bool)
    ensures ok <==> b.compare(hashedPassword, password).None?
    ensures BcryptSound(b) ==> forall salt :: b.generate(password, salt) == Some(hashedPassword) ==> ok
  {
    b.compare(hashedPassword, password).None?
  }

  /** CheckPasswordHash is true exactly when the comparison reports no error, and it accepts every password against its own hash. */
  lemma CheckAcceptsOwnHash(password: string, salt: Salt, b: Bcrypt)
    requires BcryptSound(b)
    requires HashPassword(password, salt, b).Success?
    ensures CheckPasswordHash(password, HashPassword(password, salt, b).value, b)
  {
  }

  // ---------------------------------------------------------------- SHA-256

  type Digest = d: seq<byte> | |d| == 32 witness seq(32, _ => 0)

  /** `HashSHA256`: the hex text of the SHA-256 digest of the string's bytes. */
  function HashSHA256(data: string, sha256: string -> Digest): (h: string)
    ensures |h| == 64
    ensures forall i :: 0 <= i < |h| ==> IsDigit(h[i])
    ensures Decode(h) == Some(sha256(data))
  {
    DecodeEncode(sha256(data));
    Encode(sha256(data))
  }

  /** Equal hash strings come from equal digests. */
  lemma HashSHA256Injective(a: string, b: string, sha256: string -> Digest)
    requires HashSHA256(a, sha256) == HashSHA256(b, sha256)
    ensures sha256(a) == sha256(b)
  {
    assert Decode(HashSHA256(a, sha256)) == Some(sha256(a));
  }

  // ---------------------------------------------------------------- AES-GCM

  const KEY_SIZE := 32
  /** The nonce size of `cipher.NewGCM`. */
  const GCM_STANDARD_NONCE_SIZE := 12

  /** `cipher.AEAD` for one key: `seal(nonce, plaintext)` and `open(nonce, sealed)`, no additional data. */
  datatype Aead = Aead(
    nonceSize: nat,
    seal: (seq<byte>, seq<byte>) -> seq<byte>,
    open: (seq<byte>, seq<byte>) -> Option<seq<byte>>)

  /** The standard nonce size, and opening what was sealed under the same nonce gives back the plaintext. */
  ghost predicate AeadSound(a: Aead) {
    && a.nonceSize == GCM_STANDARD_NONCE_SIZE
    && forall nonce, plaintext :: |nonce| == a.nonceSize ==>
         a.open(nonce, a.seal(nonce, plaintext)) == Some(plaintext)
  }

  // ---------------------------------------------------------------- base64

  datatype Base64 = Base64(encode: seq<byte> -> string, decode: string -> Option<seq<byte>>)

  ghost predicate Base64Sound(b: Base64) {
    forall bytes :: b.decode(b.encode(bytes)) == Some(bytes)
  }

  // ---------------------------------------------------------------- the encryptor

  /** Holds the AEAD built once from the key; it is never changed afterwards. */
  datatype EncryptorManager = EncryptorManager(gcm: Aead)

  /**
   * `aesGcm(key)` stands for `cipher.NewGCM(aes.NewCipher(key))`; neither call can fail once
   * the key is 32 bytes long, so the length check is the only failure.
   */
  function NewEncryptorManager(key: seq<byte>, aesGcm: seq<byte> -> Aead): (r: Result<EncryptorManager, CryptoError>)
    ensures r.Success? <==> |key| == KEY_SIZE
    ensures r.Success? ==> r.value.gcm == aesGcm(key)
    ensures r.Failure? ==> r.error == KeyLength
  {
    if |key| != KEY_SIZE then Failure(KeyLength)
    else Success(EncryptorManager(aesGcm(key)))
  }

  /** The stored form of a secret: base64 of the nonce followed by the sealed secret. */
  function SealedText(em: EncryptorManager, b64: Base64, nonce: seq<byte>, secret: seq<byte>): (s: string)
    ensures Base64Sound(b64) ==> b64.decode(s) == Some(nonce + em.gcm.seal(nonce, secret))
    ensures Base64Sound(b64) ==> b64.decode(s).value[..|nonce|] == nonce
  {
    b64.encode(nonce + em.gcm.seal(nonce, secret))
  }

  /** `io.ReadFull` into a buffer, from a random source that yields `source` and then fails. */
  method ReadFull(buf: array<byte>, source: seq<byte>) returns (err: Option<CryptoError>)
    modifies buf
    ensures err.None? <==> buf.Length <= |source|
    ensures err.Some? ==> err.value == RandomSourceFailed
    ensures err.None? ==> buf[..] == source[..buf.Length]
  {
    var n := 0;
    while n < buf.Length && n < |source|
      invariant n <= buf.Length && n <= |source|
      invariant buf[..n] == source[..n]
    {
      buf[n] := source[n];
      n := n + 1;
    }
    if n < buf.Length {
      return Some(RandomSourceFailed);
    }
    assert buf[..] == buf[..n];
    return None;
  }

  /** `EncryptSecret`: a fresh nonce from the random source, sealed secret appended, base64 of both. */
  method EncryptSecret(em: EncryptorManager, b64: Base64, secret: seq<byte>, random: seq<byte>)
    returns (r: Result<string, CryptoError>)
    ensures r.Failure? <==> |random| < em.gcm.nonceSize
    ensures r.Failure? ==> r.error == RandomSourceFailed
    ensures r.Success? ==> r.value == SealedText(em, b64, random[..em.gcm.nonceSize], secret)
  {
    var nonce := new byte[em.gcm.nonceSize];
    var err := ReadFull(nonce, random);
    if err.Some? {
      return Failure(err.value);
    }
    var cipherText := nonce[..] + em.gcm.seal(nonce[..], secret);
    r := Success(b64.encode(cipherText));
  }

  /**
   * `DecryptSecret` as the source writes it: the split at utils/crypto.go:77 (its `cipherText[NonceSize():]` half) panics when the decoded
   * text is shorter than the nonce, so that case is a precondition here.
   */
  function DecryptSecretAsWritten(em: EncryptorManager, b64: Base64, encryptedText: string): (r: Result<seq<byte>, CryptoError>)
    requires b64.decode(encryptedText).Some? ==> |b64.decode(encryptedText).value| >= em.gcm.nonceSize
    ensures b64.decode(encryptedText).None? ==> r == Failure(Base64Invalid)
    ensures r.Success? ==>
      var cipherText := b64.decode(encryptedText).value;
      em.gcm.open(cipherText[..em.gcm.nonceSize], cipherText[em.gcm.nonceSize..]) == Some(r.value)
  {
    match b64.decode(encryptedText)
    case None => Failure(Base64Invalid)
    case Some(cipherText) =>
      var n := em.gcm.nonceSize;
      match em.gcm.open(cipherText[..n], cipherText[n..])
      case None => Failure(AuthenticationFailed)
      case Some(plainText) => Success(plainText)
  }

  /** The empty base64 text decodes to no bytes at all, which the as-written decryption cannot slice. */
  lemma ShortCiphertextPanics(em: EncryptorManager, b64: Base64)
    requires AeadSound(em.gcm) && Base64Sound(b64)
    ensures var text := b64.encode([]);
      !(b64.decode(text).Some? ==> |b64.decode(text).value| >= em.gcm.nonceSize)
  {
    assert b64.decode(b64.encode([])) == Some([]);
  }

  /** `DecryptSecret` with a length check before the split at the nonce size. */
  function DecryptSecret(em: EncryptorManager, b64: Base64, encryptedText: string): (r: Result<seq<byte>, CryptoError>)
    ensures b64.decode(encryptedText).None? ==> r == Failure(Base64Invalid)
    ensures b64.decode(encryptedText).Some? && |b64.decode(encryptedText).value| < em.gcm.nonceSize ==>
      r == Failure(CiphertextTooShort)
    ensures r.Success? ==>
      var cipherText := b64.decode(encryptedText).value;
      && |cipherText| >= em.gcm.nonceSize
      && em.gcm.open(cipherText[..em.gcm.nonceSize], cipherText[em.gcm.nonceSize..]) == Some(r.value)
    ensures r.Failure? && r.error == AuthenticationFailed ==>
      var cipherText := b64.decode(encryptedText).value;
      em.gcm.open(cipherText[..em.gcm.nonceSize], cipherText[em.gcm.nonceSize..]).None?
  {
    match b64.decode(encryptedText)
    case None => Failure(Base64Invalid)
    case Some(cipherText) =>
      var n := em.gcm.nonceSize;
      if |cipherText| < n then Failure(CiphertextTooShort)
      else
        match em.gcm.open(cipherText[..n], cipherText[n..])
        case None => Failure(AuthenticationFailed)
        case Some(plainText) => Success(plainText)
  }

  /** Wherever the as-written decryption is defined, the checked one agrees with it. */
  lemma DecryptSecretAgrees(em: EncryptorManager, b64: Base64, encryptedText: string)
    requires b64.decode(encryptedText).Some? ==> |b64.decode(encryptedText).value| >= em.gcm.nonceSize
    ensures DecryptSecret(em, b64, encryptedText) == DecryptSecretAsWritten(em, b64, encryptedText)
  {
  }

  /** Decrypting what EncryptSecret stored gives back the secret. */
  lemma DecryptInvertsEncrypt(em: EncryptorManager, b64: Base64, nonce: seq<byte>, secret: seq<byte>)
    requires AeadSound(em.gcm) && Base64Sound(b64)
    requires |nonce| == em.gcm.nonceSize
    ensures DecryptSecret(em, b64, SealedText(em, b64, nonce, secret)) == Success(secret)
  {
    var sealed := em.gcm.seal(nonce, secret);
    var cipherText := nonce + sealed;
    assert b64.decode(b64.encode(cipherText)) == Some(cipherText);
    assert cipherText[..em.gcm.nonceSize] == nonce;
    assert cipherText[em.gcm.nonceSize..] == sealed;
  }
}

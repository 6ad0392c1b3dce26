/** The envelope cipher (internal/cipher/cipher.go). An envelope is
      salt[16] ‖ nonce[12] ‖ AES-GCM ciphertext with its 16-byte tag ‖ HMAC-SHA-256[32].
    The primitives (Argon2id, AES-GCM, HMAC-SHA-256) are parameters; Lawful states
    the only facts about them the envelope logic relies on. */
module Cipher {
  import opened Errors
  import opened Bytes

  const SaltSize: nat := 16   // internal/config/config.go:4
  const KeySize: nat := 32    // internal/config/config.go:5
  const NonceSize: nat := 12  // gcm.NonceSize()
  const TagSize: nat := 16    // gcm.Overhead()
  const MacSize: nat := 32    // config.HMACSize, the size of an HMAC-SHA-256 sum

  type SaltBytes = s: seq<byte> | |s| == SaltSize witness seq(16, _ => 0)
  type NonceBytes = s: seq<byte> | |s| == NonceSize witness seq(12, _ => 0)

  datatype Primitives = Primitives(
    /** DeriveKey (internal/cipher/kdf.go): Argon2id with the fixed cost constants. */
    deriveKey: (seq<byte>, seq<byte>) -> seq<byte>,
    /** AEAD Seal(key, nonce, plaintext, additionalData): ciphertext with the tag appended. */
    seal: (seq<byte>, seq<byte>, seq<byte>, seq<byte>) -> seq<byte>,
    /** AEAD Open(key, nonce, ciphertext, additionalData): None when the tag does not verify. */
    open: (seq<byte>, seq<byte>, seq<byte>, seq<byte>) -> Option<seq<byte>>,
    /** HMAC-SHA-256(key, message). */
    hmac: (seq<byte>, seq<byte>) -> seq<byte>)

  /** The facts about the primitives that the envelope format depends on. */
  ghost predicate Lawful(p: Primitives)
  {
    && (forall password, salt :: |p.deriveKey(password, salt)| == KeySize)
    && (forall k, n, m, ad :: |k| == KeySize && |n| == NonceSize ==> |p.seal(k, n, m, ad)| == |m| + TagSize)
    && (forall k, n, m, ad :: |k| == KeySize && |n| == NonceSize ==> p.open(k, n, p.seal(k, n, m, ad), ad) == Some(m))
    && (forall k, m :: |p.hmac(k, m)| == MacSize)
  }

  /** aes.NewCipher accepts AES-128, AES-192 and AES-256 keys only. */
  predicate AesKeySize(n: nat)
  {
    n == 16 || n == 24 || n == 32
  }

  /** The error aes.NewCipher reports for a key of another length. */
  const KeySizeError: Error := Message("crypto/aes: invalid key size")

  /** The error gcm.Open reports when the tag does not verify. */
  const AuthenticationError: Error := Message("cipher: message authentication failed")

  /** What Encrypt returns: the envelope for plaintext under password, given what
      the random source produced for the salt and the nonce. */
  function SealEnvelope(p: Primitives, plaintext: seq<byte>, password: seq<byte>,
                        salt: Result<SaltBytes>, nonce: Result<NonceBytes>): Result<seq<byte>>
  {
    match salt
    case Err(e) => Err(Wrapf(ErrEncryptionFailed, e))
    case Ok(s) =>
      var key := p.deriveKey(password, s);
      if !AesKeySize(|key|) then Err(Wrapf(ErrEncryptionFailed, KeySizeError))
      else match nonce
        case Err(e) => Err(Wrapf(ErrEncryptionFailed, e))
        case Ok(n) =>
          var payload := s + (n + p.seal(key, n, plaintext, []));
          Ok(payload + p.hmac(key, payload))
  }

  /** The bytes Decrypt reads as salt ‖ nonce ‖ ciphertext: data without its last
      MacSize bytes when data is longer than SaltSize + MacSize and those bytes are the
      HMAC of the rest; otherwise all of data (an envelope written before the HMAC suffix). */
  function Unwrapped(p: Primitives, key: seq<byte>, data: seq<byte>): (r: seq<byte>)
    ensures |data| > SaltSize + MacSize && p.hmac(key, data[..|data| - MacSize]) == data[|data| - MacSize..]
            ==> r == data[..|data| - MacSize]
    ensures !(|data| > SaltSize + MacSize && p.hmac(key, data[..|data| - MacSize]) == data[|data| - MacSize..])
            ==> r == data
    ensures r <= data
  {
    if |data| > SaltSize + MacSize && p.hmac(key, data[..|data| - MacSize]) == data[|data| - MacSize..]
    then data[..|data| - MacSize]
    else data
  }

  /** What Decrypt returns for data under password. */
  function OpenEnvelope(p: Primitives, data: seq<byte>, password: seq<byte>): (r: Result<seq<byte>>)
    ensures r == Err(ErrInvalidVaultData) <==> |data| < SaltSize
    ensures r.Err? ==> r.error in {ErrInvalidVaultData, ErrCiphertextTooShort}
                       || (r.error.Wrapf? && r.error.sentinel == ErrDecryptionFailed)
    ensures r.Err? ==> !Is(r.error, ErrVaultIntegrity) && !Is(r.error, ErrEncryptionFailed)
  {
    if |data| < SaltSize then Err(ErrInvalidVaultData)
    else
      var key := p.deriveKey(password, data[..SaltSize]);
      var body := Unwrapped(p, key, data);
      if !AesKeySize(|key|) then Err(Wrapf(ErrDecryptionFailed, KeySizeError))
      else
        var ciphertext := body[SaltSize..];
        if |ciphertext| < NonceSize then Err(ErrCiphertextTooShort)
        else match p.open(key, ciphertext[..NonceSize], ciphertext[NonceSize..], [])
          case None => Err(Wrapf(ErrDecryptionFailed, AuthenticationError))
          case Some(plaintext) => Ok(plaintext)
  }

  /** Encrypt, with the derived key held in a buffer that is zeroed before returning;
      the buffer is returned so that its final contents can be stated. */
  method Encrypt(p: Primitives, plaintext: seq<byte>, password: seq<byte>,
                 salt: Result<SaltBytes>, nonce: Result<NonceBytes>) returns (r: Result<seq<byte>>, key: array<byte>)
    ensures r == SealEnvelope(p, plaintext, password, salt, nonce)
    ensures key.Length == if salt.Ok? then |p.deriveKey(password, salt.value)| else 0
    ensures AllZero(key[..])
  {
    if salt.Err? {
      key := new byte[0];
      return Err(Wrapf(ErrEncryptionFailed, salt.error)), key;
    }
    key := NewBuffer(p.deriveKey(password, salt.value));
    // defer zeroBytes(key)
    if !AesKeySize(key.Length) {
      r := Err(Wrapf(ErrEncryptionFailed, KeySizeError));
    } else if nonce.Err? {
      r := Err(Wrapf(ErrEncryptionFailed, nonce.error));
    } else {
      var ciphertext := nonce.value + p.seal(key[..], nonce.value, plaintext, []);
      var payload := salt.value + ciphertext;
      r := Ok(payload + p.hmac(key[..], payload));
    }
    ZeroBytes(key);
  }

  /** Decrypt, with the derived key held in a buffer that is zeroed on every exit. */
  method Decrypt(p: Primitives, data: seq<byte>, password: seq<byte>) returns (r: Result<seq<byte>>, key: array<byte>)
    ensures r == OpenEnvelope(p, data, password)
    ensures key.Length == if |data| < SaltSize then 0 else |p.deriveKey(password, data[..SaltSize])|
    ensures AllZero(key[..])
  {
    if |data| < SaltSize {
      key := new byte[0];
      return Err(ErrInvalidVaultData), key;
    }
    key := NewBuffer(p.deriveKey(password, data[..SaltSize]));
    // defer zeroBytes(key)
    var body := data;
    if |data| > SaltSize + MacSize {
      var payload := data[..|data| - MacSize];
      var expectedMac := data[|data| - MacSize..];
      if p.hmac(key[..], payload) == expectedMac {
        body := payload;
      }
    }
    var ciphertext := body[SaltSize..];
    if !AesKeySize(key.Length) {
      r := Err(Wrapf(ErrDecryptionFailed, KeySizeError));
    } else if |ciphertext| < NonceSize {
      r := Err(ErrCiphertextTooShort);
    } else {
      var plain := p.open(key[..], ciphertext[..NonceSize], ciphertext[NonceSize..], []);
      r := if plain.None? then Err(Wrapf(ErrDecryptionFailed, AuthenticationError)) else Ok(plain.value);
    }
    ZeroBytes(key);
  }

  /** The layout of a fresh envelope: salt, nonce, the AEAD output for plaintext
      with empty associated data, and the HMAC of everything before it. */
  lemma EnvelopeLayout(p: Primitives, plaintext: seq<byte>, password: seq<byte>, salt: SaltBytes, nonce: NonceBytes)
    requires Lawful(p)
    ensures var key := p.deriveKey(password, salt);
            var r := SealEnvelope(p, plaintext, password, Ok(salt), Ok(nonce));
            && r.Ok?
            && |r.value| == SaltSize + NonceSize + |plaintext| + TagSize + MacSize
            && r.value[..SaltSize] == salt
            && r.value[SaltSize..SaltSize + NonceSize] == nonce
            && r.value[SaltSize + NonceSize..|r.value| - MacSize] == p.seal(key, nonce, plaintext, [])
            && r.value[|r.value| - MacSize..] == p.hmac(key, r.value[..|r.value| - MacSize])
  {
    var key := p.deriveKey(password, salt);
    var sealed := p.seal(key, nonce, plaintext, []);
    var payload := salt + (nonce + sealed);
    var env := payload + p.hmac(key, payload);
    assert env[..|env| - MacSize] == payload;
    assert env[SaltSize..SaltSize + NonceSize] == nonce;
    assert env[SaltSize + NonceSize..|env| - MacSize] == sealed;
  }

  /** Decrypt inverts Encrypt: opening a fresh envelope with the same password
      gives back the plaintext. */
  lemma RoundTrip(p: Primitives, plaintext: seq<byte>, password: seq<byte>, salt: SaltBytes, nonce: NonceBytes)
    requires Lawful(p)
    ensures SealEnvelope(p, plaintext, password, Ok(salt), Ok(nonce)).Ok?
    ensures OpenEnvelope(p, SealEnvelope(p, plaintext, password, Ok(salt), Ok(nonce)).value, password) == Ok(plaintext)
  {
    EnvelopeLayout(p, plaintext, password, salt, nonce);
    var key := p.deriveKey(password, salt);
    var sealed := p.seal(key, nonce, plaintext, []);
    var env := SealEnvelope(p, plaintext, password, Ok(salt), Ok(nonce)).value;
    var payload := env[..|env| - MacSize];
    assert env[..SaltSize] == salt;
    assert Unwrapped(p, key, env) == payload;
    assert payload[SaltSize..] == nonce + sealed;
  }

  /** A decrypt failure is ErrDecryptionFailed exactly when the AEAD rejects the
      nonce and ciphertext it is given. */
  lemma OpenFailureIsDecryptionFailed(p: Primitives, data: seq<byte>, password: seq<byte>)
    requires Lawful(p) && |data| >= SaltSize
    ensures var key := p.deriveKey(password, data[..SaltSize]);
            var ct := Unwrapped(p, key, data)[SaltSize..];
            && (OpenEnvelope(p, data, password) == Err(ErrCiphertextTooShort) <==> |ct| < NonceSize)
            && (|ct| >= NonceSize ==>
                  (OpenEnvelope(p, data, password).Err? <==> p.open(key, ct[..NonceSize], ct[NonceSize..], []).None?))
            && (OpenEnvelope(p, data, password).Err? && |ct| >= NonceSize ==>
                  OpenEnvelope(p, data, password) == Err(Wrapf(ErrDecryptionFailed, AuthenticationError)))
  {
  }
}

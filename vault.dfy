/** The vault service (internal/vault/vault.go): a map of secrets, serialised,
    sealed in an envelope and stored at one path. The serialiser (encoding/json)
    is a parameter; CodecLawful states the round trip it is trusted to provide. */
module Vault {
  import opened Errors
  import opened Bytes
  import opened Paths
  import opened Os
  import opened Storage
  import opened Cipher

  type Secrets = map<string, string>

  /** json.Marshal and json.Unmarshal for a map of strings. */
  datatype Codec = Codec(
    marshal: Secrets -> Result<seq<byte>>,
    unmarshal: seq<byte> -> Result<Secrets>)

  /** Marshalling a map of strings succeeds, and unmarshalling its output gives the map back. */
  ghost predicate CodecLawful(codec: Codec)
  {
    forall m :: codec.marshal(m).Ok? && codec.unmarshal(codec.marshal(m).value) == Ok(m)
  }

  const DecryptContext := "decryption failed"
  const UnmarshalContext := "failed to unmarshal vault data"
  const MarshalContext := "failed to marshal secrets"
  const EncryptContext := "encryption failed"
  const SaveContext := "failed to save vault"

  /** What Load returns for the vault at path: storage errors as they are, a decrypt
      or unmarshal failure inside its context message, or the stored map. */
  function LoadResult(fs: FileSystem, path: Path, p: Primitives, codec: Codec, password: seq<byte>): (r: Result<Secrets>)
    reads fs
    // callers compare with == ErrVaultNotFound: it arrives unwrapped, exactly when nothing is there
    ensures r == Err(ErrVaultNotFound) <==> !VaultExists(fs, path)
    ensures LoadVault(fs, path).Err? ==> r == Err(LoadVault(fs, path).error)
    ensures LoadVault(fs, path).Ok? && OpenEnvelope(p, LoadVault(fs, path).value, password).Err?
            ==> r == Err(Context(DecryptContext, OpenEnvelope(p, LoadVault(fs, path).value, password).error))
    ensures r.Ok? ==> LoadVault(fs, path).Ok? && OpenEnvelope(p, LoadVault(fs, path).value, password).Ok?
  {
    match LoadVault(fs, path)
    case Err(e) => Err(e)
    case Ok(data) =>
      match OpenEnvelope(p, data, password)
      case Err(e) => Err(Context(DecryptContext, e))
      case Ok(plain) =>
        match codec.unmarshal(plain)
        case Err(e) => Err(Context(UnmarshalContext, e))
        case Ok(secrets) => Ok(secrets)
  }

  /** The bytes Save hands to storage, or the error that stops it before storage is touched. */
  function Payload(p: Primitives, codec: Codec, secrets: Secrets, password: seq<byte>,
                   salt: Result<SaltBytes>, nonce: Result<NonceBytes>): (r: Result<seq<byte>>)
    ensures codec.marshal(secrets).Err? ==> r == Err(Context(MarshalContext, codec.marshal(secrets).error))
    ensures codec.marshal(secrets).Ok? ==>
              r == match SealEnvelope(p, codec.marshal(secrets).value, password, salt, nonce)
                   case Ok(envelope) => Ok(envelope)
                   case Err(e) => Err(Context(EncryptContext, e))
  {
    match codec.marshal(secrets)
    case Err(e) => Err(Context(MarshalContext, e))
    case Ok(payload) =>
      match SealEnvelope(p, payload, password, salt, nonce)
      case Err(e) => Err(Context(EncryptContext, e))
      case Ok(envelope) => Ok(envelope)
  }

  class Service {
    const vaultPath: Path

    /** NewService. */
    constructor (vaultPath: Path)
      ensures this.vaultPath == vaultPath
    {
      this.vaultPath := vaultPath;
    }

    /** Load; the decrypted plaintext is copied into a buffer that is zeroed once
        it has been unmarshalled, and that buffer is returned so its final state
        can be stated. */
    method Load(fs: FileSystem, p: Primitives, codec: Codec, password: seq<byte>)
      returns (r: Result<Secrets>, plaintext: array<byte>)
      ensures r == LoadResult(fs, vaultPath, p, codec, password)
      ensures AllZero(plaintext[..])
      ensures LoadVault(fs, vaultPath).Ok? && OpenEnvelope(p, LoadVault(fs, vaultPath).value, password).Ok?
              ==> plaintext.Length == |OpenEnvelope(p, LoadVault(fs, vaultPath).value, password).value|
    {
      plaintext := new byte[0];
      var data := LoadVault(fs, vaultPath);
      if data.Err? {
        return Err(data.error), plaintext;
      }
      var decrypted, key := Decrypt(p, data.value, password);
      if decrypted.Err? {
        return Err(Context(DecryptContext, decrypted.error)), plaintext;
      }
      plaintext := NewBuffer(decrypted.value);
      // defer zeroBytes(decrypted)
      var secrets := codec.unmarshal(plaintext[..]);
      if secrets.Err? {
        r := Err(Context(UnmarshalContext, secrets.error));
      } else {
        r := Ok(secrets.value);
      }
      ZeroBytes(plaintext);
    }

    /** Save: marshal, encrypt with the given salt and nonce, then store; storage is
        only touched when the first two steps succeed. */
    method Save(fs: FileSystem, p: Primitives, codec: Codec, secrets: Secrets, password: seq<byte>,
                salt: Result<SaltBytes>, nonce: Result<NonceBytes>, now: int, faults: SaveFaults)
      returns (err: Option<Error>)
      modifies fs`files
      ensures var payload := Payload(p, codec, secrets, password, salt, nonce);
              && (payload.Err? ==> fs.files == old(fs.files) && err == Some(payload.error))
              && (payload.Ok? ==> fs.files == AfterSave(old(fs.files), vaultPath, payload.value, now, faults))
              && (payload.Ok? ==> (err.None? <==> FirstFault(faults).None?))
              && (payload.Ok? && err.Some? ==>
                    err.value == Context(SaveContext, Wrapf(ErrVaultWriteFailed, FirstFault(faults).value))
                    && Is(err.value, ErrVaultWriteFailed))
    {
      var payload := codec.marshal(secrets);
      if payload.Err? {
        return Some(Context(MarshalContext, payload.error));
      }
      var encrypted, key := Encrypt(p, payload.value, password, salt, nonce);
      if encrypted.Err? {
        return Some(Context(EncryptContext, encrypted.error));
      }
      var e := SaveVault(fs, vaultPath, encrypted.value, now, faults);
      if e.Some? {
        return Some(Context(SaveContext, e.value));
      }
      return None;
    }

    /** Exists: whether storage sees anything at the vault path. */
    function Exists(fs: FileSystem): (b: bool)
      reads fs
      ensures b == VaultExists(fs, vaultPath)
      ensures forall p, codec, password :: !b <==> LoadResult(fs, vaultPath, p, codec, password) == Err(ErrVaultNotFound)
    {
      VaultExists(fs, vaultPath)
    }
  }

  /** With lawful primitives and a lawful serialiser, a save that went through
      followed by a load with the same password returns the saved map. */
  lemma {:induction false} SaveLoadRoundTrip(fs: FileSystem, files: map<Path, FileEntry>, path: Path, p: Primitives,
                                             codec: Codec, secrets: Secrets, password: seq<byte>,
                                             salt: SaltBytes, nonce: NonceBytes, now: int, faults: SaveFaults)
    requires Lawful(p) && CodecLawful(codec) && FirstFault(faults).None?
    ensures Payload(p, codec, secrets, password, Ok(salt), Ok(nonce)).Ok?
    ensures fs.files == AfterSave(files, path, Payload(p, codec, secrets, password, Ok(salt), Ok(nonce)).value, now, faults)
            && path !in fs.denied
            ==> LoadResult(fs, path, p, codec, password) == Ok(secrets)
  {
    var payload := codec.marshal(secrets).value;
    RoundTrip(p, payload, password, salt, nonce);
  }
}

# GhostEnv vault core in Dafny

GhostEnv keeps a project's secrets (a map from key to value) in one encrypted
vault file per environment. This project models the core of that system and
proves properties of the model:

- the envelope cipher: `salt ‖ nonce ‖ AES-GCM ciphertext+tag ‖ HMAC-SHA-256`,
  with the legacy layout that has no HMAC suffix still readable, and the derived
  key zeroed on every exit;
- atomic storage: write to `<vault>.tmp`, sync, close, remove the old vault,
  rename; every system call may fail, and the resulting file map is stated for
  each failure;
- the vault service: serialise, seal, store; and the reverse, with the exact
  error each failure produces;
- vault location: the upward search for a project root, the global/project
  decision and the path built from the configuration;
- configuration: merging the global and project files, filling defaults,
  parsing memory sizes with their 32-bit truncation, and the Argon2 accessors;
- key validation, the command handlers' map logic (set, remove, import,
  change-password, export, secret sharing), the secret-sharing glue, and the
  audit trail's decisions.

Cryptographic primitives (Argon2id, AES-GCM, HMAC-SHA-256), the JSON serialiser
and the Shamir library are parameters: `Cipher.Primitives`, `Vault.Codec` and
`Shamir.Library`. The ghost predicates `Cipher.Lawful` and `Vault.CodecLawful`
state the only facts the proofs use about them: a 32-byte key, a seal that
adds 16 bytes and that open inverts, a 32-byte MAC, and a serialiser round trip.
The file system is the class `Os.FileSystem`. It holds files, directories and
the paths whose access is refused. Random bytes, the clock, the working and home
directories, environment variables and the outcome of each system call are
parameters.

Files: `errors.dfy`, `bytes.dfy`, `text.dfy`, `paths.dfy`, `os.dfy` (shared
support), `cipher.dfy`, `storage.dfy`, `vault.dfy`, `resolver.dfy`, `config.dfy`,
`validator.dfy`, `shamir.dfy`, `audit.dfy`, `handlers.dfy`.

Behaviour kept as the code has it:

- `config.HMACSize` is not defined in `internal/config/config.go`; the model
  uses 32, the size of an HMAC-SHA-256 sum (`Cipher.MacSize`).
- A MAC that does not verify is not an error. Decrypt then reads the whole input
  as the legacy layout. `ErrVaultIntegrity` is declared but never returned.
- `SaveVault` removes the destination before the rename, so a failed rename
  loses the old vault (`Storage.AfterSave`).
- The three-way condition at `internal/vault/resolver.go:90` reduces to its
  inner test: the global vault is chosen exactly when the absolute project root
  equals the absolute home directory.
- `applyDefaults` can never set `Audit.Enabled`, because `Output` is filled just
  before the test that would set it.
- `handleRecover` registers the zeroing of the shares only after all of them are
  read. A share file that fails to read therefore leaves the earlier shares
  unzeroed.

## Model

| member | source | states |
|---|---|---|
| Bytes.ZeroBytes | internal/cipher/cipher.go:24-28 | every byte of the buffer is 0 afterwards |
| Cipher.Unwrapped | internal/cipher/cipher.go:78-87 | the last 32 bytes are dropped exactly when the input is longer than 16+32 bytes and they equal the HMAC of the rest; otherwise the input is kept whole |
| Cipher.OpenEnvelope | internal/cipher/cipher.go:69-114 | `ErrInvalidVaultData` exactly when the input is shorter than 16 bytes; every other failure is `ErrCiphertextTooShort` or wraps `ErrDecryptionFailed`, never `ErrVaultIntegrity` or `ErrEncryptionFailed` |
| Cipher.Encrypt | internal/cipher/cipher.go:30-67 | returns the envelope `SealEnvelope` defines for the given salt and nonce (errors wrap `ErrEncryptionFailed`); the derived-key buffer is all zeros on return |
| Cipher.Decrypt | internal/cipher/cipher.go:69-114 | returns `OpenEnvelope` of the input; the derived-key buffer is all zeros on every exit |
| Cipher.EnvelopeLayout | internal/cipher/cipher.go:49-66 | a fresh envelope is salt, nonce, the AEAD output with empty associated data, and the HMAC of all that; its length is 16+12+\|plaintext\|+16+32 |
| Cipher.RoundTrip | internal/cipher/cipher.go:30-114 | decrypting a fresh envelope with the same password gives back the plaintext |
| Cipher.OpenFailureIsDecryptionFailed | internal/cipher/cipher.go:100-111 | after the salt and the MAC strip, fewer than 12 bytes give `ErrCiphertextTooShort`; otherwise decrypt fails exactly when AEAD open rejects, and then with `ErrDecryptionFailed` |
| Storage.FirstFault | internal/storage/storage.go:22-49 | the first failing system call in the order open, write, sync, close, rename; none exactly when all succeed |
| Storage.TempPath | internal/storage/storage.go:19-20 | the temporary file sits in the destination's directory, is named after it plus ".tmp", and differs from it |
| Storage.AfterSave | internal/storage/storage.go:18-52 | no other file is touched; a failed open changes nothing; the temporary file never survives; a failure before the rename keeps the destination; a failed rename loses the destination; success stores exactly the data |
| Storage.SaveVault | internal/storage/storage.go:18-52 | the files afterwards are `AfterSave`; the error is absent exactly when no call fails, and otherwise wraps `ErrVaultWriteFailed` |
| Storage.LoadVault | internal/storage/storage.go:54-63 | the bare `ErrVaultNotFound` exactly when nothing is at the path; success exactly for a readable file, returning its contents; other errors wrap `ErrVaultReadFailed` |
| Storage.VaultExists | internal/storage/storage.go:65-68 | true for every stat outcome except "not exist", a refused path included; false exactly when `LoadVault` reports `ErrVaultNotFound` |
| Storage.VaultModTime | internal/storage/storage.go:70-79 | errors classified as `LoadVault` classifies them; a readable file gives its modification time |
| Vault.LoadResult | internal/vault/vault.go:33-52 | `ErrVaultNotFound` unwrapped exactly when the vault does not exist; storage errors unchanged; a decrypt failure inside "decryption failed"; success only after storage and decryption succeed |
| Vault.Payload | internal/vault/vault.go:54-63 | a marshal error inside "failed to marshal secrets"; otherwise the sealed envelope, or its error inside "encryption failed" |
| Vault.Service.constructor | internal/vault/vault.go:21-25 | the service holds the given vault path |
| Vault.Service.Load | internal/vault/vault.go:33-52 | returns `LoadResult`; the plaintext buffer is all zeros afterwards, whether unmarshalling succeeded or not |
| Vault.Service.Save | internal/vault/vault.go:54-70 | storage is untouched when marshal or encrypt fails; otherwise the files are `AfterSave` of the envelope and a storage error comes back inside "failed to save vault" and still `Is` `ErrVaultWriteFailed` |
| Vault.Service.Exists | internal/vault/vault.go:72-74 | equals `VaultExists` of the vault path; false exactly when every load reports `ErrVaultNotFound` |
| Vault.SaveLoadRoundTrip | internal/vault/vault.go:33-70 | after a save that went through, loading with the same password returns the saved map |
| Resolver.MarkedAncestorInnermost | internal/vault/resolver.go:43-66 | the directory found has a marker, lies above the start, and no marked directory lies between them; none found means no ancestor has a marker |
| Resolver.FindProjectRoot | internal/vault/resolver.go:37-67 | the empty path when the working directory is unknown; otherwise the innermost marked ancestor, or the working directory when there is none |
| Resolver.EnvironmentName | internal/vault/resolver.go:70-75 | the environment given, else the configured default, else "dev"; never empty |
| Resolver.VaultDirOf | internal/vault/resolver.go:98-104 | the configured vault directory (".ghostenv" when unset), joined to the project root unless absolute |
| Resolver.EnvVaultDir | internal/vault/resolver.go:108-114 | the vault directory joined with the environment's own sub-directory when one is configured, the vault directory otherwise; with `..` unresolved the result lies within the vault directory |
| Resolver.Resolver.constructor | internal/vault/resolver.go:26-35 | the project root from the upward search; the loaded configuration, or the defaults when loading fails |
| Resolver.Resolver.ResolveVaultPath | internal/vault/resolver.go:69-117 | home and working-directory errors are returned; global `home/.ghostenv.gev` exactly when the absolute root equals the absolute home; otherwise the first mkdir error is returned and nothing is created, or the result is `<env dir>/<env>.gev` of type project with the vault directory and its ancestors created |
| Config.Merge | internal/config/loader.go:108-195 | without a project file, the global config (or the zero config); otherwise, field by field: name, version, default environment, vault directory and export format are the project's when set; recursive search, memory zeroing, the production password-flag ban and include-timestamp are either side's; backup, Argon2, attempts, inheritance, server, Postgres and audit follow their own override tests; the environment and script tables are unions with the project's entries winning |
| Config.MergeEmptyProject | internal/config/loader.go:108-195 | a project file that sets nothing changes nothing |
| Config.MergeSelf | internal/config/loader.go:108-195 | merging a configuration over itself gives it back |
| Config.ApplyDefaults | internal/config/loader.go:197-237 | each of the twelve defaulted fields keeps a value already set, and an unset one gets its default: default environment "dev", vault directory "./.ghostenv", memory "64MB", iterations 1, parallelism 4, max auth attempts 5, audit output "file", log level "info", export format "json", server port 8080, Postgres port 5432, SSL mode "prefer"; so the result is complete, and a complete configuration is unchanged; every other field, `Audit.Enabled` included, is left as it is |
| Config.DefaultSecurity | internal/config/loader.go:204-215 | memory, iterations, parallelism and max auth attempts each keep a set value, and an unset one becomes "64MB", 1, 4 or 5; the rest of the policy is unchanged |
| Config.DefaultMicroservices | internal/config/loader.go:228-236 | server port, Postgres port and SSL mode each keep a set value, and an unset one becomes 8080, 5432 or "prefer" |
| Config.DefaultAudit | internal/config/loader.go:216-224 | output and log level each keep a set value, and an unset one becomes "file" or "info"; `Enabled` is unchanged, since the output is filled before the check that would set it |
| Config.ApplyDefaultsIdempotent | internal/config/loader.go:197-237 | applying the defaults twice equals applying them once |
| Config.Default | internal/config/loader.go:51-55 | complete, environment "dev", memory "64MB", audit disabled, no environments |
| Config.SplitUnit | internal/config/loader.go:250-259 | the text left after the suffix is the input or the input without its last two characters |
| Config.ParseMemoryUnits | internal/config/loader.go:248-265 | a decimal count with MB, KB, GB or no suffix gives count × 1024, 1, 1048576 or 1, modulo 2^32; a count of 2^32 or more is a range error wrapped with the count |
| Config.ParseMemoryShape | internal/config/loader.go:248-265 | on such input the parse is the 32-bit parse of the digits scaled by the unit's multiplier |
| Text.ParseUint32 | internal/config/loader.go:260-263 | `strconv.ParseUint(s, 10, 32)`: accepts exactly a non-empty all-digit text below 2^32, with its decimal value; the error is a range error exactly when the run of leading digits already exceeds 2^32 - 1, and a syntax error otherwise |
| Text.RangeBeforeSyntax | internal/config/loader.go:260-263 | digits worth 2^32 or more give a range error whatever follows them |
| Config.ParseMemoryToKB | internal/config/loader.go:248-265 | an accepted size fits in 32 bits; a rejected one is a syntax or range error wrapped with the text before the unit |
| Config.ParseMemoryNormalizes | internal/config/loader.go:248-265 | case and surrounding white space do not change the result |
| Config.ParseMemoryAccepts | internal/config/loader.go:248-265 | any input that, upper-cased and trimmed, is a 32-bit decimal count (white space allowed before the unit) followed by MB, KB, GB or nothing parses to that count times the multiplier, modulo 2^32 |
| Config.ParseMemoryOnlyAccepts | internal/config/loader.go:248-265 | conversely, every accepted input has that shape |
| Config.DefaultMemoryParses | internal/config/loader.go:204-206 | the default "64MB" is 65536 KiB |
| Config.MemoryWrapsAround | internal/config/loader.go:264 | "4096GB" wraps to 0 KiB: a worked instance of `Config.ParseMemoryAccepts` |
| Config.ValidateAndParse | internal/config/loader.go:239-246 | an error exactly when the memory setting is non-empty and does not parse |
| Config.Load | internal/config/loader.go:57-67 | on success, the merged configuration with defaults applied; an error exactly when the merged memory setting is non-empty and does not parse |
| Config.Argon2MemoryKB | internal/config/loader.go:267-276 | the parsed memory setting when there is one that parses, else 64; always below 2^32 |
| Config.Argon2MemoryFallbackDisagrees | internal/config/loader.go:267-276 | the zero configuration gives 64 KiB, but the same configuration after `ApplyDefaults` gives 65536 KiB |
| Config.Argon2MemoryKBIntended | internal/config/loader.go:267-276 | as `Argon2MemoryKB`, but the fallback equals what "64MB" parses to |
| Config.Argon2MemoryDefaultsAgree | internal/config/loader.go:267-276 | with that fallback, applying the defaults never changes the memory cost |
| Config.Argon2Iterations | internal/config/loader.go:278-283 | the configured count when non-zero, else 1 |
| Config.Argon2Parallelism | internal/config/loader.go:285-290 | the configured degree when non-zero, else 4 |
| Validator.ValidateKey | internal/validator/validator.go:13-21 | `ErrEmptyKey` exactly for the empty key; `ErrInvalidKey` exactly for a non-empty key containing '='; every other key, white space included, is accepted |
| Validator.ValidateValue | internal/validator/validator.go:23-25 | every value is accepted |
| Shamir.SplitSecret | internal/shamir/shamir.go:12-14 | the library's split of exactly the given arguments |
| Shamir.CombineShares | internal/shamir/shamir.go:16-25 | fewer than 2 shares fail without the library; otherwise the library combines the shares' contents in their order |
| Shamir.ZeroShares | internal/shamir/shamir.go:44-54 | every byte of every share is 0 afterwards |
| Audit.ResolveLogPath | internal/audit/audit.go:96-117 | `GHOSTENV_AUDIT_LOG` when set; else a configured file path, joined to a non-empty project root when relative; else `home/.ghostenv/audit.log` without a vault path; else `audit.log` beside the vault |
| Audit.Record | internal/audit/audit.go:49-73 | no entry exactly when disabled by environment or by a present configuration; otherwise the entry has the given fields and goes to `ResolveLogPath`, with the key "[redacted]" exactly when the configuration masks keys |
| Audit.Log | internal/audit/audit.go:49-94 | returns `Record`'s entry and path and creates the log's directory; nothing when not recorded or when the directory cannot be created |
| Handlers.ParseLine | cmd/ghostenv/handlers.go:208-219 | an accepted line yields a key that passes validation and a value with no quote at either end |
| Handlers.ParseLineKeyTrimmed | cmd/ghostenv/handlers.go:208-216 | the key of an accepted line is non-empty and has no white space at either end |
| Handlers.ParseLineOf | cmd/ghostenv/handlers.go:208-219 | round trip: `k=v` reads back as `(k, v)` for every valid key without surrounding white space and every value without surrounding white space or quotes, `=` inside the value included |
| Handlers.ParseLineSkips | cmd/ghostenv/handlers.go:208-219 | a line is skipped exactly when trimmed it is blank, a comment, has no '=', or has an empty key |
| Handlers.Accepted | cmd/ghostenv/handlers.go:205-224 | at most one pair per line |
| Handlers.AcceptedKeysValid | cmd/ghostenv/handlers.go:205-224 | every pair the import sets has a key that passes validation |
| Handlers.SetAllLookup | cmd/ghostenv/handlers.go:207-224 | a key is in the result exactly when it was there or a pair sets it; its value is the last such pair's; other keys keep their values |
| Handlers.ImportLines | cmd/ghostenv/handlers.go:205-224 | the result sets the accepted pairs in file order over the start map, and the count is the number of accepted lines, repeats included |
| Handlers.ExportFormat | cmd/ghostenv/handlers.go:239-247 | the requested format, else the configured default, else "json" |
| Handlers.RenderEnv | cmd/ghostenv/handlers.go:260-269 | one `key=value` line per secret: every key exactly once |
| Handlers.ShareBoundsError | cmd/ghostenv/handlers.go:367-372 | no error exactly when 2 ≤ parts ≤ 255 and 2 ≤ threshold ≤ parts; the parts check comes first |
| Handlers.StartingSecrets | cmd/ghostenv/handlers.go:56-65 | an empty map without a vault or on `ErrVaultNotFound`; the stored map when it loads; any other load error |
| Handlers.HandleSet | cmd/ghostenv/handlers.go:43-74 | an invalid key fails before the vault is touched; a load error other than not-found aborts without saving; otherwise the starting map with key set to value is saved; the password buffer is zeroed |
| Handlers.SavedMapLoads | cmd/ghostenv/handlers.go:303-313 | with lawful primitives and no failure, the map a handler saves is what loading with the same password returns |
| Handlers.HandleRemove | cmd/ghostenv/handlers.go:150-178 | a missing vault or key fails without saving; otherwise the stored map without the key is saved; the password buffer is zeroed |
| Handlers.HandleChangePassword | cmd/ghostenv/handlers.go:293-317 | exactly the map loaded under the current password is saved under the new one; load failures save nothing; both buffers are zeroed |
| Handlers.HandleImport | cmd/ghostenv/handlers.go:180-232 | read and load failures save nothing; otherwise the accepted lines are set over the starting map and saved, and the count is returned; the password buffer is zeroed |
| Handlers.HandleExport | cmd/ghostenv/handlers.go:234-291 | load failures are reported; "env" renders every secret once; any other format is the indented JSON or its error; the password buffer is zeroed |
| Handlers.HandleCreateShares | cmd/ghostenv/handlers.go:362-389 | out-of-range bounds fail before the split; otherwise the library's shares, or its error in context; the share buffers and the password are zeroed |
| Handlers.FirstReadError | cmd/ghostenv/handlers.go:399-406 | no error exactly when every share file was read |
| Handlers.FirstReadErrorAt | cmd/ghostenv/handlers.go:399-406 | the error reported is that of the first file that failed |
| Handlers.HandleRecover | cmd/ghostenv/handlers.go:391-417 | fewer than 2 files fail; the first read error is reported; otherwise the library combines the shares in order; once all shares are read, they and the recovered buffer are zeroed |

## Left out

- Argon2id, AES-GCM, HMAC-SHA-256 and crypto/rand are parameters. Nothing is claimed about wrong-password or tamper detection, which are probabilistic guarantees.
- `internal/cipher/kdf.go` is a parameter (`Primitives.deriveKey`). Only its 32-byte output length is used.
- encoding/json, yaml.v3 and base64 are parameters or not modelled. Configuration files arrive already parsed (`None` for a missing or unparsable file), so `globalConfigPath`, `projectConfigPath` and `loadFile` are not part of this model.
- Go's nil and empty maps are not distinguished, so a vault whose JSON is `null` loads as an empty map.
- The Shamir polynomial arithmetic belongs to an external library, and split/combine correctness is not claimed.
- Mutexes and package state (`SetCurrent`, `Current`, `SetProjectRoot`, audit's `mu` and `init`) are not modelled. The current configuration, project root and `GHOSTENV_AUDIT_DISABLE` value are passed explicitly.
- Printing, RFC 3339 timestamps, file permissions, and appending the JSON line to the audit log are not modelled. `Audit.Log` returns the entry and the path it would append to.
- `filepath.Abs` and `filepath.Clean` are approximated. Paths are lists of components, `..` is not resolved, and `Abs` joins a relative path to the working directory.
- Resolver.EnvVaultDir: an environment directory containing `..` escapes the vault directory under Go's `filepath.Join`; here `..` is not resolved, so the result always lies within it.
- Text.ToUpper upper-cases ASCII letters only. Go's `strings.ToUpper` also maps other letters, but none of them to a digit, a space or a letter of MB, KB or GB, so only the input quoted in the error of `Config.ParseMemoryToKB` differs.
- Config.ParseMemoryToKB: the text in the "invalid memory" message is put between quotes as it is; Go's `%q` also escapes quotes, backslashes and characters that are not printable. The inner error is the kind (`ErrSyntax` or `ErrRange`), not strconv's full message.
- A configured audit file path is not cleaned (`internal/audit/audit.go:109`), because `..` is not modelled.
- `os.Remove` errors, ignored by the source, are not modelled: removal always succeeds.
- Sync and Close failures change no file contents; only their errors are modelled.
- `Os.FileSystem.Rename` requires the source file to exist. `SaveVault` only calls it after creating the temporary file.
- The loader's in-place updates of a `*Config` only it holds, and the shared map that `merge`'s shallow copy writes into, are modelled on values. The aliasing is invisible because `Load` discards the global configuration.
- `NewResolver` with a nil configuration cannot occur, because the constructor falls back to the defaults. `ResolveVaultPath` therefore always reads a configuration.
- The deferred audit call of each handler, and the `GetVaultPath` call made only for it, are not modelled.
- The handlers' service lookup (`getVaultService`) is a parameter: the resolved service or the resolution error.
- Handlers.HandleExport: writing to the output file or to standard output is not modelled. The result is the bytes that would be written.
- Handlers.HandleCreateShares: writing and base64-encoding the share files is not modelled. The result is the shares that would be written, and their zeroing is stated on copies of them.
- Handlers.HandleRecover: reading and decoding the share files are a parameter, one result per file. The "%s" file name in the read error is not rendered.
- Handlers.ShareBoundsError: the numbers in the messages are kept as `OutOfRange(text, got)` rather than rendered into the text.
- `handleRun`, `handleList`, `handleGet` and `handleStats`, `cmd/ghostenv/main.go`, `cmd/ghostenv/password.go` and `internal/injector/injector.go` are not part of this model.
- `storage.VaultModTime` is modelled (`Storage.VaultModTime`), but its only caller, `handleStats`, is not.

## Findings

| source | as written | input that shows it | evidently intended | confidence | as-written member | corrected member |
|---|---|---|---|---|---|---|
| internal/config/loader.go:267-276 | the fallback is `Argon2Memory / 1024`, i.e. 64 KiB | a configuration whose memory setting is empty: 64, while the same configuration after `applyDefaults` ("64MB") gives 65536 | the fallback equals the default setting, `Argon2Memory` = 65536 KiB (the accessor is not called by `DeriveKey`, so nothing uses the value today) | medium, not executed | Config.Argon2MemoryFallbackDisagrees | Config.Argon2MemoryKBIntended |

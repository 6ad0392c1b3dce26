/** The command handlers' own logic (cmd/ghostenv/handlers.go): how set, remove,
    change-password and import change the map of secrets, the .env line parser,
    the choice of export format and the bounds on secret sharing. The vault is
    reached through Vault.Service; the randomness and clock of the save a handler
    performs are bundled in SaveInputs. */
module Handlers {
  import opened Errors
  import opened Bytes
  import opened Text
  import opened Paths
  import opened Os
  import opened Storage
  import opened Cipher
  import opened Vault
  import opened Validator
  import Config
  import Shamir

  // ------------------------------------------------------------ import parser

  /** The characters stripped from both ends of an imported value. */
  const Quotes: set<char> := {'"', '\''}

  /** One line of a .env file: the key and value it sets, or None when the line is
      blank, a comment, has no '=', or has an empty or invalid key. */
  function ParseLine(line: string): (r: Option<(string, string)>)
    ensures r.Some? ==> ValidateKey(r.value.0).None?
    ensures r.Some? ==> r.value.1 == [] || (r.value.1[0] !in Quotes && r.value.1[|r.value.1| - 1] !in Quotes)
  {
    var t := TrimSpace(line);
    if t == [] || t[0] == '#' || '=' !in t then None
    else
      var parts := Cut(t, '=').value;
      var key := TrimSpace(parts.0);
      TrimSpaceAbsent(parts.0, '=');
      if key == [] || ValidateKey(key).Some? then None
      else Some((key, Trim(TrimSpace(parts.1), Quotes)))
  }

  /** An accepted line yields a key with no white space at its ends. */
  lemma ParseLineKeyTrimmed(line: string)
    ensures var r := ParseLine(line);
            r.Some? ==> r.value.0 != [] && r.value.0[0] !in Space && r.value.0[|r.value.0| - 1] !in Space
  {
    var t := TrimSpace(line);
    if t != [] && t[0] != '#' && '=' in t {
      var key := TrimSpace(Cut(t, '=').value.0);
      assert ParseLine(line).Some? ==> ParseLine(line).value.0 == key;
    }
  }

  /** Round trip: a line written as key=value, with a valid key that has no white
      space at its ends and a value that has neither white space nor a quote at its
      ends, reads back as that key and value; the value may itself contain '='. */
  lemma ParseLineOf(k: string, v: string)
    requires k != [] && '=' !in k && k[0] != '#' && k[0] !in Space && k[|k| - 1] !in Space
    requires v == [] || (v[0] !in Space && v[0] !in Quotes && v[|v| - 1] !in Space && v[|v| - 1] !in Quotes)
    ensures ParseLine(k + "=" + v) == Some((k, v))
  {
    var line := k + "=" + v;
    assert TrimSpace(line) != [] && TrimSpace(line)[0] != '#' && Cut(TrimSpace(line), '=') == Some((k, v))
           && TrimSpace(k) == k by {
      LineUntrimmed(k, v);
    }
    assert Trim(TrimSpace(v), Quotes) == v by {
      ValueUntrimmed(v);
    }
    ParseLineSplits(line, k, v);
  }

  /** ParseLine read step by step: a trimmed line that is not a comment and splits
      at its first '=' into a non-empty key and a value yields them. */
  lemma ParseLineSplits(line: string, k: string, v: string)
    requires TrimSpace(line) != [] && TrimSpace(line)[0] != '#'
    requires Cut(TrimSpace(line), '=') == Some((k, v))
    requires TrimSpace(k) == k && k != [] && '=' !in k
    requires Trim(TrimSpace(v), Quotes) == v
    ensures ParseLine(line) == Some((k, v))
  {
    var t := TrimSpace(line);
    assert '=' in t;
    var parts := Cut(t, '=').value;
    assert parts == (k, v);
    assert ValidateKey(TrimSpace(parts.0)).None?;
    assert ParseLine(line) == Some((TrimSpace(parts.0), Trim(TrimSpace(parts.1), Quotes)));
  }

  /** The facts about a key=value line that ParseLine meets on its way. */
  lemma LineUntrimmed(k: string, v: string)
    requires k != [] && '=' !in k && k[0] !in Space && k[|k| - 1] !in Space
    requires v == [] || v[|v| - 1] !in Space
    ensures var t := TrimSpace(k + "=" + v);
            && t == k + "=" + v && t[0] == k[0] && '=' in t
            && Cut(t, '=') == Some((k, v)) && TrimSpace(k) == k
  {
    LineEnds(k, v);
    TrimSpaceNothing(k + "=" + v);
    assert k + "=" + v == k + ['='] + v;
    CutAt(k, '=', v);
    TrimSpaceNothing(k);
  }

  lemma LineEnds(k: string, v: string)
    requires k != [] && k[0] !in Space
    requires v == [] || v[|v| - 1] !in Space
    ensures var line := k + "=" + v;
            line[0] == k[0] && line[|k|] == '=' && line[|line| - 1] !in Space
  {
    assert '=' !in Space;
  }

  lemma ValueUntrimmed(v: string)
    requires v == [] || (v[0] !in Space && v[0] !in Quotes && v[|v| - 1] !in Space && v[|v| - 1] !in Quotes)
    ensures Trim(TrimSpace(v), Quotes) == v
  {
    if v != [] {
      TrimNothing(v, Space);
      TrimNothing(v, Quotes);
    }
  }

  /** A line is skipped exactly when, once trimmed, it is blank, a comment, has no
      '=', or has nothing but white space before its first '='; the key check that
      follows never rejects, since that key is non-empty and holds no '='. */
  lemma ParseLineSkips(line: string)
    ensures var t := TrimSpace(line);
            ParseLine(line).None? <==> t == [] || t[0] == '#' || '=' !in t || TrimSpace(Cut(t, '=').value.0) == []
  {
  }

  /** The key/value pairs the accepted lines set, in file order. */
  function Accepted(lines: seq<string>): (r: seq<(string, string)>)
    ensures |r| <= |lines|
    decreases |lines|
  {
    if |lines| == 0 then []
    else
      var prev := Accepted(lines[..|lines| - 1]);
      var parsed := ParseLine(lines[|lines| - 1]);
      if parsed.None? then prev
      else
        prev + [parsed.value]
  }

  /** Every pair the import sets has a key that passes validation. */
  lemma {:induction false} AcceptedKeysValid(lines: seq<string>)
    ensures KeysValid(Accepted(lines))
    decreases |lines|
  {
    if |lines| > 0 {
      var init := lines[..|lines| - 1];
      AcceptedKeysValid(init);
      var parsed := ParseLine(lines[|lines| - 1]);
      if parsed.Some? {
        KeysValidSnoc(Accepted(init), parsed.value);
      }
    }
  }

  /** Every key in pairs passes validation. */
  predicate KeysValid(pairs: seq<(string, string)>)
  {
    forall i :: 0 <= i < |pairs| ==> ValidateKey(pairs[i].0).None?
  }

  lemma KeysValidSnoc(pairs: seq<(string, string)>, kv: (string, string))
    requires KeysValid(pairs) && ValidateKey(kv.0).None?
    ensures KeysValid(pairs + [kv])
  {
    forall i | 0 <= i < |pairs| + 1
      ensures ValidateKey((pairs + [kv])[i].0).None?
    {
      if i < |pairs| {
        assert (pairs + [kv])[i] == pairs[i];
      }
    }
  }

  /** The map that setting pairs in order onto m produces. */
  function SetAll(m: Secrets, pairs: seq<(string, string)>): Secrets
    decreases |pairs|
  {
    if |pairs| == 0 then m else SetAll(m, pairs[..|pairs| - 1])[pairs[|pairs| - 1].0 := pairs[|pairs| - 1].1]
  }

  /** The key k ends up in the map exactly when it was there already or an accepted
      pair sets it; its value is that of the last such pair. */
  lemma {:induction false} SetAllLookup(m: Secrets, pairs: seq<(string, string)>, k: string)
    ensures k in SetAll(m, pairs) <==> k in m || exists i :: 0 <= i < |pairs| && pairs[i].0 == k
    ensures forall i :: 0 <= i < |pairs| && pairs[i].0 == k && (forall j :: i < j < |pairs| ==> pairs[j].0 != k)
                        ==> SetAll(m, pairs)[k] == pairs[i].1
    ensures (forall i :: 0 <= i < |pairs| ==> pairs[i].0 != k) && k in m ==> SetAll(m, pairs)[k] == m[k]
    decreases |pairs|
  {
    if |pairs| > 0 {
      var last := |pairs| - 1;
      var init := pairs[..last];
      SetAllLookup(m, init, k);
      if pairs[last].0 != k {
        assert (exists i :: 0 <= i < |pairs| && pairs[i].0 == k) ==> exists i :: 0 <= i < |init| && init[i].0 == k by {
          if i :| 0 <= i < |pairs| && pairs[i].0 == k {
            assert init[i].0 == k;
          }
        }
        forall i | 0 <= i < |pairs| && pairs[i].0 == k && (forall j :: i < j < |pairs| ==> pairs[j].0 != k)
          ensures SetAll(m, pairs)[k] == pairs[i].1
        {
          assert init[i] == pairs[i];
        }
      }
    }
  }

  /** The import loop of handleImport: the accepted pairs are set in file order,
      later lines overwriting earlier ones, and every accepted line is counted,
      repeated keys included. */
  method ImportLines(start: Secrets, lines: seq<string>) returns (secrets: Secrets, count: nat)
    ensures secrets == SetAll(start, Accepted(lines))
    ensures count == |Accepted(lines)|
  {
    secrets, count := start, 0;
    for i := 0 to |lines|
      invariant secrets == SetAll(start, Accepted(lines[..i])) && count == |Accepted(lines[..i])|
    {
      var parsed := ParseLine(lines[i]);
      var next, counted := secrets, count;
      if parsed.Some? {
        next := secrets[parsed.value.0 := parsed.value.1];
        counted := count + 1;
      }
      ImportStep(start, lines, i, parsed, secrets, count, next, counted);
      secrets, count := next, counted;
    }
    assert lines[..|lines|] == lines;
  }

  /** One line of the import loop: an accepted line is set and counted, a skipped
      one changes nothing, and either way the state matches the lines read so far. */
  lemma ImportStep(start: Secrets, lines: seq<string>, i: nat, parsed: Option<(string, string)>,
                   secrets: Secrets, count: nat, next: Secrets, counted: nat)
    requires i < |lines| && parsed == ParseLine(lines[i])
    requires secrets == SetAll(start, Accepted(lines[..i])) && count == |Accepted(lines[..i])|
    requires parsed.None? ==> next == secrets && counted == count
    requires parsed.Some? ==> next == secrets[parsed.value.0 := parsed.value.1] && counted == count + 1
    ensures next == SetAll(start, Accepted(lines[..i + 1])) && counted == |Accepted(lines[..i + 1])|
  {
    AcceptedStep(lines, i);
    if parsed.Some? {
      SetAllSnoc(start, Accepted(lines[..i]), parsed.value);
    }
  }

  lemma SetAllSnoc(m: Secrets, pairs: seq<(string, string)>, kv: (string, string))
    ensures SetAll(m, pairs + [kv]) == SetAll(m, pairs)[kv.0 := kv.1]
  {
    assert (pairs + [kv])[..|pairs|] == pairs;
  }

  lemma AcceptedStep(lines: seq<string>, i: nat)
    requires i < |lines|
    ensures Accepted(lines[..i + 1]) ==
            if ParseLine(lines[i]).None? then Accepted(lines[..i]) else Accepted(lines[..i]) + [ParseLine(lines[i]).value]
  {
    assert lines[..i + 1][..i] == lines[..i];
  }

  // ------------------------------------------------------------------- export

  /** The export format: as requested, else the configured default, else "json". */
  function ExportFormat(format: string, cfg: Option<Config.Config>): (f: string)
    ensures f != ""
    ensures format != "" ==> f == format
    ensures format == "" && cfg.Some? && cfg.value.exporting.defaultFormat != "" ==> f == cfg.value.exporting.defaultFormat
    ensures format == "" && (cfg.None? || cfg.value.exporting.defaultFormat == "") ==> f == "json"
  {
    if format != "" then format
    else if cfg.Some? && cfg.value.exporting.defaultFormat != "" then cfg.value.exporting.defaultFormat
    else "json"
  }

  /** The .env text of secrets with its keys in the given order. */
  function EnvText(secrets: Secrets, order: seq<string>): string
    requires forall i :: 0 <= i < |order| ==> order[i] in secrets
    decreases |order|
  {
    if |order| == 0 then []
    else
      var k := order[|order| - 1];
      EnvText(secrets, order[..|order| - 1]) + k + "=" + secrets[k] + "\n"
  }

  predicate Distinct(order: seq<string>)
  {
    forall i, j :: 0 <= i < j < |order| ==> order[i] != order[j]
  }

  /** The "env" branch of handleExport: one key=value line per secret, in the map's
      iteration order, which Go leaves unspecified; order reports the order taken. */
  method RenderEnv(secrets: Secrets) returns (out: string, order: seq<string>)
    ensures Distinct(order) && (forall i :: 0 <= i < |order| ==> order[i] in secrets)
    ensures forall k :: k in secrets ==> k in order
    ensures out == EnvText(secrets, order)
  {
    out, order := [], [];
    var rest := secrets.Keys;
    while rest != {}
      invariant rest <= secrets.Keys
      invariant Distinct(order) && (forall i :: 0 <= i < |order| ==> order[i] in secrets && order[i] !in rest)
      invariant forall k :: k in secrets ==> k in rest || k in order
      invariant out == EnvText(secrets, order)
      decreases |rest|
    {
      var k :| k in rest;
      out := out + k + "=" + secrets[k] + "\n";
      order := order + [k];
      rest := rest - {k};
    }
  }

  // ---------------------------------------------------------- secret sharing

  /** The bounds handleCreateShares enforces before splitting. */
  function ShareBoundsError(parts: int, threshold: int): (err: Option<Error>)
    ensures err.None? <==> 2 <= parts <= 255 && 2 <= threshold <= parts
    ensures (parts < 2 || parts > 255) ==> err == Some(OutOfRange("parts must be between 2 and 255", parts))
    ensures 2 <= parts <= 255 && (threshold < 2 || threshold > parts)
            ==> err == Some(OutOfRange("threshold must be between 2 and parts", threshold))
  {
    if parts < 2 || parts > 255 then Some(OutOfRange("parts must be between 2 and 255", parts))
    else if threshold < 2 || threshold > parts then Some(OutOfRange("threshold must be between 2 and parts", threshold))
    else None
  }

  // ---------------------------------------------------------------- handlers

  /** What the one save a handler performs draws on besides the map and the
      password: the primitives, the serialiser, the random salt and nonce, the
      clock, and the outcome of each system call. */
  datatype SaveInputs = SaveInputs(
    p: Primitives, codec: Codec, salt: Result<SaltBytes>, nonce: Result<NonceBytes>, now: int, faults: SaveFaults)

  /** The files after Service.Save(secrets, password) at path. */
  function FilesAfterSave(files: map<Path, FileEntry>, path: Path, c: SaveInputs, secrets: Secrets, password: seq<byte>)
    : map<Path, FileEntry>
  {
    match Payload(c.p, c.codec, secrets, password, c.salt, c.nonce)
    case Err(_) => files
    case Ok(envelope) => AfterSave(files, path, envelope, c.now, c.faults)
  }

  /** The error Service.Save(secrets, password) returns. */
  function SaveError(c: SaveInputs, secrets: Secrets, password: seq<byte>): Option<Error>
  {
    match Payload(c.p, c.codec, secrets, password, c.salt, c.nonce)
    case Err(e) => Some(e)
    case Ok(_) =>
      match FirstFault(c.faults)
      case None => None
      case Some(e) => Some(Context(SaveContext, Wrapf(ErrVaultWriteFailed, e)))
  }

  /** e wrapped in a context message, when there is an error. */
  function InContext(message: string, e: Option<Error>): Option<Error>
  {
    match e
    case None => None
    case Some(inner) => Some(Context(message, inner))
  }

  /** The save that ends each handler, with its error placed in the handler's context. */
  method SaveIn(fs: FileSystem, s: Service, c: SaveInputs, secrets: Secrets, password: seq<byte>, message: string)
    returns (err: Option<Error>)
    modifies fs`files
    ensures fs.files == FilesAfterSave(old(fs.files), s.vaultPath, c, secrets, password)
    ensures err == InContext(message, SaveError(c, secrets, password))
  {
    var e := s.Save(fs, c.p, c.codec, secrets, password, c.salt, c.nonce, c.now, c.faults);
    err := InContext(message, e);
  }

  /** The map handleSet and handleImport start from: empty when there is no vault,
      the stored map when it loads, and a load failure otherwise. */
  function StartingSecrets(present: bool, loaded: Result<Secrets>): (r: Result<Secrets>)
    ensures !present ==> r == Ok(map[])
    ensures present && loaded.Ok? ==> r == loaded
    ensures present && loaded == Err(ErrVaultNotFound) ==> r == Ok(map[])
    ensures present && loaded.Err? && loaded.error != ErrVaultNotFound ==> r == loaded
  {
    if !present then Ok(map[])
    else match loaded
      case Ok(m) => Ok(m)
      case Err(e) => if e == ErrVaultNotFound then Ok(map[]) else Err(e)
  }

  /** The load both handlers begin with: the stored map, read only when the vault exists. */
  method LoadStart(fs: FileSystem, s: Service, c: SaveInputs, password: seq<byte>) returns (start: Result<Secrets>)
    ensures start == StartingSecrets(VaultExists(fs, s.vaultPath), LoadResult(fs, s.vaultPath, c.p, c.codec, password))
  {
    start := Ok(map[]);
    if s.Exists(fs) {
      var existing, plaintext := s.Load(fs, c.p, c.codec, password);
      start := StartingSecrets(true, existing);
    }
  }

  const VaultNotFound: Error := Message("vault not found")

  /** handleSet: an invalid key is refused before the vault is touched; otherwise
      key is set to value in the stored map (an empty one when there is no vault)
      and the map is saved. The password buffer is zeroed on every exit. */
  method HandleSet(fs: FileSystem, svc: Result<Service>, c: SaveInputs, key: string, value: string, password: array<byte>)
    returns (err: Option<Error>)
    modifies fs`files, password
    ensures AllZero(password[..])
    ensures ValidateKey(key).Some? ==> err == Some(Context("invalid key", ValidateKey(key).value)) && fs.files == old(fs.files)
    ensures ValidateKey(key).None? && svc.Err? ==>
              err == Some(Context("failed to resolve vault", svc.error)) && fs.files == old(fs.files)
    ensures ValidateKey(key).None? && svc.Ok? ==>
              var path := svc.value.vaultPath;
              var start := old(StartingSecrets(VaultExists(fs, path), LoadResult(fs, path, c.p, c.codec, password[..])));
              && (start.Err? ==> err == Some(Context("failed to load existing vault", start.error)) && fs.files == old(fs.files))
              && (start.Ok? ==>
                    && fs.files == FilesAfterSave(old(fs.files), path, c, start.value[key := value], old(password[..]))
                    && err == InContext("failed to save secret", SaveError(c, start.value[key := value], old(password[..]))))
  {
    var pw := password[..];
    var invalid := ValidateKey(key);
    if invalid.Some? {
      err := Some(Context("invalid key", invalid.value));
    } else if svc.Err? {
      err := Some(Context("failed to resolve vault", svc.error));
    } else {
      var secrets: Secrets := map[];
      var start := LoadStart(fs, svc.value, c, pw);
      if start.Err? {
        err := Some(Context("failed to load existing vault", start.error));
      } else {
        secrets := start.value[key := value];
        err := SaveIn(fs, svc.value, c, secrets, pw, "failed to save secret");
      }
    }
    ZeroBytes(password);
  }

  /** A map saved under a password is what loading with that password returns,
      when the primitives and the serialiser are lawful and the save went through:
      what handleChangePassword, handleSet and handleImport rely on. */
  lemma SavedMapLoads(fs: FileSystem, files: map<Path, FileEntry>, path: Path, c: SaveInputs,
                      secrets: Secrets, password: seq<byte>)
    requires Lawful(c.p) && CodecLawful(c.codec) && c.salt.Ok? && c.nonce.Ok? && FirstFault(c.faults).None?
    ensures SaveError(c, secrets, password).None?
    ensures fs.files == FilesAfterSave(files, path, c, secrets, password) && path !in fs.denied
            ==> LoadResult(fs, path, c.p, c.codec, password) == Ok(secrets)
  {
    SaveLoadRoundTrip(fs, files, path, c.p, c.codec, secrets, password, c.salt.value, c.nonce.value, c.now, c.faults);
  }

  /** The message for a key that is not in the vault. */
  function SecretNotFound(key: string): Error
  {
    Message("secret '" + key + "' not found")
  }

  /** handleRemove: a missing vault or a missing key is an error and nothing is
      saved; otherwise the stored map without key is saved. */
  method HandleRemove(fs: FileSystem, svc: Result<Service>, c: SaveInputs, key: string, password: array<byte>)
    returns (err: Option<Error>)
    modifies fs`files, password
    ensures AllZero(password[..])
    ensures svc.Err? ==> err == Some(Context("failed to resolve vault", svc.error)) && fs.files == old(fs.files)
    ensures svc.Ok? ==>
              var path := svc.value.vaultPath;
              var loaded := old(LoadResult(fs, path, c.p, c.codec, password[..]));
              && (loaded == Err(ErrVaultNotFound) ==> err == Some(VaultNotFound) && fs.files == old(fs.files))
              && (loaded.Err? && loaded.error != ErrVaultNotFound ==>
                    err == Some(Context("failed to load vault", loaded.error)) && fs.files == old(fs.files))
              && (loaded.Ok? && key !in loaded.value ==> err == Some(SecretNotFound(key)) && fs.files == old(fs.files))
              && (loaded.Ok? && key in loaded.value ==>
                    && fs.files == FilesAfterSave(old(fs.files), path, c, loaded.value - {key}, old(password[..]))
                    && err == InContext("failed to save vault", SaveError(c, loaded.value - {key}, old(password[..]))))
  {
    var pw := password[..];
    if svc.Err? {
      err := Some(Context("failed to resolve vault", svc.error));
    } else {
      var loaded, plaintext := svc.value.Load(fs, c.p, c.codec, pw);
      if loaded.Err? {
        err := if loaded.error == ErrVaultNotFound then Some(VaultNotFound) else Some(Context("failed to load vault", loaded.error));
      } else if key !in loaded.value {
        err := Some(SecretNotFound(key));
      } else {
        var secrets := loaded.value - {key};
        err := SaveIn(fs, svc.value, c, secrets, pw, "failed to save vault");
      }
    }
    ZeroBytes(password);
  }

  /** handleChangePassword: the map loaded under the current password is saved,
      unchanged, under the new one; both password buffers are zeroed. */
  method HandleChangePassword(fs: FileSystem, svc: Result<Service>, c: SaveInputs,
                              currentPassword: array<byte>, newPassword: array<byte>)
    returns (err: Option<Error>)
    modifies fs`files, currentPassword, newPassword
    ensures AllZero(currentPassword[..]) && AllZero(newPassword[..])
    ensures svc.Err? ==> err == Some(Context("failed to resolve vault", svc.error)) && fs.files == old(fs.files)
    ensures svc.Ok? ==>
              var path := svc.value.vaultPath;
              var loaded := old(LoadResult(fs, path, c.p, c.codec, currentPassword[..]));
              && (loaded == Err(ErrVaultNotFound) ==> err == Some(VaultNotFound) && fs.files == old(fs.files))
              && (loaded.Err? && loaded.error != ErrVaultNotFound ==>
                    err == Some(Context("failed to load vault (wrong password?)", loaded.error)) && fs.files == old(fs.files))
              && (loaded.Ok? ==>
                    && fs.files == FilesAfterSave(old(fs.files), path, c, loaded.value, old(newPassword[..]))
                    && err == InContext("failed to save vault with new password", SaveError(c, loaded.value, old(newPassword[..]))))
  {
    var current, next := currentPassword[..], newPassword[..];
    if svc.Err? {
      err := Some(Context("failed to resolve vault", svc.error));
    } else {
      var loaded, plaintext := svc.value.Load(fs, c.p, c.codec, current);
      if loaded.Err? {
        err := if loaded.error == ErrVaultNotFound then Some(VaultNotFound)
               else Some(Context("failed to load vault (wrong password?)", loaded.error));
      } else {
        err := SaveIn(fs, svc.value, c, loaded.value, next, "failed to save vault with new password");
      }
    }
    ZeroBytes(newPassword);
    ZeroBytes(currentPassword);
  }

  /** handleImport: the lines of the file (given as read, or the read error) are
      imported on top of the stored map (an empty one when there is no vault) and
      the result is saved; count is the number of accepted lines. */
  method HandleImport(fs: FileSystem, svc: Result<Service>, c: SaveInputs, content: Result<string>, password: array<byte>)
    returns (err: Option<Error>, count: nat)
    modifies fs`files, password
    ensures AllZero(password[..])
    ensures svc.Err? ==> err == Some(Context("failed to resolve vault", svc.error)) && fs.files == old(fs.files)
    ensures svc.Ok? && content.Err? ==> err == Some(Context("failed to read file", content.error)) && fs.files == old(fs.files)
    ensures svc.Ok? && content.Ok? ==>
              var path := svc.value.vaultPath;
              var start := old(StartingSecrets(VaultExists(fs, path), LoadResult(fs, path, c.p, c.codec, password[..])));
              var accepted := Accepted(Split(content.value, '\n'));
              && (start.Err? ==> err == Some(Context("failed to load existing vault", start.error)) && fs.files == old(fs.files))
              && (start.Ok? ==>
                    && count == |accepted|
                    && fs.files == FilesAfterSave(old(fs.files), path, c, SetAll(start.value, accepted), old(password[..]))
                    && err == InContext("failed to save vault", SaveError(c, SetAll(start.value, accepted), old(password[..]))))
  {
    var pw := password[..];
    count := 0;
    if svc.Err? {
      err := Some(Context("failed to resolve vault", svc.error));
    } else if content.Err? {
      err := Some(Context("failed to read file", content.error));
    } else {
      err, count := ImportInto(fs, svc.value, c, content.value, pw);
    }
    ZeroBytes(password);
  }

  /** handleImport once the file is read: the accepted lines are set on top of the
      starting map and the result is saved. */
  method ImportInto(fs: FileSystem, s: Service, c: SaveInputs, text: string, password: seq<byte>)
    returns (err: Option<Error>, count: nat)
    modifies fs`files
    ensures var start := old(StartingSecrets(VaultExists(fs, s.vaultPath), LoadResult(fs, s.vaultPath, c.p, c.codec, password)));
            var accepted := Accepted(Split(text, '\n'));
            && (start.Err? ==> err == Some(Context("failed to load existing vault", start.error)) && fs.files == old(fs.files))
            && (start.Ok? ==>
                  && count == |accepted|
                  && fs.files == FilesAfterSave(old(fs.files), s.vaultPath, c, SetAll(start.value, accepted), password)
                  && err == InContext("failed to save vault", SaveError(c, SetAll(start.value, accepted), password)))
  {
    count := 0;
    var start := LoadStart(fs, s, c, password);
    if start.Err? {
      err := Some(Context("failed to load existing vault", start.error));
    } else {
      var secrets;
      secrets, count := ImportLines(start.value, Split(text, '\n'));
      err := SaveIn(fs, s, c, secrets, password, "failed to save vault");
    }
  }

  /** What handleExport produces before writing or printing it. */
  datatype Exported = EnvFile(text: string) | JsonFile(bytes: seq<byte>)

  /** handleExport up to the output: the format chosen, the vault loaded, and the map
      rendered as .env lines (in the order reported by order) or as indented JSON. */
  method HandleExport(fs: FileSystem, svc: Result<Service>, p: Primitives, codec: Codec,
                      marshalIndent: Secrets -> Result<seq<byte>>, cfg: Option<Config.Config>,
                      format: string, password: array<byte>)
    returns (r: Result<Exported>, order: seq<string>)
    modifies password
    ensures AllZero(password[..])
    ensures svc.Err? ==> r == Err(Context("failed to resolve vault", svc.error))
    ensures svc.Ok? ==>
              var loaded := LoadResult(fs, svc.value.vaultPath, p, codec, old(password[..]));
              && (loaded == Err(ErrVaultNotFound) ==> r == Err(VaultNotFound))
              && (loaded.Err? && loaded.error != ErrVaultNotFound ==> r == Err(Context("failed to load vault", loaded.error)))
              && (loaded.Ok? && ExportFormat(format, cfg) == "env" ==>
                    && Distinct(order) && (forall i :: 0 <= i < |order| ==> order[i] in loaded.value)
                    && (forall k :: k in loaded.value ==> k in order)
                    && r == Ok(EnvFile(EnvText(loaded.value, order))))
              && (loaded.Ok? && ExportFormat(format, cfg) != "env" ==>
                    r == match marshalIndent(loaded.value)
                         case Ok(b) => Ok(JsonFile(b))
                         case Err(e) => Err(Context("failed to marshal secrets", e)))
  {
    var pw := password[..];
    order := [];
    var f := ExportFormat(format, cfg);
    if svc.Err? {
      r := Err(Context("failed to resolve vault", svc.error));
    } else {
      var loaded, plaintext := svc.value.Load(fs, p, codec, pw);
      if loaded.Err? {
        r := if loaded.error == ErrVaultNotFound then Err(VaultNotFound) else Err(Context("failed to load vault", loaded.error));
      } else if f == "env" {
        var text;
        text, order := RenderEnv(loaded.value);
        r := Ok(EnvFile(text));
      } else {
        var out := marshalIndent(loaded.value);
        r := if out.Err? then Err(Context("failed to marshal secrets", out.error)) else Ok(JsonFile(out.value));
      }
    }
    ZeroBytes(password);
  }

  /** Fresh buffers holding the given contents, one per element. */
  method Buffers(contents: seq<seq<byte>>) returns (bs: seq<array<byte>>)
    ensures |bs| == |contents|
    ensures forall i :: 0 <= i < |bs| ==> fresh(bs[i]) && bs[i][..] == contents[i]
  {
    bs := [];
    for i := 0 to |contents|
      invariant |bs| == i
      invariant forall j :: 0 <= j < i ==> fresh(bs[j]) && bs[j][..] == contents[j]
    {
      var b := NewBuffer(contents[i]);
      bs := bs + [b];
    }
  }

  /** handleCreateShares up to writing the share files: the bounds are checked before
      the password is split; the shares to write are returned, and their buffers and
      the password are zeroed afterwards. */
  method HandleCreateShares(lib: Shamir.Library, parts: int, threshold: int, password: array<byte>)
    returns (r: Result<seq<seq<byte>>>, shares: seq<array<byte>>)
    modifies password
    ensures AllZero(password[..])
    ensures forall i :: 0 <= i < |shares| ==> AllZero(shares[i][..])
    ensures ShareBoundsError(parts, threshold).Some? ==> r == Err(ShareBoundsError(parts, threshold).value)
    ensures ShareBoundsError(parts, threshold).None? ==>
              r == match lib.split(old(password[..]), parts, threshold)
                   case Ok(written) => Ok(written)
                   case Err(e) => Err(Context("failed to split secret", e))
    ensures r.Ok? ==> |shares| == |r.value|
  {
    shares := [];
    var bounds := ShareBoundsError(parts, threshold);
    if bounds.Some? {
      r := Err(bounds.value);
    } else {
      var split := Shamir.SplitSecret(lib, password[..], parts, threshold);
      if split.Err? {
        r := Err(Context("failed to split secret", split.error));
      } else {
        shares := Buffers(split.value);
        r := Ok(split.value);
        // defer shamir.ZeroShares(shares)
        Shamir.ZeroShares(shares);
      }
    }
    ZeroBytes(password);
  }

  /** The error of the first share file that could not be read. */
  function FirstReadError(results: seq<Result<seq<byte>>>): (e: Option<Error>)
    ensures e.None? <==> forall i :: 0 <= i < |results| ==> results[i].Ok?
  {
    if |results| == 0 then None
    else if results[0].Err? then Some(results[0].error)
    else FirstReadError(results[1..])
  }

  /** The contents of share files that were all read. */
  function Values(results: seq<Result<seq<byte>>>): (vs: seq<seq<byte>>)
    requires forall i :: 0 <= i < |results| ==> results[i].Ok?
    ensures |vs| == |results| && forall i :: 0 <= i < |results| ==> vs[i] == results[i].value
  {
    seq(|results|, i requires 0 <= i < |results| => results[i].value)
  }

  /** handleRecover up to printing: at least two share files, each read (results holds
      what reading and decoding each file gave), combined by the library; once all
      shares are read, their buffers and the recovered buffer are zeroed afterwards. */
  method HandleRecover(lib: Shamir.Library, results: seq<Result<seq<byte>>>)
    returns (r: Result<seq<byte>>, shares: seq<array<byte>>, recovered: array<byte>)
    // the zeroing is deferred only once every share has been read
    ensures |results| >= 2 && FirstReadError(results).None? ==> forall i :: 0 <= i < |shares| ==> AllZero(shares[i][..])
    ensures AllZero(recovered[..])
    ensures |results| < 2 ==> r == Err(Message("at least 2 share files required"))
    ensures |results| >= 2 && FirstReadError(results).Some? ==> r == Err(Context("failed to read share", FirstReadError(results).value))
    ensures |results| >= 2 && FirstReadError(results).None? ==>
              r == match lib.combine(Values(results))
                   case Ok(secret) => Ok(secret)
                   case Err(e) => Err(Context("failed to combine shares", e))
  {
    shares, recovered := [], new byte[0];
    if |results| < 2 {
      return Err(Message("at least 2 share files required")), shares, recovered;
    }
    for i := 0 to |results|
      invariant |shares| == i
      invariant forall j :: 0 <= j < i ==> results[j].Ok? && fresh(shares[j]) && shares[j][..] == results[j].value
    {
      if results[i].Err? {
        assert FirstReadError(results) == Some(results[i].error) by { FirstReadErrorAt(results, i); }
        return Err(Context("failed to read share", results[i].error)), shares, recovered;
      }
      var b := NewBuffer(results[i].value);
      shares := shares + [b];
    }
    assert Shamir.Contents(shares) == Values(results);
    var combined := Shamir.CombineShares(lib, shares);
    if combined.Err? {
      r := Err(Context("failed to combine shares", combined.error));
    } else {
      recovered := NewBuffer(combined.value);
      r := Ok(combined.value);
      ZeroBytes(recovered);
    }
    Shamir.ZeroShares(shares);
  }

  /** The error reported is that of the first file that failed. */
  lemma {:induction false} FirstReadErrorAt(results: seq<Result<seq<byte>>>, i: nat)
    requires i < |results| && results[i].Err? && forall j :: 0 <= j < i ==> results[j].Ok?
    ensures FirstReadError(results) == Some(results[i].error)
    decreases i
  {
    if i > 0 {
      FirstReadErrorAt(results[1..], i - 1);
    }
  }
}

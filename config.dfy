/** Configuration records (internal/config/schema.go), constants
    (internal/config/config.go) and the rules that merge, complete and check a
    configuration (internal/config/loader.go). Configurations are values: the
    loader's in-place updates of a *Config it alone holds become functions that
    return the updated record. */
module Config {
  import opened Errors
  import opened Text

  // internal/config/config.go:3-20
  const VaultFileName: string := ".ghostenv.gev"
  const Argon2Time: nat := 1
  const Argon2Memory: nat := 64 * 1024
  const Argon2Threads: nat := 4
  const DefaultEnvironment: string := "dev"
  const ProjectVaultDir: string := ".ghostenv"
  // internal/config/loader.go:44-49
  const ProjectConfigName: string := ".ghostenv.yml"

  newtype uint32 = x: int | 0 <= x < 0x1_0000_0000
  newtype uint8 = x: int | 0 <= x < 0x100

  datatype ProjectConfig = ProjectConfig(name: string, version: string, defaultEnv: string)
  datatype EnvEntry = EnvEntry(dir: string, vault: string)
  datatype AutoBackupConfig = AutoBackupConfig(enabled: bool, retentionDays: int, path: string)
  datatype StorageConfig = StorageConfig(
    vaultDir: string, recursiveSearch: bool, autoBackup: AutoBackupConfig, environments: map<string, EnvEntry>)
  datatype Argon2Config = Argon2Config(memory: string, iterations: uint32, parallelism: uint8)
  datatype PolicyConfig = PolicyConfig(maxAuthAttempts: int, forceMemoryZeroing: bool, disallowPasswordFlagInProd: bool)
  datatype SecurityConfig = SecurityConfig(argon2: Argon2Config, policy: PolicyConfig)
  datatype MicroInheritanceConfig = MicroInheritanceConfig(enabled: bool, sharedVault: string)
  datatype MicroServerConfig = MicroServerConfig(host: string, port: int, useTls: bool)
  datatype PostgresConfig = PostgresConfig(
    enabled: bool, host: string, port: int, database: string, userKey: string, passKey: string, sslMode: string)
  datatype MicroservicesConfig = MicroservicesConfig(
    inheritance: MicroInheritanceConfig, server: MicroServerConfig, postgres: PostgresConfig)
  datatype AuditConfig = AuditConfig(enabled: bool, output: string, filePath: string, logLevel: string, maskKeys: bool)
  datatype ExportConfig = ExportConfig(defaultFormat: string, includeTimestamp: bool)
  datatype Config = Config(
    project: ProjectConfig,
    storage: StorageConfig,
    security: SecurityConfig,
    microservices: MicroservicesConfig,
    scripts: map<string, string>,
    audit: AuditConfig,
    exporting: ExportConfig)

  /** &Config{}: every field at its zero value. */
  const Zero: Config := Config(
    ProjectConfig("", "", ""),
    StorageConfig("", false, AutoBackupConfig(false, 0, ""), map[]),
    SecurityConfig(Argon2Config("", 0, 0), PolicyConfig(0, false, false)),
    MicroservicesConfig(MicroInheritanceConfig(false, ""), MicroServerConfig("", 0, false),
                        PostgresConfig(false, "", 0, "", "", "", "")),
    map[],
    AuditConfig(false, "", "", "", false),
    ExportConfig("", false))

  // ---------------------------------------------------------------- merge

  /** merge(global, project): global's settings, overridden field by field by the
      ones the project file sets (non-empty strings, non-zero numbers, true flags),
      with the environment and script tables united and the project's entries winning. */
  function Merge(global: Option<Config>, project: Option<Config>): (out: Config)
    ensures var base := if global.Some? then global.value else Zero;
            && (project.None? ==> out == base)
            && (project.Some? ==>
                  var p := project.value;
                  && out.project.name == (if p.project.name != "" then p.project.name else base.project.name)
                  && out.project.defaultEnv == (if p.project.defaultEnv != "" then p.project.defaultEnv else base.project.defaultEnv)
                  && out.storage.vaultDir == (if p.storage.vaultDir != "" then p.storage.vaultDir else base.storage.vaultDir)
                  && out.storage.environments.Keys == base.storage.environments.Keys + p.storage.environments.Keys
                  && (forall k :: k in p.storage.environments ==> out.storage.environments[k] == p.storage.environments[k])
                  && (forall k :: k in base.storage.environments && k !in p.storage.environments ==>
                        out.storage.environments[k] == base.storage.environments[k])
                  && out.scripts.Keys == base.scripts.Keys + p.scripts.Keys
                  && (forall k :: k in p.scripts ==> out.scripts[k] == p.scripts[k])
                  && (forall k :: k in base.scripts && k !in p.scripts ==> out.scripts[k] == base.scripts[k])
                  && out.security.argon2 == (if p.security.argon2.memory != "" then p.security.argon2 else base.security.argon2)
                  && out.exporting.defaultFormat == (if p.exporting.defaultFormat != "" then p.exporting.defaultFormat else base.exporting.defaultFormat)
                  && out.project.version == (if p.project.version != "" then p.project.version else base.project.version)
                  && out.storage.recursiveSearch == (base.storage.recursiveSearch || p.storage.recursiveSearch)
                  && out.storage.autoBackup ==
                       (if p.storage.autoBackup.path != "" then p.storage.autoBackup
                        else if p.storage.autoBackup.enabled then
                          base.storage.autoBackup.(enabled := true,
                            retentionDays := if p.storage.autoBackup.retentionDays > 0 then p.storage.autoBackup.retentionDays
                                             else base.storage.autoBackup.retentionDays)
                        else base.storage.autoBackup)
                  && out.security.policy.maxAuthAttempts ==
                       (if p.security.policy.maxAuthAttempts > 0 then p.security.policy.maxAuthAttempts else base.security.policy.maxAuthAttempts)
                  && out.security.policy.forceMemoryZeroing == (base.security.policy.forceMemoryZeroing || p.security.policy.forceMemoryZeroing)
                  && out.security.policy.disallowPasswordFlagInProd ==
                       (base.security.policy.disallowPasswordFlagInProd || p.security.policy.disallowPasswordFlagInProd)
                  && out.microservices.inheritance ==
                       (if p.microservices.inheritance.sharedVault != "" then p.microservices.inheritance else base.microservices.inheritance)
                  && out.microservices.server ==
                       (if p.microservices.server.host != "" || p.microservices.server.port != 0 then p.microservices.server
                        else base.microservices.server)
                  && out.microservices.postgres ==
                       (if p.microservices.postgres.enabled then p.microservices.postgres else base.microservices.postgres)
                  && out.audit ==
                       (if p.audit.filePath != "" then p.audit
                        else if p.audit.enabled then
                          base.audit.(enabled := true,
                                      output := if p.audit.output != "" then p.audit.output else base.audit.output,
                                      logLevel := if p.audit.logLevel != "" then p.audit.logLevel else base.audit.logLevel,
                                      maskKeys := p.audit.maskKeys)
                        else base.audit)
                  && out.exporting.includeTimestamp == (base.exporting.includeTimestamp || p.exporting.includeTimestamp))
  {
    var base := if global.Some? then global.value else Zero;
    if project.None? then base
    else
      var p := project.value;
      Config(
        MergeProject(base.project, p.project),
        MergeStorage(base.storage, p.storage),
        MergeSecurity(base.security, p.security),
        MergeMicroservices(base.microservices, p.microservices),
        base.scripts + p.scripts,
        MergeAudit(base.audit, p.audit),
        MergeExport(base.exporting, p.exporting))
  }

  function Pick(over: string, base: string): string
  {
    if over != "" then over else base
  }

  function MergeProject(base: ProjectConfig, p: ProjectConfig): ProjectConfig
  {
    ProjectConfig(Pick(p.name, base.name), Pick(p.version, base.version), Pick(p.defaultEnv, base.defaultEnv))
  }

  function MergeStorage(base: StorageConfig, p: StorageConfig): StorageConfig
  {
    var backup :=
      if p.autoBackup.path != "" then p.autoBackup
      else if p.autoBackup.enabled then
        base.autoBackup.(enabled := true,
                         retentionDays := if p.autoBackup.retentionDays > 0 then p.autoBackup.retentionDays
                                          else base.autoBackup.retentionDays)
      else base.autoBackup;
    StorageConfig(Pick(p.vaultDir, base.vaultDir), base.recursiveSearch || p.recursiveSearch, backup,
                  base.environments + p.environments)
  }

  function MergeSecurity(base: SecurityConfig, p: SecurityConfig): SecurityConfig
  {
    SecurityConfig(
      if p.argon2.memory != "" then p.argon2 else base.argon2,
      PolicyConfig(
        if p.policy.maxAuthAttempts > 0 then p.policy.maxAuthAttempts else base.policy.maxAuthAttempts,
        base.policy.forceMemoryZeroing || p.policy.forceMemoryZeroing,
        base.policy.disallowPasswordFlagInProd || p.policy.disallowPasswordFlagInProd))
  }

  function MergeMicroservices(base: MicroservicesConfig, p: MicroservicesConfig): MicroservicesConfig
  {
    MicroservicesConfig(
      if p.inheritance.sharedVault != "" then p.inheritance else base.inheritance,
      if p.server.host != "" || p.server.port != 0 then p.server else base.server,
      if p.postgres.enabled then p.postgres else base.postgres)
  }

  function MergeAudit(base: AuditConfig, p: AuditConfig): AuditConfig
  {
    if p.filePath != "" then p
    else if p.enabled then
      base.(enabled := true, output := Pick(p.output, base.output), logLevel := Pick(p.logLevel, base.logLevel),
            maskKeys := p.maskKeys)
    else base
  }

  function MergeExport(base: ExportConfig, p: ExportConfig): ExportConfig
  {
    ExportConfig(Pick(p.defaultFormat, base.defaultFormat), base.includeTimestamp || p.includeTimestamp)
  }

  /** A project file that sets nothing leaves the global configuration as it is. */
  lemma MergeEmptyProject(global: Option<Config>)
    ensures Merge(global, Some(Zero)) == Merge(global, None)
  {
  }

  /** Merging a configuration over itself changes nothing. */
  lemma MergeSelf(c: Config)
    ensures Merge(Some(c), Some(c)) == c
  {
    assert c.storage.environments + c.storage.environments == c.storage.environments;
    assert c.scripts + c.scripts == c.scripts;
  }

  // ---------------------------------------------------------- applyDefaults

  /** Every field applyDefaults fills is set. */
  predicate Complete(c: Config)
  {
    && c.project.defaultEnv != ""
    && c.storage.vaultDir != ""
    && c.security.argon2.memory != ""
    && c.security.argon2.iterations != 0
    && c.security.argon2.parallelism != 0
    && c.security.policy.maxAuthAttempts != 0
    && c.audit.output != ""
    && c.audit.logLevel != ""
    && c.exporting.defaultFormat != ""
    && c.microservices.server.port != 0
    && c.microservices.postgres.port != 0
    && c.microservices.postgres.sslMode != ""
  }

  const DefaultVaultDir: string := "./" + ProjectVaultDir
  const DefaultMemory: string := "64MB"

  /** applyDefaults: fills every empty or zero field with its default and leaves
      every other field as it is. */
  function ApplyDefaults(c: Config): (r: Config)
    ensures Complete(r)
    ensures Complete(c) ==> r == c
    ensures r.audit.enabled == c.audit.enabled
    ensures r.storage.environments == c.storage.environments && r.scripts == c.scripts
    // an unset field gets its default
    ensures c.project.defaultEnv == "" ==> r.project.defaultEnv == DefaultEnvironment
    ensures c.storage.vaultDir == "" ==> r.storage.vaultDir == DefaultVaultDir
    ensures c.security.argon2.iterations == 0 ==> r.security.argon2.iterations as nat == Argon2Time
    ensures c.security.argon2.parallelism == 0 ==> r.security.argon2.parallelism as nat == Argon2Threads
    ensures c.security.policy.maxAuthAttempts == 0 ==> r.security.policy.maxAuthAttempts == 5
    ensures c.audit.output == "" ==> r.audit.output == "file"
    ensures c.audit.logLevel == "" ==> r.audit.logLevel == "info"
    ensures c.exporting.defaultFormat == "" ==> r.exporting.defaultFormat == "json"
    ensures c.microservices.server.port == 0 ==> r.microservices.server.port == 8080
    ensures c.microservices.postgres.port == 0 ==> r.microservices.postgres.port == 5432
    ensures c.microservices.postgres.sslMode == "" ==> r.microservices.postgres.sslMode == "prefer"
    // a field already set is kept
    ensures c.project.defaultEnv != "" ==> r.project.defaultEnv == c.project.defaultEnv
    ensures c.storage.vaultDir != "" ==> r.storage.vaultDir == c.storage.vaultDir
    ensures c.security.argon2.memory != "" ==> r.security.argon2.memory == c.security.argon2.memory
    ensures c.security.argon2.memory == "" ==> r.security.argon2.memory == DefaultMemory
    ensures c.audit.output != "" ==> r.audit.output == c.audit.output
    ensures c.exporting.defaultFormat != "" ==> r.exporting.defaultFormat == c.exporting.defaultFormat
    ensures c.security.argon2.iterations != 0 ==> r.security.argon2.iterations == c.security.argon2.iterations
    ensures c.security.argon2.parallelism != 0 ==> r.security.argon2.parallelism == c.security.argon2.parallelism
    ensures c.security.policy.maxAuthAttempts != 0 ==> r.security.policy.maxAuthAttempts == c.security.policy.maxAuthAttempts
    ensures c.audit.logLevel != "" ==> r.audit.logLevel == c.audit.logLevel
    ensures c.microservices.server.port != 0 ==> r.microservices.server.port == c.microservices.server.port
    ensures c.microservices.postgres.port != 0 ==> r.microservices.postgres.port == c.microservices.postgres.port
    ensures c.microservices.postgres.sslMode != "" ==> r.microservices.postgres.sslMode == c.microservices.postgres.sslMode
    // every field it does not default is left as it is
    ensures r.project == c.project.(defaultEnv := r.project.defaultEnv)
    ensures r.storage == c.storage.(vaultDir := r.storage.vaultDir)
    ensures r.security.policy == c.security.policy.(maxAuthAttempts := r.security.policy.maxAuthAttempts)
    ensures r.microservices == c.microservices.(
              server := c.microservices.server.(port := r.microservices.server.port),
              postgres := c.microservices.postgres.(port := r.microservices.postgres.port,
                                                    sslMode := r.microservices.postgres.sslMode))
    ensures r.audit == c.audit.(output := r.audit.output, logLevel := r.audit.logLevel)
    ensures r.exporting == c.exporting.(defaultFormat := r.exporting.defaultFormat)
  {
    Config(
      c.project.(defaultEnv := Pick(c.project.defaultEnv, DefaultEnvironment)),
      c.storage.(vaultDir := Pick(c.storage.vaultDir, DefaultVaultDir)),
      DefaultSecurity(c.security),
      DefaultMicroservices(c.microservices),
      c.scripts,
      DefaultAudit(c.audit),
      c.exporting.(defaultFormat := Pick(c.exporting.defaultFormat, "json")))
  }

  function DefaultSecurity(c: SecurityConfig): (r: SecurityConfig)
    ensures r.argon2.memory != "" && r.argon2.iterations != 0 && r.argon2.parallelism != 0
    ensures r.policy.maxAuthAttempts != 0
    ensures c.argon2.memory != "" ==> r.argon2.memory == c.argon2.memory
    ensures c.argon2.memory == "" ==> r.argon2.memory == DefaultMemory
    ensures c.argon2.iterations != 0 ==> r.argon2.iterations == c.argon2.iterations
    ensures c.argon2.iterations == 0 ==> r.argon2.iterations as nat == Argon2Time
    ensures c.argon2.parallelism != 0 ==> r.argon2.parallelism == c.argon2.parallelism
    ensures c.argon2.parallelism == 0 ==> r.argon2.parallelism as nat == Argon2Threads
    ensures c.policy.maxAuthAttempts != 0 ==> r.policy.maxAuthAttempts == c.policy.maxAuthAttempts
    ensures c.policy.maxAuthAttempts == 0 ==> r.policy.maxAuthAttempts == 5
    ensures r.policy == c.policy.(maxAuthAttempts := r.policy.maxAuthAttempts)
    ensures (c.argon2.memory != "" && c.argon2.iterations != 0 && c.argon2.parallelism != 0
             && c.policy.maxAuthAttempts != 0) ==> r == c
  {
    SecurityConfig(
      Argon2Config(
        Pick(c.argon2.memory, DefaultMemory),
        if c.argon2.iterations == 0 then Argon2Time as uint32 else c.argon2.iterations,
        if c.argon2.parallelism == 0 then Argon2Threads as uint8 else c.argon2.parallelism),
      c.policy.(maxAuthAttempts := if c.policy.maxAuthAttempts == 0 then 5 else c.policy.maxAuthAttempts))
  }

  function DefaultMicroservices(c: MicroservicesConfig): (r: MicroservicesConfig)
    ensures r.server.port != 0 && r.postgres.port != 0 && r.postgres.sslMode != ""
    ensures c.server.port != 0 ==> r.server.port == c.server.port
    ensures c.server.port == 0 ==> r.server.port == 8080
    ensures c.postgres.port != 0 ==> r.postgres.port == c.postgres.port
    ensures c.postgres.port == 0 ==> r.postgres.port == 5432
    ensures c.postgres.sslMode != "" ==> r.postgres.sslMode == c.postgres.sslMode
    ensures c.postgres.sslMode == "" ==> r.postgres.sslMode == "prefer"
    ensures c.server.port != 0 && c.postgres.port != 0 && c.postgres.sslMode != "" ==> r == c
  {
    c.(server := c.server.(port := if c.server.port == 0 then 8080 else c.server.port),
       postgres := c.postgres.(port := if c.postgres.port == 0 then 5432 else c.postgres.port,
                               sslMode := Pick(c.postgres.sslMode, "prefer")))
  }

  /** The audit section: Output is filled before the check that would enable
      auditing, so that check never fires. */
  function DefaultAudit(c: AuditConfig): (r: AuditConfig)
    ensures r.output != "" && r.logLevel != "" && r.enabled == c.enabled
    ensures c.output != "" ==> r.output == c.output
    ensures c.output == "" ==> r.output == "file"
    ensures c.logLevel != "" ==> r.logLevel == c.logLevel
    ensures c.logLevel == "" ==> r.logLevel == "info"
    ensures c.output != "" && c.logLevel != "" ==> r == c
  {
    var output := Pick(c.output, "file");
    c.(output := output,
       logLevel := Pick(c.logLevel, "info"),
       enabled := if c.filePath == "" && output == "" then true else c.enabled)
  }

  /** Applying the defaults twice is the same as applying them once. */
  lemma ApplyDefaultsIdempotent(c: Config)
    ensures ApplyDefaults(ApplyDefaults(c)) == ApplyDefaults(c)
  {
  }

  /** Default(): the zero configuration with every default applied. */
  function Default(): (c: Config)
    ensures Complete(c) && c.project.defaultEnv == DefaultEnvironment && c.security.argon2.memory == DefaultMemory
    ensures !c.audit.enabled && c.storage.environments == map[]
  {
    ApplyDefaults(Zero)
  }

  // ------------------------------------------------------- memory sizes

  /** parseMemoryToKB: a decimal count with an optional MB, KB or GB suffix (any
      case, surrounding blanks allowed), in kibibytes, truncated to 32 bits as
      uint32(n*mult) does. */
  function ParseMemoryToKB(s: string): (r: Result<nat>)
    ensures r.Ok? ==> r.value < Uint32Limit
    ensures r.Err? ==> r.error.Context? && (r.error.inner == ErrSyntax || r.error.inner == ErrRange)
  {
    var split := SplitUnit(TrimSpace(ToUpper(s)));
    Scale(ParseUint32(TrimSpace(split.1)), split.0, split.1)
  }

  /** The parsed count times the unit's multiplier, as uint32(n*mult); a parse
      error becomes the "invalid memory" error. */
  function Scale(count: Result<nat>, mult: nat, digits: string): Result<nat>
  {
    match count
    case Err(e) => Err(Context(InvalidMemory(digits), e))
    case Ok(n) => Ok((n * mult) % Uint32Limit)
  }

  /** The multiplier a unit suffix stands for, and the text before the suffix. */
  function SplitUnit(t: string): (r: (nat, string))
    ensures r.1 == t || (|t| >= 2 && r.1 == t[..|t| - 2])
  {
    if HasSuffix(t, "MB") then (1024, t[..|t| - 2])
    else if HasSuffix(t, "KB") then (1, t[..|t| - 2])
    else if HasSuffix(t, "GB") then (1024 * 1024, t[..|t| - 2])
    else (1, t)
  }

  function InvalidMemory(digits: string): string
  {
    "invalid memory " + ['"'] + digits + ['"']
  }

  predicate AllDigits(d: string)
  {
    forall i :: 0 <= i < |d| ==> IsDigit(d[i])
  }

  predicate IsUnit(unit: string)
  {
    unit == "MB" || unit == "KB" || unit == "GB" || unit == ""
  }

  /** The multiplier of a unit suffix. */
  function UnitMultiplier(unit: string): nat
  {
    if unit == "MB" then 1024 else if unit == "GB" then 1024 * 1024 else 1
  }

  lemma SplitUnitOf(digits: string, unit: string)
    requires |digits| > 0 && AllDigits(digits) && IsUnit(unit)
    ensures SplitUnit(digits + unit) == (UnitMultiplier(unit), digits)
  {
    var t := digits + unit;
    if unit == "" {
      assert t == digits;
      assert IsDigit(t[|t| - 1]);
      assert !HasSuffix(t, "MB") && !HasSuffix(t, "KB") && !HasSuffix(t, "GB");
    } else {
      assert t[|t| - 2..] == unit;
      assert t[..|t| - 2] == digits;
    }
  }

  lemma UpperOf(digits: string, unit: string)
    requires AllDigits(digits) && IsUnit(unit)
    ensures ToUpper(digits + unit) == digits + unit
  {
    var s := digits + unit;
    forall i | 0 <= i < |s| ensures UpperChar(s[i]) == s[i] {
      if i < |digits| {
        assert s[i] == digits[i];
      } else {
        assert s[i] == unit[i - |digits|];
        UnitUpper(unit, i - |digits|);
      }
    }
  }

  lemma UnitUpper(unit: string, j: nat)
    requires IsUnit(unit) && j < |unit|
    ensures UpperChar(unit[j]) == unit[j]
  {
    assert unit[j] in "MKGB";
  }

  /** A count n written in decimal and followed by MB, KB, GB or nothing parses to
      n times the unit's multiplier, modulo 2^32; a count of 2^32 or more is rejected. */
  lemma ParseMemoryUnits(digits: string, unit: string)
    requires |digits| > 0 && AllDigits(digits) && IsUnit(unit)
    ensures DecimalValue(digits) < Uint32Limit ==>
              ParseMemoryToKB(digits + unit) == Ok((DecimalValue(digits) * UnitMultiplier(unit)) % Uint32Limit)
    ensures DecimalValue(digits) >= Uint32Limit ==> ParseMemoryToKB(digits + unit) == Err(Context(InvalidMemory(digits), ErrRange))
  {
    ParseMemoryShape(digits, unit);
    assert digits[..|digits|] == digits;
  }

  lemma ParseMemoryShape(digits: string, unit: string)
    requires |digits| > 0 && AllDigits(digits) && IsUnit(unit)
    ensures ParseMemoryToKB(digits + unit) == Scale(ParseUint32(digits), UnitMultiplier(unit), digits)
  {
    NormalizedOf(digits, unit);
    SplitUnitOf(digits, unit);
    DigitsUntrimmed(digits);
  }

  lemma DigitsUntrimmed(digits: string)
    requires |digits| > 0 && AllDigits(digits)
    ensures TrimSpace(digits) == digits
  {
    assert IsDigit(digits[0]) && IsDigit(digits[|digits| - 1]);
    TrimNothing(digits, Space);
  }

  /** Upper-casing and trimming leave a count followed by a unit as it is. */
  lemma NormalizedOf(digits: string, unit: string)
    requires |digits| > 0 && AllDigits(digits) && IsUnit(unit)
    ensures TrimSpace(ToUpper(digits + unit)) == digits + unit
  {
    var s := digits + unit;
    UpperOf(digits, unit);
    assert s[0] == digits[0] && IsDigit(s[0]);
    assert s[|s| - 1] !in Space;
    TrimNothing(s, Space);
  }

  /** "64MB", the default memory setting, is 65536 KiB. */
  lemma DefaultMemoryParses()
    ensures ParseMemoryToKB(DefaultMemory) == Ok(65536)
  {
    calc {
      ParseMemoryToKB(DefaultMemory);
      == { assert DefaultMemory == "64" + "MB"; assert AllDigits("64"); ParseMemoryShape("64", "MB"); }
      Scale(ParseUint32("64"), 1024, "64");
      == { assert DecimalValue("64") == 64 by {
             assert "64"[..1] == "6";
             assert DecimalValue("6") == 6 by { assert "6"[..0] == ""; }
           }
         }
      Scale(Ok(64), 1024, "64");
      ==
      Ok(65536);
    }
  }

  /** The 32-bit truncation: "4096GB" is 2^32 KiB, which wraps to 0. A worked
      instance of ParseMemoryAccepts, kept as documentation. */
  lemma MemoryWrapsAround()
    ensures ParseMemoryToKB("4096GB") == Ok(0)
  {
    calc {
      ParseMemoryToKB("4096GB");
      == { assert "4096GB" == "4096" + "GB"; assert AllDigits("4096"); ParseMemoryShape("4096", "GB"); }
      Scale(ParseUint32("4096"), 1024 * 1024, "4096");
      == { assert DecimalValue("4096") == 4096 by {
             assert "4096"[..3] == "409" && "409"[..2] == "40" && "40"[..1] == "4" && "4"[..0] == "";
           }
         }
      Scale(Ok(4096), 1024 * 1024, "4096");
      ==
      Ok(0);
    }
  }

  /** Case and surrounding blanks do not matter: the text parses as its upper-cased,
      trimmed form does. */
  lemma ParseMemoryNormalizes(s: string)
    ensures ParseMemoryToKB(s) == ParseMemoryToKB(ToUpper(TrimSpace(s)))
  {
    ToUpperIdempotent(TrimSpace(s));
    TrimSpaceUpper(TrimSpace(s));
    TrimSpaceIdempotent(s);
    TrimSpaceUpper(s);
  }

  /** A text that, upper-cased and trimmed, is a count (blanks allowed around it)
      followed by MB, KB, GB or nothing, where the count is a decimal below 2^32,
      parses to the count times the unit's multiplier, modulo 2^32. */
  lemma ParseMemoryAccepts(s: string, count: string, unit: string)
    requires IsUnit(unit) && TrimSpace(ToUpper(s)) == count + unit && ParseUint32(TrimSpace(count)).Ok?
    ensures ParseMemoryToKB(s) == Ok((ParseUint32(TrimSpace(count)).value * UnitMultiplier(unit)) % Uint32Limit)
  {
    if unit == "" {
      TrimSpaceIdempotent(ToUpper(s));
      assert count + unit == count;
    }
    SplitUnitCount(count, unit);
  }

  lemma SplitUnitCount(count: string, unit: string)
    requires IsUnit(unit) && ParseUint32(TrimSpace(count)).Ok? && (unit == "" ==> TrimSpace(count) == count)
    ensures SplitUnit(count + unit) == (UnitMultiplier(unit), count)
  {
    if unit == "" {
      assert |count| > 0 && IsDigit(count[|count| - 1]);
      assert count + unit == count;
      NoUnitSuffix(count);
    } else {
      UnitSuffix(count, unit);
    }
  }

  /** A text ending in a digit carries no unit suffix. */
  lemma NoUnitSuffix(t: string)
    requires |t| > 0 && IsDigit(t[|t| - 1])
    ensures SplitUnit(t) == (1, t)
  {
    assert !HasSuffix(t, "MB") && !HasSuffix(t, "KB") && !HasSuffix(t, "GB") by {
      if |t| >= 2 {
        assert t[|t| - 2..][1] == t[|t| - 1];
      }
    }
  }

  lemma UnitSuffix(count: string, unit: string)
    requires unit == "MB" || unit == "KB" || unit == "GB"
    ensures SplitUnit(count + unit) == (UnitMultiplier(unit), count)
  {
    var t := count + unit;
    assert t[|t| - 2..] == unit;
    assert t[..|t| - 2] == count;
  }

  /** Every other text is rejected: an accepted text has that shape. */
  lemma ParseMemoryOnlyAccepts(s: string)
    ensures ParseMemoryToKB(s).Ok? ==>
              exists count, unit :: IsUnit(unit) && TrimSpace(ToUpper(s)) == count + unit && ParseUint32(TrimSpace(count)).Ok?
  {
    var n := TrimSpace(ToUpper(s));
    var split := SplitUnit(n);
    if ParseUint32(TrimSpace(split.1)).Ok? {
      var unit := UnitOf(n);
      assert n == split.1 + unit;
    }
  }

  /** The unit suffix SplitUnit removes. */
  function UnitOf(t: string): (unit: string)
    ensures IsUnit(unit) && t == SplitUnit(t).1 + unit
  {
    if HasSuffix(t, "MB") then "MB" else if HasSuffix(t, "KB") then "KB" else if HasSuffix(t, "GB") then "GB" else ""
  }

  // ---------------------------------------------------------- validation

  /** validateAndParse: a non-empty memory setting must parse. */
  function ValidateAndParse(c: Config): (err: Option<Error>)
    ensures err.Some? <==> c.security.argon2.memory != "" && ParseMemoryToKB(c.security.argon2.memory).Err?
  {
    if c.security.argon2.memory != "" then
      match ParseMemoryToKB(c.security.argon2.memory)
      case Err(e) => Some(Context("config security.argon2.memory", e))
      case Ok(_) => None
    else None
  }

  /** Load, given what reading the global and the project file produced (None for
      a missing or unparsable file): merged, completed with defaults, and rejected
      when its memory setting does not parse. */
  function Load(global: Option<Config>, project: Option<Config>): (r: Result<Config>)
    ensures r.Ok? ==> Complete(r.value) && r.value == ApplyDefaults(Merge(global, project))
    ensures r.Err? <==> var m := Merge(global, project).security.argon2.memory;
                        m != "" && ParseMemoryToKB(m).Err?
  {
    var merged := ApplyDefaults(Merge(global, project));
    DefaultMemoryParses();
    match ValidateAndParse(merged)
    case Some(e) => Err(e)
    case None => Ok(merged)
  }

  // ---------------------------------------------------- Argon2 accessors

  /** Argon2MemoryKB: the parsed memory setting, or Argon2Memory / 1024 when there
      is no configuration or its setting is empty or does not parse. */
  function Argon2MemoryKB(c: Option<Config>): (kb: nat)
    ensures kb < Uint32Limit
    ensures c.Some? && c.value.security.argon2.memory != "" && ParseMemoryToKB(c.value.security.argon2.memory).Ok?
            ==> kb == ParseMemoryToKB(c.value.security.argon2.memory).value
    ensures c.None? || c.value.security.argon2.memory == "" || ParseMemoryToKB(c.value.security.argon2.memory).Err?
            ==> kb == 64
  {
    if c.None? || c.value.security.argon2.memory == "" then Argon2Memory / 1024
    else match ParseMemoryToKB(c.value.security.argon2.memory)
      case Err(_) => Argon2Memory / 1024
      case Ok(kb) => kb
  }

  /** As written, the fallback disagrees with the default setting: a configuration
      whose memory setting is empty yields 64 KiB, but the same configuration after
      ApplyDefaults (memory "64MB") yields 65536 KiB. */
  lemma Argon2MemoryFallbackDisagrees()
    ensures Argon2MemoryKB(Some(Zero)) == 64
    ensures Argon2MemoryKB(Some(ApplyDefaults(Zero))) == 65536
  {
    DefaultMemoryParses();
  }

  /** Argon2MemoryKB with the fallback Argon2Memory taken as the KiB count it is
      (64 * 1024), which is what "64MB" parses to. */
  function Argon2MemoryKBIntended(c: Option<Config>): (kb: nat)
    ensures kb < Uint32Limit
    ensures c.Some? && c.value.security.argon2.memory != "" && ParseMemoryToKB(c.value.security.argon2.memory).Ok?
            ==> kb == ParseMemoryToKB(c.value.security.argon2.memory).value
    ensures c.None? || c.value.security.argon2.memory == "" || ParseMemoryToKB(c.value.security.argon2.memory).Err?
            ==> Ok(kb) == ParseMemoryToKB(DefaultMemory)
  {
    DefaultMemoryParses();
    if c.None? || c.value.security.argon2.memory == "" then Argon2Memory
    else match ParseMemoryToKB(c.value.security.argon2.memory)
      case Err(_) => Argon2Memory
      case Ok(kb) => kb
  }

  /** With the intended fallback, filling in defaults never changes the memory cost. */
  lemma Argon2MemoryDefaultsAgree(c: Config)
    ensures Argon2MemoryKBIntended(Some(c)) == Argon2MemoryKBIntended(Some(ApplyDefaults(c)))
  {
    DefaultMemoryParses();
  }

  /** Argon2Iterations: the configured count, or Argon2Time when unset. */
  function Argon2Iterations(c: Option<Config>): (n: uint32)
    ensures n != 0
    ensures c.Some? && c.value.security.argon2.iterations != 0 ==> n == c.value.security.argon2.iterations
    ensures c.None? || c.value.security.argon2.iterations == 0 ==> n as int == Argon2Time
  {
    if c.None? || c.value.security.argon2.iterations == 0 then Argon2Time as uint32
    else c.value.security.argon2.iterations
  }

  /** Argon2Parallelism: the configured degree, or Argon2Threads when unset. */
  function Argon2Parallelism(c: Option<Config>): (n: uint8)
    ensures n != 0
    ensures c.Some? && c.value.security.argon2.parallelism != 0 ==> n == c.value.security.argon2.parallelism
    ensures c.None? || c.value.security.argon2.parallelism == 0 ==> n as int == Argon2Threads
  {
    if c.None? || c.value.security.argon2.parallelism == 0 then Argon2Threads as uint8
    else c.value.security.argon2.parallelism
  }
}

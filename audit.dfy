/** The audit trail (internal/audit/audit.go): whether an action is recorded, the
    record, and the file it is appended to. The current configuration, the project
    root, the environment variables, the home directory and the clock are
    parameters; appending the JSON line to the file is not modelled. */
module Audit {
  import opened Errors
  import opened Paths
  import opened Os
  import Config

  /** The record of one action; the timestamp is the caller's clock reading. */
  datatype Entry = Entry(
    timestamp: string,
    action: string,
    environment: string,
    vaultPath: string,
    key: string,
    success: bool,
    error: string)

  const Redacted: string := "[redacted]"
  const LogFileName: string := "audit.log"

  /** The package's disabled flag, set at start-up from GHOSTENV_AUDIT_DISABLE. */
  predicate Disabled(disableVar: string)
  {
    disableVar == "1" || disableVar == "true"
  }

  /** resolveLogPath: GHOSTENV_AUDIT_LOG when set; else the configured file path, below
      the project root when relative and a root is known; else audit.log beside the
      vault, or in ~/.ghostenv when there is no vault path. */
  function ResolveLogPath(logVar: string, cfg: Option<Config.Config>, root: Path, home: Path, vaultPath: string): (p: Path)
    ensures logVar != "" ==> p == FromString(logVar)
    ensures logVar == "" && cfg.Some? && cfg.value.audit.filePath != "" ==>
              var f := FromString(cfg.value.audit.filePath);
              p == if f.absolute || root == Empty then f else Join(root, f)
    ensures logVar == "" && (cfg.None? || cfg.value.audit.filePath == "") && vaultPath == "" ==>
              p == Child(Child(home, Config.ProjectVaultDir), LogFileName)
    ensures logVar == "" && (cfg.None? || cfg.value.audit.filePath == "") && vaultPath != "" ==>
              Dir(p) == Dir(FromString(vaultPath)) && Base(p) == LogFileName
  {
    if logVar != "" then FromString(logVar)
    else if cfg.Some? && cfg.value.audit.filePath != "" then
      var f := FromString(cfg.value.audit.filePath);
      if !f.absolute && root != Empty then Join(root, f) else f
    else if vaultPath == "" then Child(Child(home, Config.ProjectVaultDir), LogFileName)
    else Child(Dir(FromString(vaultPath)), LogFileName)
  }

  /** The entry Log records for an action and the file it goes to, or None when the
      action is not recorded: audit disabled by the environment, or by a configuration
      that is present. Without a configuration the action is recorded. */
  function Record(disableVar: string, logVar: string, cfg: Option<Config.Config>, root: Path, home: Path, now: string,
                  action: string, vaultPath: string, environment: string, key: string, success: bool, errMsg: string)
    : (r: Option<(Path, Entry)>)
    ensures r.None? <==> Disabled(disableVar) || (cfg.Some? && !cfg.value.audit.enabled)
    ensures r.Some? ==> r.value.0 == ResolveLogPath(logVar, cfg, root, home, vaultPath)
    ensures r.Some? ==> r.value.1.(key := key) == Entry(now, action, environment, vaultPath, key, success, errMsg)
    ensures r.Some? ==> r.value.1.key == if cfg.Some? && cfg.value.audit.maskKeys then Redacted else key
  {
    if Disabled(disableVar) || (cfg.Some? && !cfg.value.audit.enabled) then None
    else
      var entry := Entry(now, action, environment, vaultPath, key, success, errMsg);
      var entry' := if cfg.Some? && cfg.value.audit.maskKeys then entry.(key := Redacted) else entry;
      Some((ResolveLogPath(logVar, cfg, root, home, vaultPath), entry'))
  }

  /** Log: build the entry, mask its key when configured to, and create the log's
      directory; the result is the line to append and where, or None when nothing is
      written. */
  method Log(fs: FileSystem, disableVar: string, logVar: string, cfg: Option<Config.Config>, root: Path, home: Path,
             now: string, action: string, vaultPath: string, environment: string, key: string, success: bool,
             errMsg: string)
    returns (r: Option<(Path, Entry)>)
    modifies fs`dirs
    ensures var rec := Record(disableVar, logVar, cfg, root, home, now, action, vaultPath, environment, key, success, errMsg);
            && (rec.None? ==> r.None? && fs.dirs == old(fs.dirs))
            && (rec.Some? && old(fs.MkdirAllError(Dir(rec.value.0))).Some? ==> r.None? && fs.dirs == old(fs.dirs))
            && (rec.Some? && old(fs.MkdirAllError(Dir(rec.value.0))).None? ==>
                  r == rec && fs.dirs == old(fs.dirs) + Ancestors(Dir(rec.value.0)))
  {
    if Disabled(disableVar) {
      return None;
    }
    if cfg.Some? && !cfg.value.audit.enabled {
      return None;
    }
    var entry := Entry(now, action, environment, vaultPath, key, success, errMsg);
    if cfg.Some? && cfg.value.audit.maskKeys {
      entry := entry.(key := Redacted);
    }
    var logPath := ResolveLogPath(logVar, cfg, root, home, vaultPath);
    var err := fs.MkdirAll(Dir(logPath));
    if err.Some? {
      return None;
    }
    return Some((logPath, entry));
  }
}

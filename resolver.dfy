/** Where the vault lives (internal/vault/resolver.go): the project root found by
    walking up from the working directory, and the vault path chosen from it, the
    home directory and the configuration. The working directory and the home
    directory are parameters (Err when os.Getwd or os.UserHomeDir fails). */
module Resolver {
  import opened Errors
  import opened Paths
  import opened Os
  import Config

  datatype VaultType = Project | Global

  /** The vault file of the default environment inside a project's vault directory. */
  const DefaultVaultFile: string := Config.DefaultEnvironment + ".gev"

  /** dir holds a .ghostenv directory, a .ghostenv/dev.gev entry, or a .ghostenv.yml entry. */
  predicate HasMarker(fs: FileSystem, dir: Path)
    reads fs
  {
    var vaultDir := Child(dir, Config.ProjectVaultDir);
    || (fs.Stat(vaultDir).Ok? && fs.Stat(vaultDir).value.isDir)
    || fs.Stat(Child(vaultDir, DefaultVaultFile)).Ok?
    || fs.Stat(Child(dir, Config.ProjectConfigName)).Ok?
  }

  /** The first directory with a marker on the way from dir up to the root. */
  function MarkedAncestor(fs: FileSystem, dir: Path): Option<Path>
    reads fs
    decreases |dir.parts|
  {
    if HasMarker(fs, dir) then Some(dir)
    else if Dir(dir) == dir then None
    else MarkedAncestor(fs, Dir(dir))
  }

  /** The project root for working directory wd: its innermost marked ancestor, or wd itself. */
  function ProjectRoot(fs: FileSystem, wd: Path): Path
    reads fs
  {
    match MarkedAncestor(fs, wd)
    case Some(d) => d
    case None => wd
  }

  /** The ancestors of dir are dir itself and the ancestors of its parent. */
  lemma WithinParent(dir: Path, q: Path)
    requires dir.parts != []
    ensures Within(dir, q) <==> q == dir || Within(Dir(dir), q)
  {
    if Within(dir, q) && q != dir {
      assert |q.parts| < |dir.parts|;
    }
  }

  /** MarkedAncestor finds the innermost marked ancestor, and finds none only when no
      ancestor has a marker. */
  lemma {:induction false} MarkedAncestorInnermost(fs: FileSystem, dir: Path)
    ensures MarkedAncestor(fs, dir).Some? ==>
              var d := MarkedAncestor(fs, dir).value;
              && Within(dir, d) && HasMarker(fs, d)
              && forall q :: Within(dir, q) && |q.parts| > |d.parts| ==> !HasMarker(fs, q)
    ensures MarkedAncestor(fs, dir).None? ==> forall q :: Within(dir, q) ==> !HasMarker(fs, q)
    decreases |dir.parts|
  {
    if HasMarker(fs, dir) {
    } else if Dir(dir) == dir {
      forall q | Within(dir, q) ensures !HasMarker(fs, q) {
        assert q == dir;
      }
    } else {
      MarkedAncestorInnermost(fs, Dir(dir));
      forall q ensures Within(dir, q) <==> q == dir || Within(Dir(dir), q) {
        WithinParent(dir, q);
      }
    }
  }

  /** findProjectRoot: walk from the working directory towards the root and stop at
      the first directory with a marker; "" when the working directory is unknown. */
  method FindProjectRoot(fs: FileSystem, wd: Result<Path>) returns (root: Path)
    ensures wd.Err? ==> root == Empty
    ensures wd.Ok? ==> root == ProjectRoot(fs, wd.value)
  {
    if wd.Err? {
      return Empty;
    }
    var dir := wd.value;
    while true
      invariant MarkedAncestor(fs, dir) == MarkedAncestor(fs, wd.value)
      decreases |dir.parts|
    {
      var vaultDir := Child(dir, Config.ProjectVaultDir);
      var info := fs.Stat(vaultDir);
      if info.Ok? && info.value.isDir {
        return dir;
      }
      if fs.Stat(Child(vaultDir, DefaultVaultFile)).Ok? {
        return dir;
      }
      if fs.Stat(Child(dir, Config.ProjectConfigName)).Ok? {
        return dir;
      }
      var parent := Dir(dir);
      if parent == dir {
        break;
      }
      dir := parent;
    }
    return wd.value;
  }

  /** The environment a request names: as given, else the configured default, else "dev". */
  function EnvironmentName(cfg: Config.Config, environment: string): (env: string)
    ensures env != ""
    ensures environment != "" ==> env == environment
    ensures environment == "" && cfg.project.defaultEnv != "" ==> env == cfg.project.defaultEnv
    ensures environment == "" && cfg.project.defaultEnv == "" ==> env == Config.DefaultEnvironment
  {
    if environment != "" then environment
    else if cfg.project.defaultEnv != "" then cfg.project.defaultEnv
    else Config.DefaultEnvironment
  }

  /** The project's vault directory: the configured one (./.ghostenv when unset),
      below the project root unless it is absolute. */
  function VaultDirOf(cfg: Config.Config, root: Path): (d: Path)
    ensures cfg.storage.vaultDir == "" ==> d == Join(root, Path(false, [Config.ProjectVaultDir]))
    ensures cfg.storage.vaultDir != "" && FromString(cfg.storage.vaultDir).absolute ==> d == FromString(cfg.storage.vaultDir)
    ensures cfg.storage.vaultDir != "" && !FromString(cfg.storage.vaultDir).absolute ==> d == Join(root, FromString(cfg.storage.vaultDir))
  {
    // filepath.Join(".", ".ghostenv") is ".ghostenv"
    var d := if cfg.storage.vaultDir == "" then Path(false, [Config.ProjectVaultDir]) else FromString(cfg.storage.vaultDir);
    if d.absolute then d else Join(root, d)
  }

  /** The environment's own sub-directory, when the configuration names one. */
  predicate HasEnvDir(cfg: Config.Config, env: string)
  {
    env in cfg.storage.environments && cfg.storage.environments[env].dir != ""
  }

  /** The directory that holds env's vault. */
  function EnvVaultDir(cfg: Config.Config, root: Path, env: string): (d: Path)
    ensures Within(d, VaultDirOf(cfg, root))
    ensures !HasEnvDir(cfg, env) ==> d == VaultDirOf(cfg, root)
    ensures HasEnvDir(cfg, env) ==>
              d == Join(VaultDirOf(cfg, root), FromString(cfg.storage.environments[env].dir))
  {
    var base := VaultDirOf(cfg, root);
    if HasEnvDir(cfg, env) then
      var d := Join(base, FromString(cfg.storage.environments[env].dir));
      assert d.parts[..|base.parts|] == base.parts;
      d
    else base
  }

  class Resolver {
    const projectRoot: Path
    const cfg: Config.Config

    /** NewResolver: the project root from the walk, and the configuration loaded from
        the global and project files (given here as already read), or the defaults
        when loading fails. */
    constructor (fs: FileSystem, wd: Result<Path>, global: Option<Config.Config>, project: Option<Config.Config>)
      ensures wd.Err? ==> projectRoot == Empty
      ensures wd.Ok? ==> projectRoot == ProjectRoot(fs, wd.value)
      ensures Config.Load(global, project).Ok? ==> cfg == Config.Load(global, project).value
      ensures Config.Load(global, project).Err? ==> cfg == Config.Default()
    {
      var root := FindProjectRoot(fs, wd);
      projectRoot := root;
      var loaded := Config.Load(global, project);
      cfg := if loaded.Ok? then loaded.value else Config.Default();
    }

    /** ResolveVaultPath. */
    method ResolveVaultPath(fs: FileSystem, environment: string, home: Result<Path>, wd: Result<Path>)
      returns (r: Result<(Path, VaultType)>)
      modifies fs`dirs
      ensures home.Err? ==> r == Err(home.error) && fs.dirs == old(fs.dirs)
      ensures home.Ok? && wd.Err? ==> r == Err(wd.error) && fs.dirs == old(fs.dirs)
      // the global vault exactly when the project root is the home directory
      ensures home.Ok? && wd.Ok? && Abs(projectRoot, wd.value) == Abs(home.value, wd.value)
              ==> r == Ok((Child(home.value, Config.VaultFileName), Global)) && fs.dirs == old(fs.dirs)
      ensures r.Ok? ==> (r.value.1 == Global <==> Abs(projectRoot, wd.value) == Abs(home.value, wd.value))
      // otherwise the vault directory is created first, and its failure is the result
      ensures home.Ok? && wd.Ok? && Abs(projectRoot, wd.value) != Abs(home.value, wd.value) ==>
                var base := VaultDirOf(cfg, projectRoot);
                var env := EnvironmentName(cfg, environment);
                && (old(fs.MkdirAllError(base)).Some? ==> r == Err(old(fs.MkdirAllError(base)).value) && fs.dirs == old(fs.dirs))
                && (old(fs.MkdirAllError(base)).None? ==>
                      && r == Ok((Child(EnvVaultDir(cfg, projectRoot, env), env + ".gev"), Project))
                      && old(fs.dirs) + Ancestors(base) <= fs.dirs
                      && fs.dirs <= old(fs.dirs) + Ancestors(EnvVaultDir(cfg, projectRoot, env)))
    {
      var env := environment;
      if env == "" {
        env := cfg.project.defaultEnv;
      }
      if env == "" {
        env := Config.DefaultEnvironment;
      }
      if home.Err? {
        return Err(home.error);
      }
      if wd.Err? {
        return Err(wd.error);
      }
      var absHome := Abs(home.value, wd.value);
      var absProject := Abs(projectRoot, wd.value);
      if projectRoot == Empty || absProject == absHome || projectRoot == wd.value {
        if absProject == absHome {
          return Ok((Child(home.value, Config.VaultFileName), Global));
        }
      }
      var vaultDir := if cfg.storage.vaultDir == "" then Path(false, [Config.ProjectVaultDir])
                      else FromString(cfg.storage.vaultDir);
      if !vaultDir.absolute {
        vaultDir := Join(projectRoot, vaultDir);
      }
      var err := fs.MkdirAll(vaultDir);
      if err.Some? {
        return Err(err.value);
      }
      ghost var base := vaultDir;
      if env in cfg.storage.environments && cfg.storage.environments[env].dir != "" {
        vaultDir := Join(vaultDir, FromString(cfg.storage.environments[env].dir));
        AncestorsGrow(vaultDir, base);
        var ignored := fs.MkdirAll(vaultDir);
      }
      return Ok((Child(vaultDir, env + ".gev"), Project));
    }
  }

  /** A directory below base has every ancestor of base among its own ancestors. */
  lemma AncestorsGrow(d: Path, base: Path)
    requires Within(d, base)
    ensures Ancestors(base) <= Ancestors(d)
  {
    forall q | q in Ancestors(base) ensures q in Ancestors(d) {
      WithinTransitive(d, base, q);
    }
  }

  lemma WithinTransitive(a: Path, b: Path, c: Path)
    requires Within(a, b) && Within(b, c)
    ensures Within(a, c)
  {
    assert c.parts == b.parts[..|c.parts|] == a.parts[..|b.parts|][..|c.parts|];
  }
}

/** Atomic persistence of an encrypted vault (internal/storage/storage.go):
    the bytes go to a sibling temporary file which is then renamed over the
    destination. */
module Storage {
  import opened Errors
  import opened Bytes
  import opened Paths
  import opened Os

  /** What each system call of a save returns: None for success, or its error. */
  datatype SaveFaults = SaveFaults(
    open: Option<Error>,
    write: Option<Error>,
    sync: Option<Error>,
    close: Option<Error>,
    rename: Option<Error>)

  /** The error of the first step that fails, in the order the steps run. */
  function FirstFault(f: SaveFaults): (e: Option<Error>)
    ensures e.None? <==> f.open.None? && f.write.None? && f.sync.None? && f.close.None? && f.rename.None?
  {
    if f.open.Some? then f.open
    else if f.write.Some? then f.write
    else if f.sync.Some? then f.sync
    else if f.close.Some? then f.close
    else f.rename
  }

  /** A failure of open, write, sync or close: the rename is never reached. */
  predicate FailsBeforeRename(f: SaveFaults)
  {
    f.open.Some? || f.write.Some? || f.sync.Some? || f.close.Some?
  }

  /** The temporary file: the destination's name plus ".tmp", in the destination's directory. */
  function TempPath(path: Path): (tmp: Path)
    ensures Dir(tmp) == Dir(path) && Base(tmp) == Base(path) + ".tmp"
    ensures tmp != path
  {
    var tmp := Child(Dir(path), Base(path) + ".tmp");
    assert |Base(tmp)| != |Base(path)|;
    tmp
  }

  /** The files after SaveVault(path, data) ran at time now under the faults f. */
  function AfterSave(files: map<Path, FileEntry>, path: Path, data: seq<byte>, now: int, f: SaveFaults): (r: map<Path, FileEntry>)
    // nothing but the destination and the temporary file is touched
    ensures forall q :: q != path && q != TempPath(path) ==> (q in r <==> q in files) && (q in r ==> r[q] == files[q])
    // a failed open leaves everything as it was
    ensures f.open.Some? ==> r == files
    // once the temporary file was created, it never survives the call
    ensures f.open.None? ==> TempPath(path) !in r
    // a failure before the rename leaves the destination untouched
    ensures FailsBeforeRename(f) ==> (path in r <==> path in files) && (path in r ==> r[path] == files[path])
    // the destination was removed before the rename: a failed rename loses the old vault
    ensures !FailsBeforeRename(f) && f.rename.Some? ==> path !in r
    // success: the destination holds exactly data
    ensures FirstFault(f).None? ==> path in r && r[path] == FileEntry(data, now)
  {
    var tmp := TempPath(path);
    if f.open.Some? then files
    else if FailsBeforeRename(f) then files - {tmp}
    else if f.rename.Some? then files - {path, tmp}
    else (files - {tmp})[path := FileEntry(data, now)]
  }

  /** SaveVault: write data to path through a temporary file and a rename. */
  method SaveVault(fs: FileSystem, path: Path, data: seq<byte>, now: int, faults: SaveFaults) returns (err: Option<Error>)
    modifies fs`files
    ensures fs.files == AfterSave(old(fs.files), path, data, now, faults)
    ensures err.None? <==> FirstFault(faults).None?
    ensures err.Some? ==> err.value == Wrapf(ErrVaultWriteFailed, FirstFault(faults).value) && Is(err.value, ErrVaultWriteFailed)
  {
    ghost var files := fs.files;
    var tmp := TempPath(path);
    var e := fs.Create(tmp, now, faults.open);
    if e.Some? {
      return Some(Wrapf(ErrVaultWriteFailed, e.value));
    }
    e := fs.Write(tmp, data, now, faults.write);
    if e.Some? {
      fs.Remove(tmp);
      DropAdded(files, tmp, FileEntry([], now), {tmp});
      return Some(Wrapf(ErrVaultWriteFailed, e.value));
    }
    ghost var written := fs.files;
    assert written == files[tmp := FileEntry(data, now)];
    e := fs.Flush(faults.sync);
    if e.Some? {
      fs.Remove(tmp);
      DropAdded(files, tmp, FileEntry(data, now), {tmp});
      return Some(Wrapf(ErrVaultWriteFailed, e.value));
    }
    e := fs.Flush(faults.close);
    if e.Some? {
      fs.Remove(tmp);
      DropAdded(files, tmp, FileEntry(data, now), {tmp});
      return Some(Wrapf(ErrVaultWriteFailed, e.value));
    }
    fs.Remove(path);
    e := fs.Rename(tmp, path, faults.rename);
    if e.Some? {
      fs.Remove(tmp);
      assert fs.files == written - {path} - {tmp};
      DropAdded(files, tmp, FileEntry(data, now), {path, tmp});
      assert written - {path} - {tmp} == written - {path, tmp};
      return Some(Wrapf(ErrVaultWriteFailed, e.value));
    }
    assert fs.files == (written - {path} - {tmp})[path := FileEntry(data, now)];
    DropAdded(files, tmp, FileEntry(data, now), {path, tmp});
    assert (written - {path} - {tmp})[path := FileEntry(data, now)] == (files - {tmp})[path := FileEntry(data, now)];
    return None;
  }

  /** A file added and then removed leaves the map as if it had only been removed. */
  lemma DropAdded<K, V>(m: map<K, V>, k: K, v: V, gone: set<K>)
    requires k in gone
    ensures m[k := v] - gone == m - gone
  {
  }

  /** LoadVault: the stored bytes, the bare ErrVaultNotFound, or a wrapped read failure. */
  function LoadVault(fs: FileSystem, path: Path): (r: Result<seq<byte>>)
    reads fs
    ensures r == Err(ErrVaultNotFound) <==> path !in fs.files && path !in fs.dirs && path !in fs.denied
    ensures r.Ok? <==> path in fs.files && path !in fs.denied
    ensures r.Ok? ==> r.value == fs.files[path].data
    ensures r.Err? && r.error != ErrVaultNotFound ==> r.error.Wrapf? && Is(r.error, ErrVaultReadFailed)
  {
    match fs.ReadFile(path)
    case Ok(data) => Ok(data)
    case Err(e) => if e == Os(NotExist) then Err(ErrVaultNotFound) else Err(Wrapf(ErrVaultReadFailed, e))
  }

  /** VaultExists: false only when stat reports that nothing is there. */
  function VaultExists(fs: FileSystem, path: Path): (b: bool)
    reads fs
    ensures b <==> path in fs.files || path in fs.dirs || path in fs.denied
    ensures !b <==> LoadVault(fs, path) == Err(ErrVaultNotFound)
  {
    fs.Stat(path) != Err(Os(NotExist))
  }

  /** VaultModTime: the modification time, with the errors classified as LoadVault does. */
  function VaultModTime(fs: FileSystem, path: Path): (r: Result<int>)
    reads fs
    ensures r == Err(ErrVaultNotFound) <==> LoadVault(fs, path) == Err(ErrVaultNotFound)
    ensures r.Err? && r.error != ErrVaultNotFound ==> r.error.Wrapf? && Is(r.error, ErrVaultReadFailed)
    ensures r.Ok? <==> path !in fs.denied && (path in fs.files || path in fs.dirs)
    ensures path in fs.files && path !in fs.denied ==> r == Ok(fs.files[path].modTime)
  {
    match fs.Stat(path)
    case Ok(info) => Ok(info.modTime)
    case Err(e) => if e == Os(NotExist) then Err(ErrVaultNotFound) else Err(Wrapf(ErrVaultReadFailed, e))
  }
}

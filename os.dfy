/** The operating-system file system as the vault sees it: regular files with
    contents and modification times, directories, and paths whose access is
    refused. Each system call is a method; the ones that can fail for reasons
    outside this model (disk full, I/O error) take the failure as a parameter. */
module Os {
  import opened Errors
  import opened Bytes
  import opened Paths

  datatype FileEntry = FileEntry(data: seq<byte>, modTime: int)

  datatype FileInfo = FileInfo(isDir: bool, modTime: int)

  class FileSystem {
    var files: map<Path, FileEntry>
    var dirs: set<Path>
    /** Paths whose stat or read fails with a permission error. */
    var denied: set<Path>

    constructor (files: map<Path, FileEntry>, dirs: set<Path>, denied: set<Path>)
      ensures this.files == files && this.dirs == dirs && this.denied == denied
    {
      this.files, this.dirs, this.denied := files, dirs, denied;
    }

    /** os.Stat. */
    function Stat(p: Path): (r: Result<FileInfo>)
      reads this
      ensures r == Err(Os(NotExist)) <==> p !in files && p !in dirs && p !in denied
      ensures r.Ok? <==> p !in denied && (p in files || p in dirs)
    {
      if p in denied then Err(Os(Permission))
      else if p in files then Ok(FileInfo(false, files[p].modTime))
      else if p in dirs then Ok(FileInfo(true, 0))
      else Err(Os(NotExist))
    }

    /** os.ReadFile. */
    function ReadFile(p: Path): (r: Result<seq<byte>>)
      reads this
      ensures r == Err(Os(NotExist)) <==> Stat(p) == Err(Os(NotExist))
      ensures r.Ok? <==> p !in denied && p in files
      ensures r.Ok? ==> r.value == files[p].data
    {
      if p in denied then Err(Os(Permission))
      else if p in files then Ok(files[p].data)
      else if p in dirs then Err(Os(IsDirectory))
      else Err(Os(NotExist))
    }

    /** os.OpenFile(p, O_WRONLY|O_CREATE|O_TRUNC): an empty file at p, unless the call fails. */
    method Create(p: Path, now: int, failure: Option<Error>) returns (err: Option<Error>)
      modifies this`files
      ensures err == failure
      ensures files == if failure.Some? then old(files) else old(files)[p := FileEntry([], now)]
    {
      err := failure;
      if failure.None? {
        files := files[p := FileEntry([], now)];
      }
    }

    /** Write of the whole buffer to the open file p. */
    method Write(p: Path, data: seq<byte>, now: int, failure: Option<Error>) returns (err: Option<Error>)
      modifies this`files
      ensures err == failure
      ensures files == if failure.Some? then old(files) else old(files)[p := FileEntry(data, now)]
    {
      err := failure;
      if failure.None? {
        files := files[p := FileEntry(data, now)];
      }
    }

    /** File.Sync and File.Close: nothing observable changes, but they can fail. */
    method Flush(failure: Option<Error>) returns (err: Option<Error>)
      ensures err == failure
    {
      err := failure;
    }

    /** os.Remove, with its error ignored. */
    method Remove(p: Path)
      modifies this`files
      ensures files == old(files) - {p}
    {
      files := files - {p};
    }

    /** os.Rename(src, dst): dst takes src's entry and src disappears, unless the call fails. */
    method Rename(src: Path, dst: Path, failure: Option<Error>) returns (err: Option<Error>)
      requires src in files
      modifies this`files
      ensures err == failure
      ensures files == if failure.Some? then old(files) else (old(files) - {src})[dst := old(files)[src]]
    {
      err := failure;
      if failure.None? {
        files := (files - {src})[dst := files[src]];
      }
    }

    /** Why os.MkdirAll(p) fails: a file or a refused path among p and its ancestors. */
    function MkdirAllError(p: Path): Option<Error>
      reads this
    {
      if exists q :: q in Ancestors(p) && q in denied then Some(Os(Permission))
      else if exists q :: q in Ancestors(p) && q in files then Some(Os(IoFailure("not a directory")))
      else None
    }

    /** os.MkdirAll: p and all its ancestors become directories, unless one of them is in the way. */
    method MkdirAll(p: Path) returns (err: Option<Error>)
      modifies this`dirs
      ensures err == old(MkdirAllError(p))
      ensures dirs == if err.Some? then old(dirs) else old(dirs) + Ancestors(p)
    {
      err := MkdirAllError(p);
      if err.None? {
        dirs := dirs + Ancestors(p);
      }
    }
  }
}

/** File-system paths as a list of components, with the path/filepath
    operations the vault uses. Cleaning of ".." components is not modelled;
    "" and "." both denote the relative path with no components. */
module Paths {
  import opened Text

  datatype Path = Path(absolute: bool, parts: seq<string>)

  /** The relative path with no components: "" or ".". */
  const Empty: Path := Path(false, [])

  /** filepath.Join(p, name) for a single file or directory name. */
  function Child(p: Path, name: string): (r: Path)
    ensures Dir(r) == p && Base(r) == name
  {
    Path(p.absolute, p.parts + [name])
  }

  /** filepath.Join(a, b) for a relative b: b's components below a. */
  function Join(a: Path, b: Path): Path
  {
    Path(a.absolute, a.parts + b.parts)
  }

  /** filepath.Dir: everything but the last component; the root and the empty path are their own parent. */
  function Dir(p: Path): (r: Path)
    ensures r == p <==> p.parts == []
    ensures |r.parts| == if p.parts == [] then 0 else |p.parts| - 1
  {
    if p.parts == [] then p else Path(p.absolute, p.parts[..|p.parts| - 1])
  }

  /** filepath.Base: the last component ("/" for the root, "." for the empty path). */
  function Base(p: Path): string
  {
    if p.parts == [] then (if p.absolute then "/" else ".") else p.parts[|p.parts| - 1]
  }

  /** filepath.Abs relative to the working directory wd. */
  function Abs(p: Path, wd: Path): Path
  {
    if p.absolute then p else Join(wd, p)
  }

  /** The components of a slash-separated text, without empty and "." components. */
  function Components(segments: seq<string>): (r: seq<string>)
    ensures forall i :: 0 <= i < |r| ==> r[i] != "" && r[i] != "."
    ensures |r| <= |segments|
  {
    if |segments| == 0 then []
    else if segments[0] == "" || segments[0] == "." then Components(segments[1..])
    else [segments[0]] + Components(segments[1..])
  }

  /** The path a slash-separated string names; filepath.IsAbs decides the first field. */
  function FromString(s: string): Path
  {
    Path(|s| > 0 && s[0] == '/', Components(Split(s, '/')))
  }

  /** p is q, or lies below q. */
  predicate Within(p: Path, q: Path)
  {
    p.absolute == q.absolute && |q.parts| <= |p.parts| && q.parts == p.parts[..|q.parts|]
  }

  /** The directories from p up to the root: p, Dir(p), Dir(Dir(p)), ... */
  function Ancestors(p: Path): (r: set<Path>)
    ensures forall q :: q in r <==> Within(p, q)
    decreases |p.parts|
  {
    if p.parts == [] then {p}
    else
      var up := Dir(p);
      assert forall q :: Within(p, q) && q != p ==> Within(up, q) by {
        forall q | Within(p, q) && q != p ensures Within(up, q) {
          assert |q.parts| < |p.parts|;
        }
      }
      {p} + Ancestors(up)
  }
}

/** The part of the file system the client touches: directories, created by
    `mkdir(parents=True, exist_ok=True)`, and binary files, written whole.
    Paths are `/`-separated strings as `str(Path)` renders them. */
module Files {
  import opened Text

  newtype Byte = b: int | 0 <= b < 256

  datatype FileSystem = FileSystem(dirs: set<string>, files: map<string, seq<Byte>>)

  /** The working directory and the root always exist. */
  predicate DirExists(fs: FileSystem, d: string) {
    d == "." || d == "/" || d in fs.dirs
  }

  /** Index of the last `/` in `p`, or -1 when there is none. */
  function LastSlash(p: string): (k: int)
    ensures -1 <= k < |p|
    ensures k >= 0 ==> p[k] == '/'
    ensures forall j :: k < j < |p| ==> p[j] != '/'
    decreases |p|
  {
    if |p| == 0 then -1
    else if p[|p| - 1] == '/' then |p| - 1
    else LastSlash(p[..|p| - 1])
  }

  /** `Path(p).parent`: everything before the last `/`; `.` for a bare name. */
  function Parent(p: string): string {
    var k := LastSlash(p);
    if k < 0 then "." else if k == 0 then "/" else p[..k]
  }

  /** `Path(dir) / name` for a name that is not absolute. */
  function JoinPath(dir: string, name: string): string {
    if dir == "." || dir == "" then name else dir + "/" + name
  }

  /** The directories `mkdir(parents=True)` needs for `d`: `d` itself and
      every proper prefix of it that ends just before a `/`. */
  function Ancestors(d: string): (r: set<string>)
    ensures d in r
    ensures forall x :: x in r ==> |x| <= |d|
  {
    {d} + set i | 0 < i < |d| && d[i] == '/' :: d[..i]
  }

  /** `Path(d).mkdir(parents=True, exist_ok=True)`. */
  function MakeDirs(fs: FileSystem, d: string): (r: FileSystem)
    ensures DirExists(r, d)
    ensures forall a :: a in Ancestors(d) ==> DirExists(r, a)
    ensures fs.dirs <= r.dirs && r.files == fs.files
    ensures forall x :: x in r.dirs && x !in fs.dirs ==> |x| <= |d|
  {
    fs.(dirs := fs.dirs + Ancestors(d))
  }

  /** Opening `p` for writing succeeds exactly when its directory exists. */
  predicate CanWrite(fs: FileSystem, p: string) {
    DirExists(fs, Parent(p))
  }

  /** The bytes stored at `p`, if any. */
  function Read(fs: FileSystem, p: string): Option<seq<Byte>> {
    if p in fs.files then Some(fs.files[p]) else None
  }

  /** Writing `data` to `p` in mode "wb": creates or truncates the file. */
  function Write(fs: FileSystem, p: string, data: seq<Byte>): (r: FileSystem)
    requires CanWrite(fs, p)
    ensures r.dirs == fs.dirs
    ensures r.files.Keys == fs.files.Keys + {p}
  {
    fs.(files := fs.files[p := data])
  }

  /** A write is read back exactly and leaves every other path as it was. */
  lemma ReadAfterWrite(fs: FileSystem, p: string, data: seq<Byte>, q: string)
    requires CanWrite(fs, p)
    ensures Read(Write(fs, p, data), q) == if q == p then Some(data) else Read(fs, q)
  {
  }

  /** The position of the last `/` is fixed by where the slashes are. */
  lemma LastSlashAt(p: string, k: int)
    requires 0 <= k < |p| && p[k] == '/'
    requires forall j :: k < j < |p| ==> p[j] != '/'
    ensures LastSlash(p) == k
  {
  }

  /** A parent is never the empty string. */
  lemma ParentNonEmpty(p: string)
    ensures Parent(p) != ""
  {
  }

  /** A name without `/` joined onto a directory lands directly in that directory. */
  lemma ParentOfJoin(dir: string, name: string)
    requires '/' !in name
    requires dir != ""
    ensures Parent(JoinPath(dir, name)) == dir
  {
    if dir != "." {
      var p := dir + "/" + name;
      forall j | |dir| < j < |p|
        ensures p[j] != '/'
      {
        assert p[j] == name[j - |dir| - 1];
      }
      LastSlashAt(p, |dir|);
      assert p[..|dir|] == dir;
    } else {
      assert forall j :: 0 <= j < |name| ==> name[j] != '/';
    }
  }

  /** A name holding a `/` joined onto a non-empty directory lands in a
      directory strictly longer than the one it was joined onto. */
  lemma ParentOfNestedJoin(dir: string, name: string)
    requires '/' in name
    requires dir != "" && dir != "."
    ensures |Parent(JoinPath(dir, name))| > |dir|
    ensures Parent(JoinPath(dir, name)) != "." && Parent(JoinPath(dir, name)) != "/"
  {
    var p := dir + "/" + name;
    var i :| 0 <= i < |name| && name[i] == '/';
    assert p[|dir| + 1 + i] == '/';
    var k := LastSlash(p);
    assert k >= |dir| + 1 + i;
    assert Parent(p) == p[..k];
  }
}

/** The part of the local filesystem the thumbnail cache touches: a set of
    directory paths and a map from file path to contents. Paths are plain
    strings; no normalisation is applied. */
module FileStore {
  import opened Records

  type Path = string
  type Bytes = seq<bv8>

  /** `os.path.join(dir, name)` for a name that is not absolute. */
  function Join(dir: Path, name: Path): (p: Path)
    ensures |p| >= |dir| + |name|
    ensures p[..|dir|] == dir
  {
    if dir == "" || dir[|dir| - 1] == '/' then dir + name else dir + "/" + name
  }

  /** The text of `p` before its last '/', or "" when it has none; "" stands
      for the working directory (or the root), which always exists. */
  function ParentOf(p: Path): Path
  {
    if p == "" then ""
    else if p[|p| - 1] == '/' then p[..|p| - 1]
    else ParentOf(p[..|p| - 1])
  }

  /** A snapshot of the filesystem. */
  datatype Disk = Disk(dirs: set<Path>, files: map<Path, Bytes>) {

    /** No path is both a directory and a file. */
    ghost predicate Valid()
    {
      dirs !! files.Keys
    }

    /** `os.path.exists(p)` */
    predicate Exists(p: Path)
    {
      p in dirs || p in files
    }

    /** `os.path.isdir(p)` */
    predicate IsDir(p: Path)
    {
      p in dirs
    }

    /** `os.mkdir(p)`: adds exactly one directory, or raises and changes nothing. */
    function Mkdir(p: Path): (r: Result<Disk>)
      requires Valid()
      ensures r.Ok? <==> p != "" && !Exists(p) && (ParentOf(p) == "" || ParentOf(p) in dirs)
      ensures r.Ok? ==> r.value.Valid() && r.value == Disk(dirs + {p}, files)
    {
      if p == "" then Err(FileNotFound(p))
      else if Exists(p) then Err(FileExists(p))
      else
        var parent := ParentOf(p);
        if parent == "" || parent in dirs then Ok(Disk(dirs + {p}, files))
        else if parent in files then Err(NotADirectory(p))
        else Err(FileNotFound(p))
    }

    /** `open(p, 'wb')` followed by writing `data`. Only ever reached for a
        path that does not exist inside a directory that does, where open
        cannot fail. */
    function Write(p: Path, data: Bytes): (d: Disk)
      requires Valid() && !IsDir(p)
      ensures d.Valid() && d.dirs == dirs && d.files == files[p := data]
    {
      Disk(dirs, files[p := data])
    }
  }

  /** `later` keeps every directory of `earlier` and every file of `earlier`
      with the same contents: nothing is deleted or overwritten. */
  ghost predicate Grows(earlier: Disk, later: Disk)
  {
    && earlier.dirs <= later.dirs
    && forall p :: p in earlier.files ==> p in later.files && later.files[p] == earlier.files[p]
  }

  /** The filesystem as mutable state. */
  class FileSystem {
    var dirs: set<Path>
    var files: map<Path, Bytes>

    function Current(): Disk
      reads this
    {
      Disk(dirs, files)
    }

    ghost predicate Valid()
      reads this
    {
      Current().Valid()
    }

    constructor (d: Disk)
      requires d.Valid()
      ensures Valid() && Current() == d
    {
      dirs := d.dirs;
      files := d.files;
    }

    /** `os.mkdir(p)` */
    method Mkdir(p: Path) returns (r: Outcome)
      requires Valid()
      modifies this
      ensures Valid()
      ensures old(Current()).Mkdir(p).Ok? ==> r == Done && Current() == old(Current()).Mkdir(p).value
      ensures old(Current()).Mkdir(p).Err? ==> r == Raised(old(Current()).Mkdir(p).error) && Current() == old(Current())
    {
      var made := Current().Mkdir(p);
      if made.Err? {
        return Raised(made.error);
      }
      dirs := made.value.dirs;
      return Done;
    }

    /** `with open(p, 'wb') as f: f.write(data)` */
    method WriteFile(p: Path, data: Bytes)
      requires Valid() && !Current().IsDir(p)
      modifies this
      ensures Valid() && Current() == old(Current()).Write(p, data)
    {
      files := files[p := data];
    }
  }
}

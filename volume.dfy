/**
 * One synchronised root as the file-system operations of sync.py see it:
 * its regular files (content and modification time) and its directories,
 * each by relative path. `os.path.exists`, `os.makedirs(..., exist_ok=True)`
 * and `shutil.copy2` become the operations below.
 */
module Volume {
  import opened Paths
  import opened Walk

  /** A regular file: its bytes, kept as text, and its modification time in whole units. */
  datatype FileData = FileData(content: string, mtime: int)

  /** The contents of a root: files and directories below it, by relative path. */
  datatype Fs = Fs(files: map<Path, FileData>, dirs: set<Path>)

  /** `os.path.exists`: a file or a directory is found at `p`. */
  predicate Exists(fs: Fs, p: Path) {
    p in fs.files || p in fs.dirs
  }

  /** Every directory that contains `p` is present. */
  predicate WellPlaced(p: Path, dirs: set<Path>) {
    |p| > 0 && forall k | 0 < k < |p| :: p[..k] in dirs
  }

  /** A tree of files and directories: nothing is both, and every containing directory exists. */
  predicate ValidFs(fs: Fs) {
    && (forall p | p in fs.files :: p !in fs.dirs && WellPlaced(p, fs.dirs))
    && (forall d | d in fs.dirs :: WellPlaced(d, fs.dirs))
  }

  /** The root holds exactly the files and directories of the listing `t`. */
  ghost predicate Lists(fs: Fs, t: Tree) {
    && (forall p :: p in fs.files <==> IsFile(t, p))
    && (forall p :: p in fs.dirs <==> IsDir(t, p))
  }

  /** Some directory that would contain `p` is a regular file, so `os.makedirs` of its parent fails. */
  predicate ParentBlocked(fs: Fs, p: Path) {
    exists a | a in Ancestors(p) :: a in fs.files
  }

  /** The effect of `os.makedirs(dirname(p), exist_ok=True)` when it succeeds. */
  function MakeParents(fs: Fs, p: Path): (r: Fs)
    ensures r.files == fs.files
    ensures r.dirs == fs.dirs + Ancestors(p)
    ensures !ParentBlocked(fs, p) && |p| > 0 ==> forall k | 0 < k < |p| :: p[..k] in r.dirs && p[..k] !in r.files
  {
    Fs(fs.files, fs.dirs + Ancestors(p))
  }

  /** The effect of `shutil.copy2` onto the file path `p`: content and modification time arrive together. */
  function CopyTo(fs: Fs, p: Path, data: FileData): (r: Fs)
    ensures r.dirs == fs.dirs
    ensures r.files.Keys == fs.files.Keys + {p} && r.files[p] == data
    ensures forall q | q in fs.files && q != p :: r.files[q] == fs.files[q]
  {
    Fs(fs.files[p := data], fs.dirs)
  }

  /** Copying a file that does not exist yet, after making its parents, keeps the root a tree. */
  lemma CopyNewKeepsValid(fs: Fs, p: Path, data: FileData)
    requires ValidFs(fs) && |p| > 0 && !Exists(fs, p) && !ParentBlocked(fs, p)
    ensures ValidFs(CopyTo(MakeParents(fs, p), p, data))
  {
    var r := CopyTo(MakeParents(fs, p), p, data);
    forall d | d in Ancestors(p) ensures WellPlaced(d, r.dirs) && d !in r.files {
      forall k | 0 < k < |d| ensures d[..k] in r.dirs {
        assert d[..k] == p[..k];
      }
    }
    forall q | q in r.files ensures q !in r.dirs && WellPlaced(q, r.dirs) {
      if q != p {
        assert q in fs.files;
      }
    }
  }

  /** Overwriting an existing file keeps the root a tree. */
  lemma CopyOverKeepsValid(fs: Fs, p: Path, data: FileData)
    requires ValidFs(fs) && p in fs.files
    ensures ValidFs(CopyTo(fs, p, data))
  {
    assert CopyTo(fs, p, data).files.Keys == fs.files.Keys;
  }

  /** In a tree, no file lies inside another file. */
  lemma FilesNotNested(fs: Fs, p: Path, q: Path)
    requires ValidFs(fs) && p in fs.files && q in fs.files
    ensures p !in Ancestors(q)
  {
    assert forall a | a in Ancestors(q) :: a in fs.dirs;
  }

  /** `open(p, "w")` can create or truncate the file at `p`: its directories exist and `p` is not one. */
  predicate CanWrite(fs: Fs, p: Path) {
    WellPlaced(p, fs.dirs) && p !in fs.dirs
  }

  /** The effect of `os.makedirs(d)`: the directory and every directory containing it. */
  function AddDir(fs: Fs, d: Path): (r: Fs)
    ensures r.files == fs.files && r.dirs == fs.dirs + Ancestors(d) + {d}
  {
    Fs(fs.files, fs.dirs + Ancestors(d) + {d})
  }

  /** `os.makedirs(d)` where no file stands in the way keeps the root a tree. */
  lemma AddDirKeepsValid(fs: Fs, d: Path)
    requires ValidFs(fs) && |d| > 0 && d !in fs.files && !ParentBlocked(fs, d)
    ensures ValidFs(AddDir(fs, d))
  {
    var r := AddDir(fs, d);
    forall e | e in Ancestors(d) + {d} ensures WellPlaced(e, r.dirs) && e !in r.files {
      forall k | 0 < k < |e| ensures e[..k] in r.dirs {
        assert e[..k] == d[..k];
      }
    }
  }

  /** Writing a file where `open(p, "w")` can keep the root a tree. */
  lemma WriteKeepsValid(fs: Fs, p: Path, data: FileData)
    requires ValidFs(fs) && CanWrite(fs, p)
    ensures ValidFs(CopyTo(fs, p, data))
  {
  }

  /** Where `shutil.copy2(source, p)` writes: into the directory `p`, under the source's name, when `p` is one. */
  function CopyDest(fs: Fs, p: Path, name: string): (r: Path)
    ensures p in fs.dirs ==> r == p + [name]
    ensures p !in fs.dirs ==> r == p
  {
    if p in fs.dirs then p + [name] else p
  }

  /** A root, whose contents the synchroniser reads and changes in place. */
  class Folder {
    var files: map<Path, FileData>
    var dirs: set<Path>

    /** The contents as a value. */
    function State(): Fs
      reads this
    {
      Fs(files, dirs)
    }

    constructor (fs: Fs)
      ensures State() == fs
    {
      files := fs.files;
      dirs := fs.dirs;
    }

    /** `os.path.exists` below this root. */
    predicate PathExists(p: Path)
      reads this
    {
      Exists(State(), p)
    }

    /**
     * `os.makedirs(dirname(p), exist_ok=True)`: create every directory that
     * contains `p`; fails, changing nothing, when one of them is a file.
     */
    method MakeDirs(p: Path) returns (ok: bool)
      modifies this
      ensures ok == !ParentBlocked(old(State()), p)
      ensures State() == if ok then MakeParents(old(State()), p) else old(State())
    {
      ok := !exists k | 0 < k < |p| :: p[..k] in files;
      if ok {
        dirs := dirs + Ancestors(p);
      }
    }

    /** `os.makedirs(d)`: fails, changing nothing, when `d` exists or a file stands in its way. */
    method MakeDir(d: Path) returns (ok: bool)
      modifies this
      ensures ok == (!Exists(old(State()), d) && !ParentBlocked(old(State()), d))
      ensures State() == if ok then AddDir(old(State()), d) else old(State())
    {
      ok := d !in files && d !in dirs && !exists k | 0 < k < |d| :: d[..k] in files;
      if ok {
        dirs := dirs + Ancestors(d) + {d};
      }
    }

    /** `open(p, "w")` and writing `data`: fails, changing nothing, when the file cannot be opened. */
    method WriteFile(p: Path, data: FileData) returns (ok: bool)
      modifies this
      ensures ok == CanWrite(old(State()), p)
      ensures State() == if ok then CopyTo(old(State()), p, data) else old(State())
    {
      ok := |p| > 0 && (forall k | 0 < k < |p| :: p[..k] in dirs) && p !in dirs;
      if ok {
        files := files[p := data];
      }
    }

    /**
     * `shutil.copy2(source, p)` where the source is named `name`: the file
     * lands in `p`, or in `p + [name]` when `p` is a directory; fails,
     * changing nothing, when that destination cannot be written.
     */
    method CopyInto(p: Path, name: string, data: FileData) returns (ok: bool)
      modifies this
      ensures ok == CanWrite(old(State()), CopyDest(old(State()), p, name))
      ensures State() == if ok then CopyTo(old(State()), CopyDest(old(State()), p, name), data) else old(State())
    {
      var dest := if p in dirs then p + [name] else p;
      ok := |dest| > 0 && (forall k | 0 < k < |dest| :: dest[..k] in dirs) && dest !in dirs;
      if ok {
        files := files[dest := data];
      }
    }

    /**
     * `shutil.copy2(source, p)` onto a file path that `open(p, "w")` could
     * create or truncate: the file at `p` takes the source's content and
     * modification time.
     */
    method Copy2(p: Path, data: FileData)
      requires CanWrite(State(), p)
      modifies this
      ensures State() == CopyTo(old(State()), p, data)
    {
      files := files[p := data];
    }
  }
}

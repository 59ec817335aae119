/**
 * The ignore rules of `walk_folder` (sync.py:24-50), lifted out of the walk
 * as predicates on relative paths.
 */
module Filter {
  import opened Wrappers
  import opened Paths

  /** The ignore configuration of one run, after `None` lists became empty. */
  datatype Options = Options(ignoreFiles: seq<string>, ignoreExtensions: seq<string>, ignoreHidden: bool)

  /** `ignore_files or []`: a missing list (and an empty one) means no entries. */
  function OrEmpty(l: Option<seq<string>>): (r: seq<string>)
    ensures l.None? ==> r == []
    ensures l.Some? ==> r == l.value
  {
    match l
    case None => []
    case Some(entries) => entries
  }

  /** The name of the entry itself starts with the hidden marker. */
  predicate Hidden(name: string) {
    StartsWith(name, ".")
  }

  /**
   * One `ignore_files` entry prunes the directory whose relative path is
   * `rel` when the two are equal, or when `rel` starts with
   * `os.path.join(ign, "")`, i.e. the entry followed by a separator unless it
   * is empty or already ends with one.
   */
  predicate DirIgnoredBy(rel: string, ign: string) {
    rel == ign || StartsWith(rel, PathJoin(ign, ""))
  }

  /** Some `ignore_files` entry prunes the directory. */
  predicate DirIgnored(rel: string, ignoreFiles: seq<string>) {
    exists i | 0 <= i < |ignoreFiles| :: DirIgnoredBy(rel, ignoreFiles[i])
  }

  /** Some `ignore_extensions` entry is a suffix of the file's relative path. */
  predicate ExtensionIgnored(rel: string, ignoreExtensions: seq<string>) {
    exists i | 0 <= i < |ignoreExtensions| :: EndsWith(rel, ignoreExtensions[i])
  }

  /** The walk descends into the directory at `p` (sync.py:32-38). */
  predicate KeepDir(p: Path, opts: Options)
    requires |p| > 0
  {
    && !(opts.ignoreHidden && Hidden(p[|p| - 1]))
    && !DirIgnored(Join(p), opts.ignoreFiles)
  }

  /** The walk reports the file at `p` (sync.py:41-50). */
  predicate KeepFile(p: Path, opts: Options)
    requires |p| > 0
  {
    && !(opts.ignoreHidden && Hidden(p[|p| - 1]))
    && Join(p) !in opts.ignoreFiles
    && !ExtensionIgnored(Join(p), opts.ignoreExtensions)
  }

  /** A file is visible when it is kept and every directory above it is descended into. */
  predicate Visible(p: Path, opts: Options) {
    |p| > 0 && KeepFile(p, opts) && forall k | 0 < k < |p| :: KeepDir(p[..k], opts)
  }

  /**
   * The `".sync_logs/"` entry that the command line appends never prunes the
   * `.sync_logs` directory: `os.path.join(".sync_logs/", "")` keeps the
   * trailing separator, which the directory's own path lacks. Whether the
   * log directory is walked is decided by the hidden rule and the other
   * entries alone.
   */
  lemma {:induction false} LogEntryDoesNotPruneLogDir(extra: seq<string>, opts: Options)
    requires opts.ignoreFiles == extra + [".sync_logs/"]
    ensures KeepDir([".sync_logs"], opts) <==> !opts.ignoreHidden && !DirIgnored(".sync_logs", extra)
  {
    var rel := ".sync_logs";
    assert Join([rel]) == rel;
    assert Hidden(rel) by { assert rel[..1] == "."; }
    assert PathJoin(".sync_logs/", "") == ".sync_logs/";
    assert !StartsWith(rel, ".sync_logs/");
    assert !DirIgnoredBy(rel, ".sync_logs/");
    forall i | 0 <= i < |opts.ignoreFiles|
      ensures DirIgnoredBy(rel, opts.ignoreFiles[i]) <==> i < |extra| && DirIgnoredBy(rel, extra[i])
    {
    }
  }

  /** An empty `ignore_files` entry prunes every directory: `os.path.join("", "")` is "". */
  lemma EmptyEntryPrunesEveryDir(p: Path, opts: Options)
    requires |p| > 0 && "" in opts.ignoreFiles
    ensures !KeepDir(p, opts)
  {
    var i :| 0 <= i < |opts.ignoreFiles| && opts.ignoreFiles[i] == "";
    assert DirIgnoredBy(Join(p), opts.ignoreFiles[i]);
  }
}

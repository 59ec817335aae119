/**
 * `sync_folders` (sync.py:57-149): walk both roots, copy from A to B, then
 * from B to A, and leave the same run log under `.sync_logs` on both roots.
 *
 * The walks see each root as the tree `os.walk` lists, and the file
 * operations act on the roots' contents; the timestamp of the log file
 * name, the elapsed-time text and the log file's modification time are
 * parameters.
 */
module Driver {
  import opened Wrappers
  import opened Paths
  import opened Filter
  import opened Walk
  import opened Volume
  import opened Reconcile
  import opened SyncLog

  /** The log directory, relative to each root. */
  const LogDir: Path := [".sync_logs"]

  /** `log_filename`: the timestamp followed by "_sync.log". */
  function LogName(stamp: string): string {
    stamp + "_sync.log"
  }

  /** The log file, relative to each root. */
  function LogPath(stamp: string): Path {
    LogDir + [LogName(stamp)]
  }

  /** The ignore configuration the walks use: `None` lists become empty (sync.py:24-25). */
  function OptionsOf(cfg: Config): (opts: Options)
    ensures opts.ignoreFiles == OrEmpty(cfg.ignoreFiles)
    ensures opts.ignoreExtensions == OrEmpty(cfg.ignoreExtensions)
    ensures opts.ignoreHidden == cfg.ignoreHidden
  {
    Options(OrEmpty(cfg.ignoreFiles), OrEmpty(cfg.ignoreExtensions), cfg.ignoreHidden)
  }

  /** Why a run stopped: an exception the source does not catch. */
  datatype Failure =
    | CopyBlocked(path: Path)   // os.makedirs met a file where a parent directory must go
    | LogNotWritten             // the log file on A could not be opened for writing
    | LogNotCopied              // the copy of the log onto B could not be written

  /** How a run ended: with the decisions of both passes and the log text, or with an exception. */
  datatype Outcome = Completed(ab: seq<Decision>, ba: seq<Decision>, log: string) | Raised(failure: Failure)

  /** The outcome and both roots afterwards. */
  datatype Result = Result(outcome: Outcome, a: Fs, b: Fs)

  /** The contents of a root, the listing `os.walk` sees of it, and the two agree. */
  ghost predicate Snapshot(fs: Fs, t: Tree) {
    ValidFs(fs) && WellFormed(t) && Lists(fs, t)
  }

  /** `if not os.path.exists(...): os.makedirs(...)` for the log directory. */
  function EnsureLogDir(fs: Fs): (r: Fs)
    ensures r.files == fs.files && fs.dirs <= r.dirs
    ensures Exists(r, LogDir)
  {
    if Exists(fs, LogDir) then fs else AddDir(fs, LogDir)
  }

  /** The lists the walks return: files of the root, non-empty paths, none repeated, none inside another. */
  predicate Listed(fs: Fs, l: seq<Path>) {
    (forall p | p in l :: p in fs.files && |p| > 0) && NoDup(l) && Unnested(l)
  }

  /** The facts about a walk the passes rely on. */
  lemma WalkFacts(fs: Fs, t: Tree, opts: Options)
    requires Snapshot(fs, t)
    ensures Listed(fs, Walk.Walk(t, opts))
  {
    var l := Walk.Walk(t, opts);
    forall p | p in l ensures p in fs.files && |p| > 0 {
      WalkExact(t, opts, p);
    }
    WalkNoDup([], t, RulesOf(opts));
    forall p, q | p in l && q in l ensures p !in Ancestors(q) {
      FilesNotNested(fs, p, q);
    }
  }

  /** `ignore_files or []` and `ignore_extensions or []`: leaving a list out walks exactly as giving it empty. */
  lemma NoneListsAsEmpty(cfg: Config, t: Tree)
    ensures Walk.Walk(t, OptionsOf(cfg.(ignoreFiles := None))) == Walk.Walk(t, OptionsOf(cfg.(ignoreFiles := Some([]))))
    ensures Walk.Walk(t, OptionsOf(cfg.(ignoreExtensions := None))) == Walk.Walk(t, OptionsOf(cfg.(ignoreExtensions := Some([]))))
  {
  }

  /**
   * With both ignore lists left out, the walk of a root reports exactly its
   * files, less those with a hidden component when hidden entries are ignored.
   */
  lemma NothingIgnored(cfg: Config, t: Tree, p: Path)
    requires cfg.ignoreFiles.None? && cfg.ignoreExtensions.None?
    ensures p in Walk.Walk(t, OptionsOf(cfg)) <==> IsFile(t, p) && (cfg.ignoreHidden ==> forall i | 0 <= i < |p| :: !Hidden(p[i]))
  {
    var opts := OptionsOf(cfg);
    WalkExact(t, opts, p);
    if IsFile(t, p) {
      if cfg.ignoreHidden && forall i | 0 <= i < |p| :: !Hidden(p[i]) {
        forall k | 0 < k < |p| ensures KeepDir(p[..k], opts) {
          assert p[..k][k - 1] == p[k - 1];
        }
      }
      if Visible(p, opts) {
        forall i | 0 <= i < |p| ensures !(cfg.ignoreHidden && Hidden(p[i])) {
          if i < |p| - 1 {
            assert KeepDir(p[..i + 1], opts) && p[..i + 1][i] == p[i];
          }
        }
      }
    }
  }

  /** Where the two passes leave things: their decisions, the first blocked path, and both roots. */
  datatype Transfer = Transfer(ab: seq<Decision>, ba: seq<Decision>, blocked: Option<Path>, a: Fs, b: Fs)

  /**
   * The two calls of `loop_files` (sync.py:112-113) over the lists taken
   * beforehand: A to B, then, unless a copy was blocked, B to A.
   */
  function Passes(fsA: Fs, fsB: Fs, listA: seq<Path>, listB: seq<Path>, mostRecent: bool): Transfer
    requires Listed(fsA, listA) && Listed(fsB, listB)
  {
    var r1 := Pass(fsA.files, fsB, listA, mostRecent);
    if r1.blocked.Some? then Transfer(r1.synced, [], r1.blocked, fsA, r1.target)
    else
      PassGrows(fsA.files, fsB, listA, mostRecent);
      var r2 := Pass(r1.target.files, fsA, listB, mostRecent);
      Transfer(r1.synced, r2.synced, r2.blocked, r2.target, r1.target)
  }

  /**
   * The end of the run (sync.py:118-145): `.sync_logs` on both roots where
   * it is missing, the log written on A, then copied to B.
   */
  function Finish(a: Fs, b: Fs, ab: seq<Decision>, ba: seq<Decision>, text: string, stamp: string, now: int): Result {
    var a1 := EnsureLogDir(a);
    var b1 := EnsureLogDir(b);
    var data := FileData(text, now);
    if !CanWrite(a1, LogPath(stamp)) then Result(Raised(LogNotWritten), a1, b1)
    else
      var a2 := CopyTo(a1, LogPath(stamp), data);
      var dest := CopyDest(b1, LogPath(stamp), LogName(stamp));
      if !CanWrite(b1, dest) then Result(Raised(LogNotCopied), a2, b1)
      else Result(Completed(ab, ba, text), a2, CopyTo(b1, dest, data))
  }

  /**
   * A run of `sync_folders` once both roots are walked: `listA` and `listB`
   * are what `walk_folder` returned for A and for B.
   */
  function Sync(cfg: Config, fsA: Fs, fsB: Fs, listA: seq<Path>, listB: seq<Path>, stamp: string, elapsed: string, now: int): Result
    requires Listed(fsA, listA) && Listed(fsB, listB)
  {
    var t := Passes(fsA, fsB, listA, listB, cfg.mostRecent);
    if t.blocked.Some? then Result(Raised(CopyBlocked(t.blocked.value)), t.a, t.b)
    else Finish(t.a, t.b, t.ab, t.ba, LogText(cfg, |listA| + |listB|, t.ab, |t.ba|, elapsed), stamp, now)
  }

  /**
   * `sync_folders(folderA, folderB, ...)`: both file lists are taken before
   * anything is copied; A to B runs first, then B to A; then the log is
   * written on A and copied to B.
   */
  method SyncFolders(cfg: Config, a: Folder, b: Folder, treeA: Tree, treeB: Tree, stamp: string, elapsed: string, now: int)
    returns (outcome: Outcome)
    requires a != b
    requires Snapshot(a.State(), treeA) && Snapshot(b.State(), treeB)
    modifies a, b
    ensures Listed(old(a.State()), Walk.Walk(treeA, OptionsOf(cfg)))
    ensures Listed(old(b.State()), Walk.Walk(treeB, OptionsOf(cfg)))
    ensures Sync(cfg, old(a.State()), old(b.State()), Walk.Walk(treeA, OptionsOf(cfg)), Walk.Walk(treeB, OptionsOf(cfg)), stamp, elapsed, now)
              == Result(outcome, a.State(), b.State())
  {
    var opts := OptionsOf(cfg);
    var listA := WalkFolder(treeA, opts);
    var listB := WalkFolder(treeB, opts);
    WalkFacts(a.State(), treeA, opts);
    WalkFacts(b.State(), treeB, opts);
    ghost var fsA, fsB := a.State(), b.State();
    var ab, ba, blocked := RunPasses(listA, listB, a, b, cfg.mostRecent);
    SyncSteps(cfg, fsA, fsB, listA, listB, stamp, elapsed, now);
    if blocked.Some? {
      return Raised(CopyBlocked(blocked.value));
    }
    var text := WriteLog(cfg, |listA| + |listB|, ab, |ba|, elapsed);
    outcome := LeaveLog(a, b, ab, ba, text, stamp, now);
  }

  /**
   * A run stops with the first blocked copy, leaving the roots as the passes
   * left them; otherwise it ends as `Finish` on the passes' results and the
   * log text.
   */
  lemma SyncSteps(cfg: Config, fsA: Fs, fsB: Fs, listA: seq<Path>, listB: seq<Path>, stamp: string, elapsed: string, now: int)
    requires Listed(fsA, listA) && Listed(fsB, listB)
    ensures var t := Passes(fsA, fsB, listA, listB, cfg.mostRecent);
      t.blocked.Some? ==>
        Sync(cfg, fsA, fsB, listA, listB, stamp, elapsed, now) == Result(Raised(CopyBlocked(t.blocked.value)), t.a, t.b)
    ensures var t := Passes(fsA, fsB, listA, listB, cfg.mostRecent);
      t.blocked.None? ==>
        Sync(cfg, fsA, fsB, listA, listB, stamp, elapsed, now)
          == Finish(t.a, t.b, t.ab, t.ba, LogText(cfg, |listA| + |listB|, t.ab, |t.ba|, elapsed), stamp, now)
  {
  }

  /** The two calls of `loop_files`, in place: A to B, then, unless a copy was blocked, B to A. */
  method RunPasses(listA: seq<Path>, listB: seq<Path>, a: Folder, b: Folder, mostRecent: bool)
    returns (ab: seq<Decision>, ba: seq<Decision>, blocked: Option<Path>)
    requires a != b
    requires Listed(a.State(), listA) && Listed(b.State(), listB)
    requires ValidFs(a.State()) && ValidFs(b.State())
    modifies a, b
    ensures Passes(old(a.State()), old(b.State()), listA, listB, mostRecent) == Transfer(ab, ba, blocked, a.State(), b.State())
  {
    ghost var fsB := b.State();
    ab, blocked := LoopFiles(listA, a, b, mostRecent);
    if blocked.Some? {
      return ab, [], blocked;
    }
    PassGrows(a.files, fsB, listA, mostRecent);
    ba, blocked := LoopFiles(listB, b, a, mostRecent);
  }

  /** The end of `sync_folders`, in place: the log directories, the log on A, its copy on B. */
  method LeaveLog(a: Folder, b: Folder, ab: seq<Decision>, ba: seq<Decision>, text: string, stamp: string, now: int)
    returns (outcome: Outcome)
    requires a != b
    modifies a, b
    ensures Finish(old(a.State()), old(b.State()), ab, ba, text, stamp, now) == Result(outcome, a.State(), b.State())
  {
    if !a.PathExists(LogDir) {
      var made := a.MakeDir(LogDir);
    }
    if !b.PathExists(LogDir) {
      var made := b.MakeDir(LogDir);
    }
    var wrote := a.WriteFile(LogPath(stamp), FileData(text, now));
    if !wrote {
      return Raised(LogNotWritten);
    }
    var copied := b.CopyInto(LogPath(stamp), LogName(stamp), a.files[LogPath(stamp)]);
    if !copied {
      return Raised(LogNotCopied);
    }
    outcome := Completed(ab, ba, text);
  }

  // ---------------------------------------------------------------------
  // The two passes and the end of the run.
  // ---------------------------------------------------------------------

  /** The passes' decisions as `Pass` makes them; when neither is blocked, both roots have only grown. */
  lemma PassesFacts(fsA: Fs, fsB: Fs, listA: seq<Path>, listB: seq<Path>, mostRecent: bool)
    requires Listed(fsA, listA) && Listed(fsB, listB)
    ensures var t := Passes(fsA, fsB, listA, listB, mostRecent);
      var r1 := Pass(fsA.files, fsB, listA, mostRecent);
      && t.ab == r1.synced
      && (t.blocked.None? ==>
            && r1.blocked.None?
            && fsB.files.Keys <= r1.target.files.Keys && fsB.dirs <= r1.target.dirs
            && Pass(r1.target.files, fsA, listB, mostRecent) == Run(t.ba, t.a, None)
            && t.b == r1.target)
  {
    var r1 := Pass(fsA.files, fsB, listA, mostRecent);
    if r1.blocked.None? {
      PassGrows(fsA.files, fsB, listA, mostRecent);
    }
  }

  /**
   * No file is copied in both directions: a file copied from A to B now
   * carries A's time on B, so the B to A pass, which compares against A,
   * finds nothing newer.
   */
  lemma PassesNoPingPong(fsA: Fs, fsB: Fs, listA: seq<Path>, listB: seq<Path>, mostRecent: bool)
    requires Listed(fsA, listA) && Listed(fsB, listB)
    ensures var t := Passes(fsA, fsB, listA, listB, mostRecent);
      t.blocked.None? ==> forall p | p in PathsOf(t.ab) :: p !in PathsOf(t.ba)
  {
    var t := Passes(fsA, fsB, listA, listB, mostRecent);
    PassesFacts(fsA, fsB, listA, listB, mostRecent);
    if t.blocked.None? {
      var r1 := Pass(fsA.files, fsB, listA, mostRecent);
      PassOrder(fsA.files, fsB, listA, mostRecent);
      PassOrder(r1.target.files, fsA, listB, mostRecent);
      forall p | p in PathsOf(t.ab) && p in listB ensures p !in PathsOf(t.ba) {
        PassOutcome(fsA.files, fsB, listA, mostRecent, p);
        PassOutcome(r1.target.files, fsA, listB, mostRecent, p);
      }
    }
  }

  /** After both passes every listed file of each side exists on the other. */
  lemma PassesSettle(fsA: Fs, fsB: Fs, listA: seq<Path>, listB: seq<Path>, mostRecent: bool)
    requires Listed(fsA, listA) && Listed(fsB, listB)
    ensures var t := Passes(fsA, fsB, listA, listB, mostRecent);
      t.blocked.None? ==> (forall p | p in listA :: Exists(t.b, p)) && (forall p | p in listB :: Exists(t.a, p))
  {
    var t := Passes(fsA, fsB, listA, listB, mostRecent);
    PassesFacts(fsA, fsB, listA, listB, mostRecent);
    if t.blocked.None? {
      var r1 := Pass(fsA.files, fsB, listA, mostRecent);
      PassSettles(fsA.files, fsB, listA, mostRecent);
      PassSettles(r1.target.files, fsA, listB, mostRecent);
      forall p | p in listA ensures Exists(t.b, p) {
        assert Judge(fsA.files, r1.target, p, mostRecent) == Keep;
      }
      forall p | p in listB ensures Exists(t.a, p) {
        assert Judge(r1.target.files, t.a, p, mostRecent) == Keep;
      }
    }
  }

  /** Missing files are copied as new, both ways; only listed files are copied. */
  lemma PassesCopyMissing(fsA: Fs, fsB: Fs, listA: seq<Path>, listB: seq<Path>, mostRecent: bool)
    requires Listed(fsA, listA) && Listed(fsB, listB)
    ensures var t := Passes(fsA, fsB, listA, listB, mostRecent);
      t.blocked.None? ==>
        && (forall p | p in listA && !Exists(fsB, p) :: Decision(p, New) in t.ab)
        && (forall p | p in listB && !Exists(fsA, p) :: Decision(p, New) in t.ba)
        && (forall p | p in PathsOf(t.ab) :: p in listA)
        && (forall p | p in PathsOf(t.ba) :: p in listB)
  {
    var t := Passes(fsA, fsB, listA, listB, mostRecent);
    PassesFacts(fsA, fsB, listA, listB, mostRecent);
    if t.blocked.None? {
      var r1 := Pass(fsA.files, fsB, listA, mostRecent);
      PassOrder(fsA.files, fsB, listA, mostRecent);
      PassOrder(r1.target.files, fsA, listB, mostRecent);
      forall p | p in listA && !Exists(fsB, p) ensures Decision(p, New) in t.ab {
        PassOutcome(fsA.files, fsB, listA, mostRecent, p);
      }
      forall p | p in listB && !Exists(fsA, p) ensures Decision(p, New) in t.ba {
        PassOutcome(r1.target.files, fsA, listB, mostRecent, p);
      }
    }
  }

  /**
   * Leaving the log fails when the log file cannot be opened on A (say
   * `.sync_logs` there is a file) or its copy cannot be written on B, and
   * only adds to both roots; when it completes, it reports
   * the passes' decisions, A holds the log at its path, stamped `now`, and B
   * holds the same file at that path or, should B have a directory there,
   * inside it under the log's name.
   */
  lemma FinishFacts(a: Fs, b: Fs, ab: seq<Decision>, ba: seq<Decision>, text: string, stamp: string, now: int)
    ensures var r := Finish(a, b, ab, ba, text, stamp, now);
      && (r.outcome == Raised(LogNotWritten) <==> !CanWrite(EnsureLogDir(a), LogPath(stamp)))
      && (r.outcome.Completed? <==>
            && CanWrite(EnsureLogDir(a), LogPath(stamp))
            && CanWrite(EnsureLogDir(b), CopyDest(EnsureLogDir(b), LogPath(stamp), LogName(stamp))))
      && a.files.Keys <= r.a.files.Keys && a.dirs <= r.a.dirs
      && b.files.Keys <= r.b.files.Keys && b.dirs <= r.b.dirs
      && (r.outcome.Completed? ==>
            && r.outcome == Completed(ab, ba, text)
            && LogPath(stamp) in r.a.files
            && r.a.files[LogPath(stamp)] == FileData(text, now)
            && exists q | q == LogPath(stamp) || q == LogPath(stamp) + [LogName(stamp)] ::
                 q in r.b.files && r.b.files[q] == r.a.files[LogPath(stamp)])
  {
    var r := Finish(a, b, ab, ba, text, stamp, now);
    if r.outcome.Completed? {
      var dest := CopyDest(EnsureLogDir(b), LogPath(stamp), LogName(stamp));
      assert dest in r.b.files && r.b.files[dest] == r.a.files[LogPath(stamp)];
    }
  }

  /** Both passes keep both roots trees. */
  lemma PassesKeepValid(fsA: Fs, fsB: Fs, listA: seq<Path>, listB: seq<Path>, mostRecent: bool)
    requires Listed(fsA, listA) && Listed(fsB, listB)
    requires ValidFs(fsA) && ValidFs(fsB)
    ensures var t := Passes(fsA, fsB, listA, listB, mostRecent);
      ValidFs(t.a) && ValidFs(t.b)
  {
    var r1 := Pass(fsA.files, fsB, listA, mostRecent);
    PassKeepsValid(fsA.files, fsB, listA, mostRecent);
    if r1.blocked.None? {
      PassGrows(fsA.files, fsB, listA, mostRecent);
      PassKeepsValid(r1.target.files, fsA, listB, mostRecent);
    }
  }

  /** Leaving the log keeps both roots trees, whether it completes or not. */
  lemma FinishKeepsValid(a: Fs, b: Fs, ab: seq<Decision>, ba: seq<Decision>, text: string, stamp: string, now: int)
    requires ValidFs(a) && ValidFs(b)
    ensures var r := Finish(a, b, ab, ba, text, stamp, now);
      ValidFs(r.a) && ValidFs(r.b)
  {
    if !Exists(a, LogDir) {
      AddDirKeepsValid(a, LogDir);
    }
    if !Exists(b, LogDir) {
      AddDirKeepsValid(b, LogDir);
    }
    var a1, b1 := EnsureLogDir(a), EnsureLogDir(b);
    if CanWrite(a1, LogPath(stamp)) {
      WriteKeepsValid(a1, LogPath(stamp), FileData(text, now));
      var dest := CopyDest(b1, LogPath(stamp), LogName(stamp));
      if CanWrite(b1, dest) {
        WriteKeepsValid(b1, dest, FileData(text, now));
      }
    }
  }

  /** A run, completed or not, leaves both roots trees: no file inside a file, no file where a directory is. */
  lemma SyncKeepsValid(cfg: Config, fsA: Fs, fsB: Fs, listA: seq<Path>, listB: seq<Path>, stamp: string, elapsed: string, now: int)
    requires Listed(fsA, listA) && Listed(fsB, listB)
    requires ValidFs(fsA) && ValidFs(fsB)
    ensures var r := Sync(cfg, fsA, fsB, listA, listB, stamp, elapsed, now);
      ValidFs(r.a) && ValidFs(r.b)
  {
    var t := Passes(fsA, fsB, listA, listB, cfg.mostRecent);
    SyncSteps(cfg, fsA, fsB, listA, listB, stamp, elapsed, now);
    PassesKeepValid(fsA, fsB, listA, listB, cfg.mostRecent);
    if t.blocked.None? {
      FinishKeepsValid(t.a, t.b, t.ab, t.ba, LogText(cfg, |listA| + |listB|, t.ab, |t.ba|, elapsed), stamp, now);
    }
  }

  /** A completed run went through both passes unblocked, then wrote its log on A and copied it to B. */
  lemma CompletedRun(cfg: Config, fsA: Fs, fsB: Fs, listA: seq<Path>, listB: seq<Path>, stamp: string, elapsed: string, now: int)
    requires Listed(fsA, listA) && Listed(fsB, listB)
    ensures var r := Sync(cfg, fsA, fsB, listA, listB, stamp, elapsed, now);
      var t := Passes(fsA, fsB, listA, listB, cfg.mostRecent);
      r.outcome.Completed? ==>
        && t.blocked.None?
        && r.outcome == Completed(t.ab, t.ba, LogText(cfg, |listA| + |listB|, t.ab, |t.ba|, elapsed))
        && t.a.files.Keys <= r.a.files.Keys && t.a.dirs <= r.a.dirs
        && t.b.files.Keys <= r.b.files.Keys && t.b.dirs <= r.b.dirs
        && LogPath(stamp) in r.a.files
        && r.a.files[LogPath(stamp)] == FileData(r.outcome.log, now)
        && exists q | q == LogPath(stamp) || q == LogPath(stamp) + [LogName(stamp)] ::
             q in r.b.files && r.b.files[q] == r.a.files[LogPath(stamp)]
  {
    var t := Passes(fsA, fsB, listA, listB, cfg.mostRecent);
    if t.blocked.None? {
      FinishFacts(t.a, t.b, t.ab, t.ba, LogText(cfg, |listA| + |listB|, t.ab, |t.ba|, elapsed), stamp, now);
    }
  }

  // ---------------------------------------------------------------------
  // What a completed run of `sync_folders` guarantees, for the lists the
  // walks return (`WalkFacts`) and for any others like them.
  // ---------------------------------------------------------------------

  /** No file is copied both from A to B and from B to A in one run. */
  lemma NoPingPong(cfg: Config, fsA: Fs, fsB: Fs, listA: seq<Path>, listB: seq<Path>, stamp: string, elapsed: string, now: int)
    requires Listed(fsA, listA) && Listed(fsB, listB)
    ensures var r := Sync(cfg, fsA, fsB, listA, listB, stamp, elapsed, now);
      r.outcome.Completed? ==> forall p | p in PathsOf(r.outcome.ab) :: p !in PathsOf(r.outcome.ba)
  {
    CompletedRun(cfg, fsA, fsB, listA, listB, stamp, elapsed, now);
    PassesNoPingPong(fsA, fsB, listA, listB, cfg.mostRecent);
  }

  /**
   * After a completed run every listed file of A exists on B and every
   * listed file of B exists on A.
   */
  lemma BothSidesHaveListed(cfg: Config, fsA: Fs, fsB: Fs, listA: seq<Path>, listB: seq<Path>, stamp: string, elapsed: string, now: int)
    requires Listed(fsA, listA) && Listed(fsB, listB)
    ensures var r := Sync(cfg, fsA, fsB, listA, listB, stamp, elapsed, now);
      r.outcome.Completed? ==> (forall p | p in listA :: Exists(r.b, p)) && (forall p | p in listB :: Exists(r.a, p))
  {
    CompletedRun(cfg, fsA, fsB, listA, listB, stamp, elapsed, now);
    PassesSettle(fsA, fsB, listA, listB, cfg.mostRecent);
  }

  /**
   * Copies of missing files, both ways: a listed file of A that B lacks is
   * copied to B as new, and a listed file of B that A lacks is copied to A
   * as new; every decision names a file of its own side's list.
   */
  lemma MissingFilesCopied(cfg: Config, fsA: Fs, fsB: Fs, listA: seq<Path>, listB: seq<Path>, stamp: string, elapsed: string, now: int)
    requires Listed(fsA, listA) && Listed(fsB, listB)
    ensures var r := Sync(cfg, fsA, fsB, listA, listB, stamp, elapsed, now);
      r.outcome.Completed? ==>
        && (forall p | p in listA && !Exists(fsB, p) :: Decision(p, New) in r.outcome.ab)
        && (forall p | p in listB && !Exists(fsA, p) :: Decision(p, New) in r.outcome.ba)
        && (forall p | p in PathsOf(r.outcome.ab) :: p in listA)
        && (forall p | p in PathsOf(r.outcome.ba) :: p in listB)
  {
    CompletedRun(cfg, fsA, fsB, listA, listB, stamp, elapsed, now);
    PassesCopyMissing(fsA, fsB, listA, listB, cfg.mostRecent);
  }
}

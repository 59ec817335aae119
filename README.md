# SmartSync two-way folder synchroniser, modelled in Dafny

This project models the core of `sync.py`, a tool that keeps two folders
(roots A and B) holding the same files. One run of `sync_folders`:

1. walks each root with `walk_folder`, which lists the relative paths of its
   regular files. Hidden entries, `ignore_files` entries and
   `ignore_extensions` suffixes are left out, and an ignored directory is
   pruned, so nothing below it is listed;
2. runs `loop_files` from A to B over A's list. A file that B lacks gets its
   parent directories made and is copied with `shutil.copy2`, as "new". With
   `sync_most_recent`, a file that B has gets copied when A's copy is strictly
   newer, as "more recent";
3. runs `loop_files` from B to A over B's list, taken before step 2;
4. makes `.sync_logs` on both roots if it is missing, writes a log there on
   A, and copies it to B.

Modules, one file each:

- `Paths` (`paths.dfy`): paths as component sequences, Python's
  `startswith`/`endswith`, POSIX `os.path.join`, and the containing
  directories of a path.
- `Filter` (`filter.dfy`): the ignore rules of `walk_folder`.
- `Walk` (`walk.dfy`): the directory tree as `os.walk` lists it, and
  `walk_folder`. The walk is a recursive method with the pruning loop and the
  reporting loop of the source, proved against a specification function.
- `Volume` (`volume.dfy`): a root's files (content and modification time)
  and directories. The class `Folder` holds them as fields; its methods
  model `os.path.exists`, `os.makedirs`, `open(..., "w")` and
  `shutil.copy2`, each changing the fields in place.
- `Reconcile` (`reconcile.dfy`): `loop_files`. The method `LoopFiles` is a
  loop over two `Folder` objects, proved against the function `Pass`.
  Lemmas about `Pass` cover order, frame, idempotence, the first failure and
  keeping a root a tree.
- `SyncLog` (`synclog.dfy`): the text of the log file, including `str` of a
  count, `repr` of strings and lists, and the way the log reads back line by
  line.
- `Driver` (`sync.dfy`): `sync_folders` itself. The method `SyncFolders` is
  proved against the function `Sync`. Lemmas state what a run guarantees.

A run can stop with an exception that the source does not catch, and the
model keeps that as an outcome. `os.makedirs` raises when a file stands
where a parent directory must go. Opening the log on A fails when the log
path cannot be opened, for example when `.sync_logs` there is a file. The
copy of the log to B fails when its destination cannot be written.

Some facts about the code that shape the model:

- no step mirrors the directory structure before copying. Parent
  directories are made one file at a time, inside `loop_files`;
- only the A-to-B copies get a line in the log. The B-to-A copies are only
  counted in the summary line;
- the log counts files, not bytes;
- a copy whose parent directory cannot be made aborts the whole run, not
  just that one copy;
- the log name is taken from the clock after both passes, not at the start
  of the run.

## Model

| member | source | states |
|---|---|---|
| Paths.JoinInjective | sync.py:44 | two relative path strings are equal only when they name the same file, for valid component names |
| Filter.LogEntryDoesNotPruneLogDir | sync.py:36 | with the `".sync_logs/"` entry the command line adds (sync.py:196-198), whether `.sync_logs` is pruned depends only on the hidden rule and the other entries: the entry itself never prunes it |
| Filter.EmptyEntryPrunesEveryDir | sync.py:36 | an empty `ignore_files` entry prunes every directory, because `os.path.join("", "")` is empty |
| Walk.WalkFolder | sync.py:11-54 | the result is the walk of the root. It holds a path exactly when that path names a file of the tree that is visible under the rules, and in a well-formed tree no path twice |
| Walk.WalkBelow | sync.py:27-52 | one directory of `os.walk`: prune the sub-directories, report the kept files, then recurse into the survivors in order |
| Walk.PruneDirs | sync.py:29-38 | the reverse scan with `dirs.remove` keeps exactly the sub-directories that pass the directory test, in their order |
| Walk.ReportFiles | sync.py:40-52 | the file loop appends exactly the files that pass the hidden, exact-path and extension tests, in listing order |
| Walk.SurvivorsWalk | sync.py:29-38 | recursing only into the survivors of the pruning gives the same paths as walking every kept sub-directory |
| Walk.WalkMembers | sync.py:27-52 | a path is reported below a directory exactly when it is a file there that passes the file test, and every directory on its way passes the directory test |
| Walk.WalkExact | sync.py:11-54 | the walk of a root reports a path exactly when it is a visible file of the root |
| Walk.WalkNoDup | sync.py:27-52 | in a well-formed tree the walk reports no path twice |
| Walk.WalkSound | sync.py:32-50 | no reported path equals an `ignore_files` entry, ends with an ignored extension or lies in a pruned directory; with the hidden rule on, no component starts with "." |
| Walk.WalkComplete | sync.py:11-54 | every visible file is reported, and only once |
| Volume.CopyNewKeepsValid | sync.py:101-104 | making the parents of a missing path and copying to it keeps the root a tree |
| Volume.CopyOverKeepsValid | sync.py:105-107 | overwriting an existing file keeps the root a tree |
| Volume.AddDirKeepsValid | sync.py:119-122 | making a directory where no file stands in the way keeps the root a tree |
| Volume.Folder.MakeDirs | sync.py:102 | succeeds exactly when no containing directory of `p` is a file, and then adds the containing directories; otherwise it changes nothing |
| Volume.Folder.MakeDir | sync.py:119-122 | succeeds exactly when nothing exists at `d` and no file stands in its way, and then adds the directory; otherwise it changes nothing |
| Volume.Folder.WriteFile | sync.py:124-137 | opening for writing succeeds exactly when every containing directory exists and the path is not a directory, and the file then holds the text; otherwise nothing changes |
| Volume.Folder.CopyInto | sync.py:142-145 | the copy lands at the path, or inside it when it is a directory; it succeeds exactly when that destination can be written |
| Volume.Folder.Copy2 | sync.py:103-107 | on a path whose containing directories exist and which is not a directory, the file there takes the source's content and modification time, and nothing else changes |
| Reconcile.LoopFiles | sync.py:82-109 | the loop leaves the source unchanged and does to the target, and records, exactly what `Pass` does, including stopping at the first path whose parents cannot be made |
| Reconcile.PassStaysBlocked | sync.py:101-103 | after an exception, the rest of the list has no effect |
| Reconcile.PassOrder | sync.py:93-109 | the recorded paths are listed paths, in list order, each at most once |
| Reconcile.PassFrame | sync.py:93-109 | after a pass, an undecided path is as it was, a decided path holds the source's file, directories only grow, and every new directory contains a listed path |
| Reconcile.JudgeUnaffected | sync.py:101-108 | copying some paths does not change the decision for an unrelated path |
| Reconcile.PassDecides | sync.py:93-109 | a pass over an unnested list is blocked exactly when some listed path is blocked at the start, and otherwise records exactly the decisions made against the target as it was at the start |
| Reconcile.PassBlockedAt | sync.py:101-103 | a blocked pass stops at the first listed path that is blocked at the start, having made the copies due for the paths before it |
| Reconcile.DecidedMembers | sync.py:101-108 | a decision is recorded exactly when the path is listed and its verdict is a copy with that status |
| Reconcile.PassOutcome | sync.py:101-108 | per path: absent on the target means copied as new; present means copied, as more recent, exactly when the flag is set, it is a file and the source is strictly newer; a copied path holds the source's file |
| Reconcile.PassSettles | sync.py:103-108 | after a pass, every listed path is to be left alone, because `copy2` carries the source's time |
| Reconcile.PassOverKept | sync.py:93-109 | a pass over paths that are all to be left alone records nothing and changes nothing |
| Reconcile.PassIdempotent | sync.py:93-109 | running the same pass again copies nothing and changes nothing |
| Reconcile.PassKeepsValid | sync.py:101-107 | a pass keeps the target a tree |
| Reconcile.PassGrows | sync.py:101-107 | a pass never removes a file or a directory from the target |
| SyncLog.DecimalRoundTrip | sync.py:131-133 | the decimal text of a count has digits only, no leading zero, and reads back as the count |
| SyncLog.UnescapeEscape | sync.py:129-130 | the escaped body `repr` writes decodes back to the original string |
| SyncLog.ReprRoundTrip | sync.py:129-130 | `repr` of a string, as the ignore lists are written, reads back as that string |
| SyncLog.EscapeNoBreak | sync.py:129-130 | `repr` never writes a raw line break |
| SyncLog.CopyLines | sync.py:134-137 | one log line per A-to-B decision, in order |
| SyncLog.WriteLog | sync.py:124-137 | the text written line by line is the log text: parameter block, summary, then the copy lines |
| SyncLog.SplitUnlines | sync.py:124-137 | splitting the written text at line breaks gives back the lines written, when no line holds a break |
| SyncLog.LogLinesNoBreaks | sync.py:124-137 | no log line holds a break of its own when the folder names, the elapsed text and the copied paths hold none |
| SyncLog.LogReadsBack | sync.py:124-137 | the log reads back as seven parameter lines (the last empty), the summary with both counts, and exactly one line per A-to-B copy, in order |
| Driver.NoneListsAsEmpty | sync.py:24-25 | `ignore_files or []` and `ignore_extensions or []`: leaving a list out walks a root exactly as giving it empty |
| Driver.NothingIgnored | sync.py:24-50 | with both lists left out, the walk reports exactly the root's files, less those with a hidden component when hidden entries are ignored |
| Driver.EnsureLogDir | sync.py:119-122 | afterwards something exists at `.sync_logs`; files are untouched and directories only grow |
| Driver.WalkFacts | sync.py:11-54 | each walk lists files of its root, each once, none inside another |
| Driver.SyncFolders | sync.py:57-149 | the in-place run does exactly what `Sync` says on the walks of both roots |
| Driver.RunPasses | sync.py:112-113 | A to B, then, unless that pass raised, B to A; this is exactly `Passes` |
| Driver.LeaveLog | sync.py:118-145 | the in-place end of the run is exactly `Finish` |
| Driver.PassesNoPingPong | sync.py:112-113 | no path is copied in both directions |
| Driver.PassesSettle | sync.py:112-113 | after both passes every listed file of each root exists on the other root |
| Driver.PassesCopyMissing | sync.py:101-113 | a listed file the other root lacks is copied as new in its direction; only listed files are copied |
| Driver.PassesKeepValid | sync.py:101-113 | both passes keep both roots trees |
| Driver.FinishFacts | sync.py:118-145 | the log fails exactly when it cannot be opened on A or its copy cannot be written on B. It only adds to both roots. On success both roots hold the same text and time, at the log path or inside a directory found there on B |
| Driver.FinishKeepsValid | sync.py:118-145 | leaving the log keeps both roots trees |
| Driver.SyncKeepsValid | sync.py:57-149 | a run, completed or not, leaves both roots trees |
| Driver.CompletedRun | sync.py:57-149 | a completed run had both passes unblocked. Its log text is the log of their decisions, counting both lists, and A and B hold that log with the same content and time |
| Driver.NoPingPong | sync.py:112-113 | in a completed run no path is copied both from A to B and from B to A |
| Driver.BothSidesHaveListed | sync.py:57-149 | after a completed run every listed file of A exists on B and every listed file of B exists on A |
| Driver.MissingFilesCopied | sync.py:101-113 | in a completed run, every listed file the other root lacked is copied as new, and every copy names a file of its own side's list |

## Left out

- The command line (sync.py:152-215) is not part of this model: argument
  parsing, the existence checks on both folders and `exit(1)`. The
  `".sync_logs/"` entry it appends is covered by
  `Filter.LogEntryDoesNotPruneLogDir`.
- `speed_test.py` is not part of this model.
- `logging` calls, the `tqdm` progress bar and reading the log back only to
  log it have no effect on the roots, so they are left out.
- The clock is left out. The log name's timestamp (`stamp`), the elapsed
  time as Python prints a float (`elapsed`) and the log file's modification
  time (`now`) are parameters of a run.
- File contents are text and modification times are integers. Permissions,
  other metadata and float timestamps are not modelled.
- The file system is modelled as a tree of regular files and directories.
  Symbolic links, other file kinds, a root that changes during the run and
  failures of reading or writing file data are not modelled.
- Reconcile.Judge: a listed path that is a directory on the target is left
  alone, even with `sync_most_recent`. The source compares the directory's
  modification time and may copy the file into that directory. This is
  weaker than the source.
- Reconcile.LoopFiles and Driver.SyncFolders require two independent roots:
  neither root lies inside the other, and they are not the same folder. The
  source also accepts, say, B = A/backup. There an A-to-B copy writes inside
  A, and A's walk or later reads of A's files can see what was just written;
  the model does not capture that aliasing.
- SyncLog.Repr: `repr` of non-ASCII characters that Python escapes as not
  printable is not modelled. Every other character is escaped as `repr`
  escapes it.
- Driver.SyncFolders: the walks see each root as the tree `os.walk` lists,
  which must agree with the root's contents (`Snapshot`). Listing order
  comes from that tree and is not chosen by the model.

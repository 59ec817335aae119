/**
 * `loop_files` (sync.py:82-109): the one-way pass that copies, from a source
 * root to a target root, every listed file the target lacks and, when
 * `sync_most_recent` is set, every listed file whose source copy is strictly
 * newer than the target's.
 */
module Reconcile {
  import opened Wrappers
  import opened Paths
  import opened Volume

  /** Why a file was copied. */
  datatype Status = New | MoreRecent

  /** The status text recorded by sync.py: "new" or "more recent". */
  function StatusText(s: Status): (r: string)
    ensures r == "new" <==> s == New
    ensures r == "more recent" <==> s == MoreRecent
  {
    match s
    case New => "new"
    case MoreRecent => "more recent"
  }

  /** One entry of `as_been_synced`: the relative path and why it was copied. */
  datatype Decision = Decision(path: Path, status: Status)

  /** What the pass does with one listed path. */
  datatype Verdict = Copy(status: Status) | Keep | Blocked

  /**
   * The decision for the listed path `p` against the target `tgt`
   * (sync.py:101-108): absent on the target, its parents are made and it is
   * copied as new, unless a file stands where one of its parent directories
   * must go, which makes `os.makedirs` raise; present, it is copied only
   * when the flag is set and the source is strictly newer.
   */
  function Judge(src: map<Path, FileData>, tgt: Fs, p: Path, mostRecent: bool): Verdict
    requires p in src
  {
    if !Exists(tgt, p) then
      if ParentBlocked(tgt, p) then Blocked else Copy(New)
    else if mostRecent && p in tgt.files && src[p].mtime > tgt.files[p].mtime then
      Copy(MoreRecent)
    else
      Keep
  }

  /** The state of a pass: the decisions so far, the target, and the path whose parents could not be made. */
  datatype Run = Run(synced: seq<Decision>, target: Fs, blocked: Option<Path>)

  /** The pass after one more listed path; once blocked, nothing further happens. */
  function Step(src: map<Path, FileData>, r: Run, p: Path, mostRecent: bool): Run
    requires p in src
  {
    if r.blocked.Some? then r
    else
      match Judge(src, r.target, p, mostRecent)
      case Blocked => Run(r.synced, r.target, Some(p))
      case Keep => r
      case Copy(New) => Run(r.synced + [Decision(p, New)], CopyTo(MakeParents(r.target, p), p, src[p]), None)
      case Copy(MoreRecent) => Run(r.synced + [Decision(p, MoreRecent)], CopyTo(r.target, p, src[p]), None)
  }

  /** The pass over `files`, each judged against the target as the earlier ones left it. */
  function Pass(src: map<Path, FileData>, tgt: Fs, files: seq<Path>, mostRecent: bool): Run
    requires forall p | p in files :: p in src
    decreases |files|
  {
    if files == [] then Run([], tgt, None)
    else Step(src, Pass(src, tgt, files[..|files| - 1], mostRecent), files[|files| - 1], mostRecent)
  }

  /** The paths of a list of decisions, in order. */
  function PathsOf(ds: seq<Decision>): seq<Path>
    decreases |ds|
  {
    if ds == [] then [] else PathsOf(ds[..|ds| - 1]) + [ds[|ds| - 1].path]
  }

  /** No listed path lies inside another listed path. */
  predicate Unnested(files: seq<Path>) {
    forall p, q | p in files && q in files :: p !in Ancestors(q)
  }

  /** The copies the pass makes when every path is judged against the target as it was at the start. */
  function Decided(src: map<Path, FileData>, tgt: Fs, files: seq<Path>, mostRecent: bool): seq<Decision>
    requires forall p | p in files :: p in src
    decreases |files|
  {
    if files == [] then []
    else
      var p := files[|files| - 1];
      Decided(src, tgt, files[..|files| - 1], mostRecent)
        + match Judge(src, tgt, p, mostRecent) case Copy(s) => [Decision(p, s)] case _ => []
  }

  // ---------------------------------------------------------------------
  // The pass as the source performs it.
  // ---------------------------------------------------------------------

  /**
   * `loop_files(files, rootA, rootB)`: copy from `src` to `dst` as the
   * decision rules say, recording each copy; stops at the first path whose
   * parent directories cannot be made, which the source raises out of the
   * whole synchronisation.
   */
  method LoopFiles(files: seq<Path>, src: Folder, dst: Folder, mostRecent: bool)
    returns (synced: seq<Decision>, blocked: Option<Path>)
    requires src != dst
    requires forall p | p in files :: p in src.files && |p| > 0
    requires ValidFs(dst.State())
    modifies dst
    ensures src.State() == old(src.State())
    ensures Pass(src.files, old(dst.State()), files, mostRecent) == Run(synced, dst.State(), blocked)
  {
    synced := [];
    blocked := None;
    var i := 0;
    while i < |files| && blocked == None
      invariant 0 <= i <= |files|
      invariant Pass(src.files, old(dst.State()), files[..i], mostRecent) == Run(synced, dst.State(), blocked)
      invariant ValidFs(dst.State())
    {
      var p := files[i];
      ghost var before := dst.State();
      if !dst.PathExists(p) {
        var ok := dst.MakeDirs(p);
        if ok {
          CopyNewKeepsValid(before, p, src.files[p]);
          dst.Copy2(p, src.files[p]);
          synced := synced + [Decision(p, New)];
        } else {
          blocked := Some(p);
        }
      } else if mostRecent {
        if p in dst.files && src.files[p].mtime > dst.files[p].mtime {
          CopyOverKeepsValid(before, p, src.files[p]);
          dst.Copy2(p, src.files[p]);
          synced := synced + [Decision(p, MoreRecent)];
        }
      }
      TakeSnoc(files, i);
      i := i + 1;
    }
    if blocked == None {
      assert files[..i] == files;
    } else {
      PassStaysBlocked(src.files, old(dst.State()), files, i, mostRecent);
    }
  }

  // ---------------------------------------------------------------------
  // Lemmas.
  // ---------------------------------------------------------------------

  /** Once a path is blocked, the rest of the list changes nothing. */
  lemma {:induction false} PassStaysBlocked(src: map<Path, FileData>, tgt: Fs, files: seq<Path>, i: nat, mostRecent: bool)
    requires forall p | p in files :: p in src
    requires i <= |files|
    requires Pass(src, tgt, files[..i], mostRecent).blocked.Some?
    ensures Pass(src, tgt, files, mostRecent) == Pass(src, tgt, files[..i], mostRecent)
    decreases |files|
  {
    if i < |files| {
      var init := files[..|files| - 1];
      assert init[..i] == files[..i];
      PassStaysBlocked(src, tgt, init, i, mostRecent);
    } else {
      assert files[..i] == files;
    }
  }

  /** The decisions name listed paths, in list order, each at most once. */
  lemma {:induction false} PassOrder(src: map<Path, FileData>, tgt: Fs, files: seq<Path>, mostRecent: bool)
    requires forall p | p in files :: p in src
    requires NoDup(files)
    ensures var r := Pass(src, tgt, files, mostRecent);
      && (forall q | q in PathsOf(r.synced) :: q in files)
      && IsSubsequence(PathsOf(r.synced), files)
      && NoDup(PathsOf(r.synced))
    decreases |files|
  {
    if files != [] {
      var init, p := files[..|files| - 1], files[|files| - 1];
      assert files == init + [p];
      PassOrder(src, tgt, init, mostRecent);
      var r0 := Pass(src, tgt, init, mostRecent);
      var paths := PathsOf(r0.synced);
      assert p !in paths;
      StepPaths(src, r0, p, mostRecent);
      if PathsOf(Step(src, r0, p, mostRecent).synced) == paths {
        SubsequenceSnoc(paths, init, p);
      } else {
        SubsequenceSnocBoth(paths, init, p);
        NoDupSnoc(paths, p);
      }
    }
  }

  /** A step records at most one decision, for the path it is on. */
  lemma StepPaths(src: map<Path, FileData>, r: Run, p: Path, mostRecent: bool)
    requires p in src
    ensures var paths := PathsOf(Step(src, r, p, mostRecent).synced);
      paths == PathsOf(r.synced) || paths == PathsOf(r.synced) + [p]
  {
    var s := Step(src, r, p, mostRecent).synced;
    if s != r.synced {
      assert s[..|s| - 1] == r.synced;
    }
  }

  /** Appending an element not yet present keeps a sequence free of duplicates. */
  lemma NoDupSnoc<T>(s: seq<T>, x: T)
    requires NoDup(s) && x !in s
    ensures NoDup(s + [x])
  {
    assert forall i | 0 <= i < |s| :: (s + [x])[i] == s[i];
  }

  /**
   * What a pass that was not blocked leaves behind: an undecided path is as
   * it was, a decided path holds the source's file, and the only new
   * directories are the parents of listed paths.
   */
  lemma {:induction false} PassFrame(src: map<Path, FileData>, tgt: Fs, files: seq<Path>, mostRecent: bool)
    requires forall p | p in files :: p in src
    requires NoDup(files)
    requires Pass(src, tgt, files, mostRecent).blocked.None?
    ensures var r := Pass(src, tgt, files, mostRecent);
      && (forall q | q !in PathsOf(r.synced) :: (q in r.target.files <==> q in tgt.files))
      && (forall q | q !in PathsOf(r.synced) && q in tgt.files :: r.target.files[q] == tgt.files[q])
      && (forall q | q in PathsOf(r.synced) :: q in src && q in r.target.files && r.target.files[q] == src[q])
      && tgt.dirs <= r.target.dirs
      && (forall a | a in r.target.dirs && a !in tgt.dirs :: exists q | q in files :: a in Ancestors(q))
    decreases |files|
  {
    if files != [] {
      var init, p := files[..|files| - 1], files[|files| - 1];
      var r0 := Pass(src, tgt, init, mostRecent);
      assert r0.blocked.None?;
      PassFrame(src, tgt, init, mostRecent);
      PassOrder(src, tgt, init, mostRecent);
      assert p !in init;
      StepEffect(src, r0, p, mostRecent);
    }
  }

  /** One unblocked step either changes nothing or copies its path, adding only that path's parents. */
  lemma StepEffect(src: map<Path, FileData>, r0: Run, p: Path, mostRecent: bool)
    requires p in src && r0.blocked.None?
    requires Step(src, r0, p, mostRecent).blocked.None?
    ensures var r := Step(src, r0, p, mostRecent);
      || (r.synced == r0.synced && r.target == r0.target)
      || (&& PathsOf(r.synced) == PathsOf(r0.synced) + [p]
          && r.target.files == r0.target.files[p := src[p]]
          && r0.target.dirs <= r.target.dirs <= r0.target.dirs + Ancestors(p))
  {
    var r := Step(src, r0, p, mostRecent);
    if r.synced != r0.synced {
      assert r.synced[..|r.synced| - 1] == r0.synced;
    }
  }

  /**
   * After an unblocked pass over a part of the list, a path that is not in
   * that part, is not inside any of its paths and contains none of them is
   * judged as it would have been at the start.
   */
  lemma JudgeUnaffected(src: map<Path, FileData>, tgt: Fs, files: seq<Path>, p: Path, mostRecent: bool)
    requires forall q | q in files :: q in src
    requires p in src && p !in files
    requires NoDup(files)
    requires forall q | q in files :: p !in Ancestors(q) && q !in Ancestors(p)
    requires Pass(src, tgt, files, mostRecent).blocked.None?
    ensures Judge(src, Pass(src, tgt, files, mostRecent).target, p, mostRecent) == Judge(src, tgt, p, mostRecent)
  {
    var r := Pass(src, tgt, files, mostRecent);
    PassFrame(src, tgt, files, mostRecent);
    PassOrder(src, tgt, files, mostRecent);
    assert p !in PathsOf(r.synced);
    assert p in r.target.dirs <==> p in tgt.dirs;
    forall a | a in Ancestors(p) ensures a in r.target.files <==> a in tgt.files {
      assert a !in PathsOf(r.synced);
    }
  }

  /**
   * The pass judges every listed path against the target as it was at the
   * start: it is blocked exactly when some listed path is, and otherwise
   * makes exactly the copies of Decided.
   */
  lemma {:induction false} PassDecides(src: map<Path, FileData>, tgt: Fs, files: seq<Path>, mostRecent: bool)
    requires forall p | p in files :: p in src
    requires NoDup(files) && Unnested(files)
    ensures var r := Pass(src, tgt, files, mostRecent);
      && (r.blocked.None? <==> forall q | q in files :: Judge(src, tgt, q, mostRecent) != Blocked)
      && (r.blocked.None? ==> r.synced == Decided(src, tgt, files, mostRecent))
    decreases |files|
  {
    if files != [] {
      var n := |files| - 1;
      var init, p := files[..n], files[n];
      assert forall q | q in files :: q in init || q == p;
      UnnestedInit(files);
      PassDecides(src, tgt, init, mostRecent);
      if Pass(src, tgt, init, mostRecent).blocked.None? {
        JudgeUnaffected(src, tgt, init, p, mostRecent);
      }
    }
  }

  /** Dropping the last listed path keeps the list unnested, and that path is apart from the others. */
  lemma UnnestedInit(files: seq<Path>)
    requires |files| > 0 && NoDup(files) && Unnested(files)
    ensures var init, p := files[..|files| - 1], files[|files| - 1];
      && NoDup(init) && Unnested(init) && p !in init
      && forall q | q in init :: p !in Ancestors(q) && q !in Ancestors(p)
  {
    var init := files[..|files| - 1];
    assert files[|files| - 1] in files;
    assert forall q | q in init :: q in files;
  }

  /** `files[b]` is the first listed path that is blocked at the start. */
  predicate FirstBlocked(src: map<Path, FileData>, tgt: Fs, files: seq<Path>, mostRecent: bool, b: int)
    requires forall p | p in files :: p in src
  {
    && 0 <= b < |files|
    && Judge(src, tgt, files[b], mostRecent) == Blocked
    && forall j | 0 <= j < b :: Judge(src, tgt, files[j], mostRecent) != Blocked
  }

  /**
   * A blocked pass stops at the first listed path that is blocked at the
   * start, having made the copies Decided lists for the paths before it.
   */
  lemma {:induction false} PassBlockedAt(src: map<Path, FileData>, tgt: Fs, files: seq<Path>, mostRecent: bool)
    requires forall p | p in files :: p in src
    requires NoDup(files) && Unnested(files)
    ensures var r := Pass(src, tgt, files, mostRecent);
      r.blocked.Some? ==> exists b | FirstBlocked(src, tgt, files, mostRecent, b) ::
        r.blocked == Some(files[b]) && r.synced == Decided(src, tgt, files[..b], mostRecent)
    decreases |files|
  {
    if files != [] {
      var n := |files| - 1;
      var init, p := files[..n], files[n];
      UnnestedInit(files);
      var r0 := Pass(src, tgt, init, mostRecent);
      if r0.blocked.Some? {
        PassBlockedAt(src, tgt, init, mostRecent);
        var b :| FirstBlocked(src, tgt, init, mostRecent, b) && r0.blocked == Some(init[b]) && r0.synced == Decided(src, tgt, init[..b], mostRecent);
        FirstBlockedInit(src, tgt, files, mostRecent, b);
      } else {
        PassDecides(src, tgt, init, mostRecent);
        JudgeUnaffected(src, tgt, init, p, mostRecent);
        assert files[..n] == init;
        assert forall j | 0 <= j < n :: files[j] in init;
      }
    }
  }

  /** The first blocked path of the list without its last element is the first of the whole list. */
  lemma FirstBlockedInit(src: map<Path, FileData>, tgt: Fs, files: seq<Path>, mostRecent: bool, b: int)
    requires forall p | p in files :: p in src
    requires |files| > 0 && FirstBlocked(src, tgt, files[..|files| - 1], mostRecent, b)
    ensures FirstBlocked(src, tgt, files, mostRecent, b)
    ensures files[..|files| - 1][..b] == files[..b] && files[..|files| - 1][b] == files[b]
  {
  }

  /** A decision is recorded for a listed path exactly when its judgement at the start is a copy. */
  lemma {:induction false} DecidedMembers(src: map<Path, FileData>, tgt: Fs, files: seq<Path>, mostRecent: bool, d: Decision)
    requires forall p | p in files :: p in src
    ensures d in Decided(src, tgt, files, mostRecent) <==> d.path in files && Judge(src, tgt, d.path, mostRecent) == Copy(d.status)
    decreases |files|
  {
    if files != [] {
      var init := files[..|files| - 1];
      DecidedMembers(src, tgt, init, mostRecent, d);
      assert files == init + [files[|files| - 1]];
    }
  }

  /**
   * One unblocked pass, path by path: a listed path the target lacked is
   * copied as new; a listed path the target had is copied, as more recent,
   * exactly when the flag is set and the source is strictly newer; a copied
   * path holds the source's content and time; any other path of the target
   * is unchanged.
   */
  lemma PassOutcome(src: map<Path, FileData>, tgt: Fs, files: seq<Path>, mostRecent: bool, p: Path)
    requires forall q | q in files :: q in src
    requires NoDup(files) && Unnested(files)
    requires Pass(src, tgt, files, mostRecent).blocked.None?
    requires p in files
    ensures var r := Pass(src, tgt, files, mostRecent);
      && (!Exists(tgt, p) ==> Decision(p, New) in r.synced)
      && (Exists(tgt, p) ==>
            ((p in PathsOf(r.synced)) <==> mostRecent && p in tgt.files && src[p].mtime > tgt.files[p].mtime))
      && (Exists(tgt, p) ==> Decision(p, New) !in r.synced)
      && (p in PathsOf(r.synced) ==> p in r.target.files && r.target.files[p] == src[p])
  {
    var r := Pass(src, tgt, files, mostRecent);
    PassDecides(src, tgt, files, mostRecent);
    PassFrame(src, tgt, files, mostRecent);
    DecidedMembers(src, tgt, files, mostRecent, Decision(p, New));
    DecidedMembers(src, tgt, files, mostRecent, Decision(p, MoreRecent));
    PathsOfMembers(r.synced, p);
  }

  /** A path is among the decided paths exactly when some decision names it. */
  lemma {:induction false} PathsOfMembers(ds: seq<Decision>, p: Path)
    ensures p in PathsOf(ds) <==> Decision(p, New) in ds || Decision(p, MoreRecent) in ds
    decreases |ds|
  {
    if ds != [] {
      var init := ds[..|ds| - 1];
      var d := ds[|ds| - 1];
      PathsOfMembers(init, p);
      assert ds == init + [d];
      assert Decision(p, New) in ds <==> Decision(p, New) in init || d == Decision(p, New);
      assert Decision(p, MoreRecent) in ds <==> Decision(p, MoreRecent) in init || d == Decision(p, MoreRecent);
      assert d.status == New || d.status == MoreRecent;
    }
  }

  /** The verdict for every path of `files` is to leave it alone. */
  predicate AllKept(src: map<Path, FileData>, tgt: Fs, files: seq<Path>, mostRecent: bool)
    requires forall p | p in files :: p in src
  {
    forall p | p in files :: Judge(src, tgt, p, mostRecent) == Keep
  }

  /** A pass leaves alone every path it has been over: copy2 carries the source's time across. */
  lemma {:induction false} PassSettles(src: map<Path, FileData>, tgt: Fs, files: seq<Path>, mostRecent: bool)
    requires forall p | p in files :: p in src
    requires Pass(src, tgt, files, mostRecent).blocked.None?
    ensures AllKept(src, Pass(src, tgt, files, mostRecent).target, files, mostRecent)
    decreases |files|
  {
    if files != [] {
      var init, p := files[..|files| - 1], files[|files| - 1];
      var r0 := Pass(src, tgt, init, mostRecent);
      assert r0.blocked.None?;
      PassSettles(src, tgt, init, mostRecent);
      var r := Step(src, r0, p, mostRecent);
      forall q | q in files ensures Judge(src, r.target, q, mostRecent) == Keep {
        if q != p {
          assert q in init;
          StepKeepsKept(src, r0, p, q, mostRecent);
        }
      }
    }
  }

  /** A step on one path does not disturb another path that was to be left alone. */
  lemma StepKeepsKept(src: map<Path, FileData>, r: Run, p: Path, q: Path, mostRecent: bool)
    requires p in src && q in src && r.blocked.None?
    requires Judge(src, r.target, q, mostRecent) == Keep
    requires Step(src, r, p, mostRecent).blocked.None?
    ensures Judge(src, Step(src, r, p, mostRecent).target, q, mostRecent) == Keep
  {
    var t := Step(src, r, p, mostRecent).target;
    if q in t.files && q in r.target.files && q != p {
      assert t.files[q] == r.target.files[q];
    }
  }

  /** A pass over paths that are all to be left alone decides nothing and changes nothing. */
  lemma {:induction false} PassOverKept(src: map<Path, FileData>, tgt: Fs, files: seq<Path>, mostRecent: bool)
    requires forall p | p in files :: p in src
    requires AllKept(src, tgt, files, mostRecent)
    ensures Pass(src, tgt, files, mostRecent) == Run([], tgt, None)
    decreases |files|
  {
    if files != [] {
      PassOverKept(src, tgt, files[..|files| - 1], mostRecent);
    }
  }

  /** Running the same pass again, with nothing changed in between, copies nothing. */
  lemma PassIdempotent(src: map<Path, FileData>, tgt: Fs, files: seq<Path>, mostRecent: bool)
    requires forall p | p in files :: p in src
    requires Pass(src, tgt, files, mostRecent).blocked.None?
    ensures var t := Pass(src, tgt, files, mostRecent).target;
      Pass(src, t, files, mostRecent) == Run([], t, None)
  {
    PassSettles(src, tgt, files, mostRecent);
    PassOverKept(src, Pass(src, tgt, files, mostRecent).target, files, mostRecent);
  }

  /** A pass keeps the target a tree. */
  lemma {:induction false} PassKeepsValid(src: map<Path, FileData>, tgt: Fs, files: seq<Path>, mostRecent: bool)
    requires forall p | p in files :: p in src && |p| > 0
    requires ValidFs(tgt)
    ensures ValidFs(Pass(src, tgt, files, mostRecent).target)
    decreases |files|
  {
    if files != [] {
      var init, p := files[..|files| - 1], files[|files| - 1];
      PassKeepsValid(src, tgt, init, mostRecent);
      var r0 := Pass(src, tgt, init, mostRecent);
      if r0.blocked.None? {
        match Judge(src, r0.target, p, mostRecent)
        case Copy(New) => CopyNewKeepsValid(r0.target, p, src[p]);
        case Copy(MoreRecent) => CopyOverKeepsValid(r0.target, p, src[p]);
        case _ =>
      }
    }
  }

  /** A pass never removes anything from the target. */
  lemma {:induction false} PassGrows(src: map<Path, FileData>, tgt: Fs, files: seq<Path>, mostRecent: bool)
    requires forall p | p in files :: p in src
    ensures var t := Pass(src, tgt, files, mostRecent).target;
      tgt.files.Keys <= t.files.Keys && tgt.dirs <= t.dirs
    decreases |files|
  {
    if files != [] {
      PassGrows(src, tgt, files[..|files| - 1], mostRecent);
    }
  }
}

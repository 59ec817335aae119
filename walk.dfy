/**
 * `walk_folder` (sync.py:11-54): the filtered enumeration of the regular
 * files under a root, with ignored and hidden sub-directories pruned before
 * the walk descends into them.
 *
 * The directory tree is the snapshot `os.walk` sees: each directory lists its
 * regular files and its sub-directories in the order the operating system
 * returns them.
 */
module Walk {
  import opened Paths
  import opened Filter

  /** One directory: its regular files and its sub-directories, in listing order. */
  datatype Tree = Tree(files: seq<string>, dirs: seq<Entry>)

  /** A named sub-directory. */
  datatype Entry = Entry(name: string, sub: Tree)

  /** A directory entry name as a POSIX file system allows it. */
  predicate ValidName(n: string) {
    n != "" && Sep !in n && n != "." && n != ".."
  }

  /** Names are valid and no directory lists the same name twice. */
  predicate WellFormed(t: Tree)
    decreases t
  {
    && (forall i | 0 <= i < |t.files| :: ValidName(t.files[i]))
    && NoDup(t.files)
    && (forall i, j | 0 <= i < j < |t.dirs| :: t.dirs[i].name != t.dirs[j].name)
    && (forall i, j | 0 <= i < |t.files| && 0 <= j < |t.dirs| :: t.files[i] != t.dirs[j].name)
    && (forall i | 0 <= i < |t.dirs| :: ValidName(t.dirs[i].name) && WellFormed(t.dirs[i].sub))
  }

  /**
   * The two tests the walk consults: whether to descend into the directory at
   * a path, and whether to report the file at a path.
   */
  datatype Rules = Rules(keepDir: Path -> bool, keepFile: Path -> bool)

  /** The tests of `walk_folder` for one ignore configuration. */
  function RulesOf(opts: Options): (r: Rules)
    ensures forall p | |p| > 0 :: r.keepDir(p) == KeepDir(p, opts) && r.keepFile(p) == KeepFile(p, opts)
  {
    Rules(p => |p| > 0 && KeepDir(p, opts), p => |p| > 0 && KeepFile(p, opts))
  }

  /** `q`, relative to `t`, names a regular file of the tree. */
  predicate IsFile(t: Tree, q: Path)
    decreases t
  {
    if |q| == 0 then false
    else if |q| == 1 then q[0] in t.files
    else exists i | 0 <= i < |t.dirs| :: t.dirs[i].name == q[0] && IsFile(t.dirs[i].sub, q[1..])
  }

  /** `q`, relative to `t`, names a sub-directory of the tree. */
  predicate IsDir(t: Tree, q: Path)
    decreases t
  {
    |q| > 0 && exists i | 0 <= i < |t.dirs| :: t.dirs[i].name == q[0] && (|q| == 1 || IsDir(t.dirs[i].sub, q[1..]))
  }

  // ---------------------------------------------------------------------
  // The walk as functions: the specification of the method below.
  // ---------------------------------------------------------------------

  /** The files of one directory that pass the file rules, in listing order. */
  function KeptFiles(prefix: Path, names: seq<string>, rules: Rules): seq<Path>
    decreases |names|
  {
    if names == [] then []
    else
      var p := prefix + [names[|names| - 1]];
      KeptFiles(prefix, names[..|names| - 1], rules) + (if rules.keepFile(p) then [p] else [])
  }

  /** The sub-directories of one directory that pass the directory rules. */
  function Survivors(prefix: Path, ds: seq<Entry>, rules: Rules): seq<Entry>
    decreases |ds|
  {
    if ds == [] then []
    else (if rules.keepDir(prefix + [ds[0].name]) then [ds[0]] else []) + Survivors(prefix, ds[1..], rules)
  }

  /** What the walk reports for the directory `t` found at `prefix`. */
  function WalkFrom(prefix: Path, t: Tree, rules: Rules): seq<Path>
    decreases t, 1
  {
    KeptFiles(prefix, t.files, rules) + WalkDirs(prefix, t.dirs, rules)
  }

  /** What the walk reports below the kept members of `ds`, in order. */
  function WalkDirs(prefix: Path, ds: seq<Entry>, rules: Rules): seq<Path>
    decreases ds, 0
  {
    if ds == [] then []
    else
      WalkDirs(prefix, ds[..|ds| - 1], rules) + Part(prefix, ds[|ds| - 1], rules)
  }

  /** What the walk reports below the sub-directory `d`: nothing when it is pruned. */
  function Part(prefix: Path, d: Entry, rules: Rules): seq<Path>
    decreases d, 2
  {
    if rules.keepDir(prefix + [d.name]) then WalkFrom(prefix + [d.name], d.sub, rules) else []
  }

  /** `walk_folder(folder, ...)`: the relative paths reported for the whole root. */
  function Walk(t: Tree, opts: Options): seq<Path> {
    WalkFrom([], t, RulesOf(opts))
  }

  /** The file path `p` passes the file rule and the directory rule at every level below `n`. */
  predicate KeptBelow(n: nat, p: Path, rules: Rules)
    requires |p| > 0
  {
    rules.keepFile(p) && forall k | n < k < |p| :: rules.keepDir(p[..k])
  }

  // ---------------------------------------------------------------------
  // The walk as the source performs it.
  // ---------------------------------------------------------------------

  /** `walk_folder`: every visible file of the root, each once, relative to the root. */
  method WalkFolder(t: Tree, opts: Options) returns (paths: seq<Path>)
    ensures paths == Walk(t, opts)
    ensures forall p :: p in paths <==> IsFile(t, p) && Visible(p, opts)
    ensures WellFormed(t) ==> NoDup(paths)
  {
    paths := WalkBelow([], t, RulesOf(opts));
    forall p ensures p in paths <==> IsFile(t, p) && Visible(p, opts) {
      WalkExact(t, opts, p);
    }
    if WellFormed(t) {
      WalkNoDup([], t, RulesOf(opts));
    }
  }

  /**
   * One directory of the walk: first filter the sub-directories (scanned from
   * the last, as the source removes them from `dirs`), then report the kept
   * files, then recurse into the surviving sub-directories in order.
   */
  method WalkBelow(prefix: Path, t: Tree, rules: Rules) returns (paths: seq<Path>)
    ensures paths == WalkFrom(prefix, t, rules)
    decreases t
  {
    var kept := PruneDirs(prefix, t.dirs, rules);
    paths := ReportFiles(prefix, t.files, rules);
    ghost var files := paths;
    for k := 0 to |kept|
      invariant paths == files + WalkDirs(prefix, kept[..k], rules)
    {
      var d := kept[k];
      assert d in t.dirs;
      var below := WalkBelow(prefix + [d.name], d.sub, rules);
      WalkDirsSnoc(prefix, kept[..k], d, rules);
      TakeSnoc(kept, k);
      AppendAssoc(files, WalkDirs(prefix, kept[..k], rules), below);
      paths := paths + below;
    }
    assert kept[..|kept|] == kept;
    SurvivorsWalk(prefix, t.dirs, rules);
  }

  /**
   * The pruning loop over `dirs` (sync.py:29-38): scanning from the last
   * entry, drop every sub-directory the walk must not descend into.
   */
  method PruneDirs(prefix: Path, dirs: seq<Entry>, rules: Rules) returns (kept: seq<Entry>)
    ensures kept == Survivors(prefix, dirs, rules)
    ensures forall e | e in kept :: e in dirs && rules.keepDir(prefix + [e.name])
  {
    kept := [];
    var j := |dirs|;
    while j > 0
      invariant 0 <= j <= |dirs|
      invariant kept == Survivors(prefix, dirs[j..], rules)
    {
      j := j - 1;
      var d := dirs[j];
      assert dirs[j..] == [d] + dirs[j + 1..];
      if rules.keepDir(prefix + [d.name]) {
        kept := [d] + kept;
      }
    }
    assert dirs[0..] == dirs;
    SurvivorsKept(prefix, dirs, rules);
  }

  /** The loop over `files` (sync.py:40-52): append every file that passes the file rules. */
  method ReportFiles(prefix: Path, names: seq<string>, rules: Rules) returns (paths: seq<Path>)
    ensures paths == KeptFiles(prefix, names, rules)
  {
    paths := [];
    for i := 0 to |names|
      invariant paths == KeptFiles(prefix, names[..i], rules)
    {
      var p := prefix + [names[i]];
      assert names[..i + 1][..i] == names[..i];
      if rules.keepFile(p) {
        paths := paths + [p];
      }
    }
    assert names[..|names|] == names;
  }

  // ---------------------------------------------------------------------
  // Lemmas.
  // ---------------------------------------------------------------------

  /** The survivors are members of the listing that pass the directory rules. */
  lemma {:induction false} SurvivorsKept(prefix: Path, ds: seq<Entry>, rules: Rules)
    ensures forall e | e in Survivors(prefix, ds, rules) :: e in ds && rules.keepDir(prefix + [e.name])
    decreases |ds|
  {
    if ds != [] {
      SurvivorsKept(prefix, ds[1..], rules);
    }
  }

  /** Walking a concatenation of listings walks each part in turn. */
  lemma {:induction false} WalkDirsAppend(prefix: Path, a: seq<Entry>, b: seq<Entry>, rules: Rules)
    ensures WalkDirs(prefix, a + b, rules) == WalkDirs(prefix, a, rules) + WalkDirs(prefix, b, rules)
    decreases |b|
  {
    if b == [] {
      assert a + b == a;
    } else {
      var b', d := b[..|b| - 1], b[|b| - 1];
      var ab := a + b;
      assert ab[..|ab| - 1] == a + b' && ab[|ab| - 1] == d;
      WalkDirsAppend(prefix, a, b', rules);
      AppendAssoc(WalkDirs(prefix, a, rules), WalkDirs(prefix, b', rules), Part(prefix, d, rules));
    }
  }

  /** Walking one more kept sub-directory appends its walk. */
  lemma WalkDirsSnoc(prefix: Path, ds: seq<Entry>, d: Entry, rules: Rules)
    requires rules.keepDir(prefix + [d.name])
    ensures WalkDirs(prefix, ds + [d], rules) == WalkDirs(prefix, ds, rules) + WalkFrom(prefix + [d.name], d.sub, rules)
  {
    assert (ds + [d])[..|ds|] == ds;
  }

  /** Filtering first and recursing into the survivors gives the walk of the whole listing. */
  lemma {:induction false} SurvivorsWalk(prefix: Path, ds: seq<Entry>, rules: Rules)
    ensures WalkDirs(prefix, Survivors(prefix, ds, rules), rules) == WalkDirs(prefix, ds, rules)
    decreases |ds|
  {
    if ds != [] {
      var head := if rules.keepDir(prefix + [ds[0].name]) then [ds[0]] else [];
      SurvivorsWalk(prefix, ds[1..], rules);
      WalkDirsAppend(prefix, head, Survivors(prefix, ds[1..], rules), rules);
      assert ds == [ds[0]] + ds[1..];
      WalkDirsAppend(prefix, [ds[0]], ds[1..], rules);
      assert [ds[0]][..0] == [];
    }
  }

  /** Membership in the files reported for one directory. */
  lemma {:induction false} KeptFilesMembers(prefix: Path, names: seq<string>, rules: Rules, p: Path)
    ensures p in KeptFiles(prefix, names, rules) <==>
      |p| == |prefix| + 1 && p[..|prefix|] == prefix && p[|prefix|] in names && rules.keepFile(p)
    decreases |names|
  {
    if names != [] {
      KeptFilesMembers(prefix, names[..|names| - 1], rules, p);
      var last := names[|names| - 1];
      assert names == names[..|names| - 1] + [last];
      if |p| == |prefix| + 1 && p[..|prefix|] == prefix {
        assert p == prefix + [p[|prefix|]];
      }
    }
  }

  /** Membership in the walk below a listing of sub-directories. */
  lemma {:induction false} WalkDirsMembers(prefix: Path, ds: seq<Entry>, rules: Rules, p: Path)
    ensures p in WalkDirs(prefix, ds, rules) <==>
      exists i | 0 <= i < |ds| :: rules.keepDir(prefix + [ds[i].name]) && p in WalkFrom(prefix + [ds[i].name], ds[i].sub, rules)
    decreases |ds|
  {
    if ds != [] {
      var ds' := ds[..|ds| - 1];
      WalkDirsMembers(prefix, ds', rules, p);
      if p in WalkDirs(prefix, ds', rules) {
        var i :| 0 <= i < |ds'| && rules.keepDir(prefix + [ds'[i].name]) && p in WalkFrom(prefix + [ds'[i].name], ds'[i].sub, rules);
        assert ds[i] == ds'[i];
      }
      if exists i | 0 <= i < |ds| :: rules.keepDir(prefix + [ds[i].name]) && p in WalkFrom(prefix + [ds[i].name], ds[i].sub, rules) {
        var i :| 0 <= i < |ds| && rules.keepDir(prefix + [ds[i].name]) && p in WalkFrom(prefix + [ds[i].name], ds[i].sub, rules);
        if i < |ds'| {
          assert ds'[i] == ds[i];
        }
      }
    }
  }

  /**
   * The walk from `prefix` reports exactly the files of `t`, placed under
   * `prefix`, that pass the file rule and whose directories below `prefix`
   * all pass the directory rule.
   */
  lemma {:induction false} WalkMembers(prefix: Path, t: Tree, rules: Rules, p: Path)
    ensures p in WalkFrom(prefix, t, rules) <==>
      |prefix| < |p| && p[..|prefix|] == prefix && IsFile(t, p[|prefix|..]) && KeptBelow(|prefix|, p, rules)
    decreases t
  {
    var n := |prefix|;
    forall i | 0 <= i < |t.dirs| {
      WalkMembers(prefix + [t.dirs[i].name], t.dirs[i].sub, rules, p);
    }
    KeptFilesMembers(prefix, t.files, rules, p);
    WalkDirsMembers(prefix, t.dirs, rules, p);
    if n < |p| && p[..n] == prefix {
      if |p| == n + 1 {
        assert p !in WalkDirs(prefix, t.dirs, rules);
      } else {
        assert p !in KeptFiles(prefix, t.files, rules);
        DeepMember(prefix, t, rules, p);
      }
    }
  }

  /**
   * The step of WalkMembers for a path at least two levels below `prefix`:
   * it lies in the sub-directory named by its next component.
   */
  lemma DeepMember(prefix: Path, t: Tree, rules: Rules, p: Path)
    requires |prefix| + 1 < |p| && p[..|prefix|] == prefix
    requires forall i | 0 <= i < |t.dirs| ::
      p in WalkFrom(prefix + [t.dirs[i].name], t.dirs[i].sub, rules) <==>
      p[..|prefix| + 1] == prefix + [t.dirs[i].name] && IsFile(t.dirs[i].sub, p[|prefix| + 1..]) && KeptBelow(|prefix| + 1, p, rules)
    ensures (exists i | 0 <= i < |t.dirs| :: rules.keepDir(prefix + [t.dirs[i].name]) && p in WalkFrom(prefix + [t.dirs[i].name], t.dirs[i].sub, rules))
      <==> IsFile(t, p[|prefix|..]) && KeptBelow(|prefix|, p, rules)
  {
    var n := |prefix|;
    var q := p[n..];
    var head := p[..n + 1];
    assert head == prefix + [p[n]];
    assert q[0] == p[n] && q[1..] == p[n + 1..];
    assert KeptBelow(n, p, rules) <==> rules.keepDir(head) && KeptBelow(n + 1, p, rules);
    forall i | 0 <= i < |t.dirs|
      ensures head == prefix + [t.dirs[i].name] <==> t.dirs[i].name == q[0]
    {
      SnocInjective(prefix, t.dirs[i].name, p[n]);
    }
  }

  /** Appending different elements to one sequence gives different sequences. */
  lemma SnocInjective<T>(s: seq<T>, x: T, y: T)
    ensures s + [x] == s + [y] <==> x == y
  {
    if s + [x] == s + [y] {
      assert (s + [x])[|s|] == x;
    }
  }

  /** The walk of a root reports exactly its visible files. */
  lemma WalkExact(t: Tree, opts: Options, p: Path)
    ensures p in Walk(t, opts) <==> IsFile(t, p) && Visible(p, opts)
  {
    var rules := RulesOf(opts);
    WalkMembers([], t, rules, p);
    assert p[..0] == [] && p[0..] == p;
    if |p| > 0 {
      assert KeptBelow(0, p, rules) <==> Visible(p, opts);
    }
  }

  /** Concatenating two duplicate-free sequences with no common element is duplicate-free. */
  lemma NoDupAppend<T>(a: seq<T>, b: seq<T>)
    requires NoDup(a) && NoDup(b)
    requires forall x | x in a :: x !in b
    ensures NoDup(a + b)
  {
    forall i, j | 0 <= i < j < |a + b| ensures (a + b)[i] != (a + b)[j] {
      if j < |a| {
      } else if i >= |a| {
        assert (a + b)[i] == b[i - |a|] && (a + b)[j] == b[j - |a|];
      } else {
        assert (a + b)[i] in a && (a + b)[j] == b[j - |a|];
      }
    }
  }

  /** The files reported for one directory are distinct when its file names are. */
  lemma {:induction false} KeptFilesNoDup(prefix: Path, names: seq<string>, rules: Rules)
    requires NoDup(names)
    ensures NoDup(KeptFiles(prefix, names, rules))
    decreases |names|
  {
    if names != [] {
      var init := names[..|names| - 1];
      var last := names[|names| - 1];
      var p := prefix + [last];
      KeptFilesNoDup(prefix, init, rules);
      forall x | x in KeptFiles(prefix, init, rules) ensures x != p {
        KeptFilesMembers(prefix, init, rules, x);
        assert last !in init;
      }
      NoDupAppend(KeptFiles(prefix, init, rules), if rules.keepFile(p) then [p] else []);
    }
  }

  /**
   * The walk below a listing whose names are distinct reports no path twice,
   * given that the walk of each listed sub-directory does not.
   */
  lemma {:induction false} WalkDirsNoDup(prefix: Path, ds: seq<Entry>, rules: Rules)
    requires forall i, j | 0 <= i < j < |ds| :: ds[i].name != ds[j].name
    requires forall i | 0 <= i < |ds| :: NoDup(WalkFrom(prefix + [ds[i].name], ds[i].sub, rules))
    ensures NoDup(WalkDirs(prefix, ds, rules))
    decreases |ds|
  {
    if ds != [] {
      var n := |prefix|;
      var ds' := ds[..|ds| - 1];
      var d := ds[|ds| - 1];
      var here := Part(prefix, d, rules);
      WalkDirsNoDup(prefix, ds', rules);
      forall x | x in here ensures |x| > n && x[n] == d.name {
        WalkUnder(prefix + [d.name], d.sub, rules, x);
      }
      assert forall i | 0 <= i < |ds'| :: ds'[i].name != d.name;
      forall x | x in WalkDirs(prefix, ds', rules) ensures x !in here {
        WalkDirsUnder(prefix, ds', rules, x);
      }
      NoDupAppend(WalkDirs(prefix, ds', rules), here);
    }
  }

  /** Every path reported below a listing lies in one of its sub-directories. */
  lemma WalkDirsUnder(prefix: Path, ds: seq<Entry>, rules: Rules, x: Path)
    requires x in WalkDirs(prefix, ds, rules)
    ensures |x| > |prefix| + 1 && exists i | 0 <= i < |ds| :: x[|prefix|] == ds[i].name
  {
    WalkDirsMembers(prefix, ds, rules, x);
    var i :| 0 <= i < |ds| && rules.keepDir(prefix + [ds[i].name]) && x in WalkFrom(prefix + [ds[i].name], ds[i].sub, rules);
    WalkUnder(prefix + [ds[i].name], ds[i].sub, rules, x);
  }

  /** Every path reported below `prefix` extends it, the last component being its own. */
  lemma WalkUnder(prefix: Path, t: Tree, rules: Rules, x: Path)
    requires x in WalkFrom(prefix, t, rules)
    ensures |x| > |prefix| && x[..|prefix|] == prefix
    ensures |prefix| > 0 ==> x[|prefix| - 1] == prefix[|prefix| - 1]
  {
    WalkMembers(prefix, t, rules, x);
    if |prefix| > 0 {
      assert x[..|prefix|][|prefix| - 1] == x[|prefix| - 1];
    }
  }

  /** In a well-formed tree the walk reports every path at most once. */
  lemma {:induction false} WalkNoDup(prefix: Path, t: Tree, rules: Rules)
    requires WellFormed(t)
    ensures NoDup(WalkFrom(prefix, t, rules))
    decreases t
  {
    forall i | 0 <= i < |t.dirs| ensures NoDup(WalkFrom(prefix + [t.dirs[i].name], t.dirs[i].sub, rules)) {
      WalkNoDup(prefix + [t.dirs[i].name], t.dirs[i].sub, rules);
    }
    KeptFilesNoDup(prefix, t.files, rules);
    WalkDirsNoDup(prefix, t.dirs, rules);
    forall x | x in KeptFiles(prefix, t.files, rules) ensures |x| == |prefix| + 1 {
      KeptFilesMembers(prefix, t.files, rules, x);
    }
    forall x | x in WalkDirs(prefix, t.dirs, rules) ensures |x| > |prefix| + 1 {
      WalkDirsUnder(prefix, t.dirs, rules, x);
    }
    NoDupAppend(KeptFiles(prefix, t.files, rules), WalkDirs(prefix, t.dirs, rules));
  }

  /**
   * No reported path ends with an ignored extension or equals an
   * `ignore_files` entry, none lies in a pruned directory, and with the
   * hidden rule on no component of it starts with '.'.
   */
  lemma WalkSound(t: Tree, opts: Options, p: Path)
    requires p in Walk(t, opts)
    ensures IsFile(t, p)
    ensures Join(p) !in opts.ignoreFiles
    ensures forall e | e in opts.ignoreExtensions :: !EndsWith(Join(p), e)
    ensures forall k, e | 0 < k < |p| && e in opts.ignoreFiles :: !DirIgnoredBy(Join(p[..k]), e)
    ensures opts.ignoreHidden ==> forall i | 0 <= i < |p| :: !Hidden(p[i])
  {
    WalkExact(t, opts, p);
    forall i | 0 <= i < |p| - 1 ensures KeepDir(p[..i + 1], opts) && p[..i + 1][i] == p[i] {
    }
  }

  /** Every visible file of the root is reported, and in a well-formed tree exactly once. */
  lemma WalkComplete(t: Tree, opts: Options, p: Path)
    requires WellFormed(t) && IsFile(t, p) && Visible(p, opts)
    ensures p in Walk(t, opts)
    ensures forall i, j | 0 <= i < j < |Walk(t, opts)| && Walk(t, opts)[i] == p :: Walk(t, opts)[j] != p
  {
    WalkExact(t, opts, p);
    WalkNoDup([], t, RulesOf(opts));
  }
}

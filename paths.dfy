/**
 * Relative paths and the string tests the synchroniser applies to them.
 *
 * A relative path is kept as its sequence of components; the text that
 * sync.py compares against the ignore lists is the components joined with
 * the POSIX separator, as `os.path.relpath` produces it.
 */
module Paths {

  type Path = seq<string>

  const Sep: char := '/'

  /** `s.startswith(pre)` of Python: the empty prefix matches every string. */
  predicate StartsWith(s: string, pre: string) {
    |pre| <= |s| && s[..|pre|] == pre
  }

  /** `s.endswith(suf)` of Python: the empty suffix matches every string. */
  predicate EndsWith(s: string, suf: string) {
    |suf| <= |s| && s[|s| - |suf|..] == suf
  }

  /** The components of a relative path joined with the separator ("a/b/c"). */
  function Join(p: Path): string {
    if |p| == 0 then ""
    else if |p| == 1 then p[0]
    else p[0] + [Sep] + Join(p[1..])
  }

  /**
   * Two-argument `os.path.join(a, b)` on POSIX: an absolute `b` replaces `a`;
   * otherwise a separator is inserted unless `a` is empty or already ends
   * with one.
   */
  function PathJoin(a: string, b: string): string {
    if StartsWith(b, [Sep]) then b
    else if a == "" || EndsWith(a, [Sep]) then a + b
    else a + [Sep] + b
  }

  /** The proper, non-empty prefixes of `p`: the directories that contain it. */
  function Ancestors(p: Path): (r: set<Path>)
    ensures forall a | a in r :: 0 < |a| < |p| && a == p[..|a|]
    ensures forall k | 0 < k < |p| :: p[..k] in r
  {
    set k | 0 < k < |p| :: p[..k]
  }

  /** No element occurs twice. */
  predicate NoDup<T(==)>(s: seq<T>) {
    forall i, j | 0 <= i < j < |s| :: s[i] != s[j]
  }

  /** `sub` lists some of the elements of `s`, in the order they appear in `s`. */
  predicate IsSubsequence<T(==)>(sub: seq<T>, s: seq<T>)
    decreases |s|
  {
    if sub == [] then true
    else if s == [] then false
    else if sub[|sub| - 1] == s[|s| - 1] then IsSubsequence(sub[..|sub| - 1], s[..|s| - 1])
    else IsSubsequence(sub, s[..|s| - 1])
  }

  /** A subsequence of `s` is one of `s + [x]`. */
  lemma SubsequenceSnoc<T>(sub: seq<T>, s: seq<T>, x: T)
    requires IsSubsequence(sub, s) && x !in sub
    ensures IsSubsequence(sub, s + [x])
  {
    assert (s + [x])[..|s|] == s;
    if sub != [] {
      assert sub[|sub| - 1] in sub;
    }
  }

  /** Extending both sequences by the same element keeps one a subsequence of the other. */
  lemma SubsequenceSnocBoth<T>(sub: seq<T>, s: seq<T>, x: T)
    requires IsSubsequence(sub, s)
    ensures IsSubsequence(sub + [x], s + [x])
  {
    assert (s + [x])[..|s|] == s;
    assert (sub + [x])[..|sub|] == sub;
  }

  /** Taking one more element of a sequence appends that element. */
  lemma TakeSnoc<T>(s: seq<T>, k: nat)
    requires k < |s|
    ensures s[..k + 1] == s[..k] + [s[k]]
  {
  }

  /** Concatenation is associative. */
  lemma AppendAssoc<T>(a: seq<T>, b: seq<T>, c: seq<T>)
    ensures (a + b) + c == a + (b + c)
  {
  }

  /**
   * Joining is injective on paths whose components are non-empty and free of
   * the separator: two files are the same file exactly when their relative
   * path strings are equal.
   */
  lemma {:induction false} JoinInjective(p: Path, q: Path)
    requires forall i | 0 <= i < |p| :: p[i] != "" && Sep !in p[i]
    requires forall i | 0 <= i < |q| :: q[i] != "" && Sep !in q[i]
    requires Join(p) == Join(q)
    ensures p == q
    decreases |p|
  {
    if |p| == 0 || |q| == 0 {
    } else if |p| == 1 && |q| == 1 {
    } else if |p| == 1 {
      JoinSep(q);
      assert false;
    } else if |q| == 1 {
      JoinSep(p);
      assert false;
    } else {
      var s := Join(p);
      assert s == p[0] + [Sep] + Join(p[1..]);
      assert s == q[0] + [Sep] + Join(q[1..]);
      FirstSep(p[0], Join(p[1..]), q[0], Join(q[1..]));
      JoinInjective(p[1..], q[1..]);
      assert p == [p[0]] + p[1..];
      assert q == [q[0]] + q[1..];
    }
  }

  /** A path of several components joins to a string holding a separator. */
  lemma JoinSep(p: Path)
    requires |p| > 1
    ensures Sep in Join(p)
  {
    assert Join(p)[|p[0]|] == Sep;
  }

  /** Splitting a string at its first separator is unique. */
  lemma FirstSep(a: string, x: string, b: string, y: string)
    requires Sep !in a && Sep !in b
    requires a + [Sep] + x == b + [Sep] + y
    ensures a == b && x == y
  {
    var s := a + [Sep] + x;
    assert forall i | 0 <= i < |a| :: s[i] == a[i] != Sep;
    assert forall i | 0 <= i < |b| :: s[i] == b[i] != Sep;
    assert s[|a|] == Sep && s[|b|] == Sep;
    assert |a| == |b|;
    assert a == s[..|a|] == b;
    assert x == s[|a| + 1..] == y;
  }
}

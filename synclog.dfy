/**
 * The text of the run log that `sync_folders` writes (sync.py:124-137): the
 * parameters, one summary line, and one line per file copied from A to B.
 * The values interpolated by the f-strings are rendered as Python renders
 * them: integers in decimal, booleans as True/False, lists and strings by
 * `repr`, a missing list as None.
 */
module SyncLog {
  import opened Wrappers
  import opened Paths
  import opened Reconcile

  /** The parameters of one `sync_folders` call, as the caller passed them. */
  datatype Config = Config(
    folderA: string,
    folderB: string,
    mostRecent: bool,
    ignoreFiles: Option<seq<string>>,
    ignoreExtensions: Option<seq<string>>,
    ignoreHidden: bool)

  // ---------------------------------------------------------------------
  // Decimal integers.
  // ---------------------------------------------------------------------

  predicate IsDigit(c: char) {
    '0' as int <= c as int <= '9' as int
  }

  function DigitChar(d: nat): (c: char)
    requires d < 10
    ensures IsDigit(c) && (c as int) - ('0' as int) == d
  {
    ('0' as int + d) as char
  }

  /** `str(n)` for a non-negative integer: its decimal digits, without leading zeros. */
  function NatToString(n: nat): string
    decreases n
  {
    if n < 10 then [DigitChar(n)] else NatToString(n / 10) + [DigitChar(n % 10)]
  }

  /** The number a string of decimal digits denotes. */
  function DecimalValue(s: string): nat
    requires forall i | 0 <= i < |s| :: IsDigit(s[i])
    decreases |s|
  {
    if s == [] then 0
    else DecimalValue(s[..|s| - 1]) * 10 + DigitValue(s[|s| - 1])
  }

  function DigitValue(c: char): nat
    requires IsDigit(c)
  {
    (c as int) - ('0' as int)
  }

  /** Rendering a count and reading it back gives the count; the rendering has no leading zero. */
  lemma {:induction false} DecimalRoundTrip(n: nat)
    ensures var s := NatToString(n);
      && |s| > 0
      && (forall i | 0 <= i < |s| :: IsDigit(s[i]))
      && DecimalValue(s) == n
      && (|s| > 1 ==> s[0] != '0')
    decreases n
  {
    if n >= 10 {
      DecimalRoundTrip(n / 10);
      var s := NatToString(n);
      assert s[..|s| - 1] == NatToString(n / 10);
    }
  }

  // ---------------------------------------------------------------------
  // `repr` of strings and of lists of strings.
  // ---------------------------------------------------------------------

  function HexDigit(d: nat): (c: char)
    requires d < 16
    ensures IsHex(c) && HexValue(c) == d
  {
    if d < 10 then DigitChar(d) else ('a' as int + d - 10) as char
  }

  predicate IsHex(c: char) {
    IsDigit(c) || 'a' as int <= c as int <= 'f' as int
  }

  function HexValue(c: char): (v: nat)
    requires IsHex(c)
    ensures v < 16
  {
    if IsDigit(c) then (c as int) - ('0' as int) else (c as int) - ('a' as int) + 10
  }

  /** The quote `repr` chooses: double quotes when the text holds a single quote and no double quote. */
  function QuoteFor(s: string): char {
    if '\'' in s && '"' !in s then '"' else '\''
  }

  /** A control character, which `repr` writes as a `\x` escape. */
  predicate IsControl(c: char) {
    (c as int) < 32 || c as int == 127
  }

  /** How `repr` writes one character inside quotes `q`. */
  function EscapeChar(c: char, q: char): string {
    if c == '\\' then "\\\\"
    else if c == q then ['\\', q]
    else if c == '\n' then "\\n"
    else if c == '\r' then "\\r"
    else if c == '\t' then "\\t"
    else if IsControl(c) then ['\\', 'x', HexDigit(c as int / 16), HexDigit(c as int % 16)]
    else [c]
  }

  /** The characters of `s` as `repr` writes them inside quotes `q`. */
  function Escape(s: string, q: char): string
    decreases |s|
  {
    if s == [] then "" else EscapeChar(s[0], q) + Escape(s[1..], q)
  }

  /** `repr(s)` of a string. */
  function Repr(s: string): string {
    var q := QuoteFor(s);
    [q] + Escape(s, q) + [q]
  }

  /** Prepend one character to a decoded text, if there is one. */
  function Cons(c: char, rest: Option<string>): Option<string> {
    match rest
    case None => None
    case Some(t) => Some([c] + t)
  }

  /** Decode the body of a string literal written with the escapes above. */
  function Unescape(t: string): Option<string>
    decreases |t|
  {
    if t == [] then Some("")
    else if t[0] != '\\' then Cons(t[0], Unescape(t[1..]))
    else if |t| < 2 then None
    else if t[1] == '\\' || t[1] == '\'' || t[1] == '"' then Cons(t[1], Unescape(t[2..]))
    else if t[1] == 'n' then Cons('\n', Unescape(t[2..]))
    else if t[1] == 'r' then Cons('\r', Unescape(t[2..]))
    else if t[1] == 't' then Cons('\t', Unescape(t[2..]))
    else if t[1] == 'x' && |t| >= 4 && IsHex(t[2]) && IsHex(t[3]) then
      Cons((HexValue(t[2]) * 16 + HexValue(t[3])) as char, Unescape(t[4..]))
    else None
  }

  /** Read back a quoted string literal. */
  function Unrepr(t: string): Option<string> {
    if |t| >= 2 && t[0] == t[|t| - 1] && (t[0] == '\'' || t[0] == '"') then Unescape(t[1..|t| - 1])
    else None
  }

  /** Decoding one escaped character and then the rest. */
  lemma UnescapeChar(c: char, q: char, rest: string)
    requires q == '\'' || q == '"'
    ensures Unescape(EscapeChar(c, q) + rest) == Cons(c, Unescape(rest))
  {
    var e := EscapeChar(c, q);
    var t := e + rest;
    if |e| == 1 {
      assert t[1..] == rest;
    } else if |e| == 2 {
      assert t[2..] == rest;
    } else {
      assert t[4..] == rest;
      var v := c as int;
      assert v == (v / 16) * 16 + v % 16;
    }
  }

  /** The escaped text decodes to the original. */
  lemma {:induction false} UnescapeEscape(s: string, q: char)
    requires q == '\'' || q == '"'
    ensures Unescape(Escape(s, q)) == Some(s)
    decreases |s|
  {
    if s != [] {
      UnescapeEscape(s[1..], q);
      UnescapeChar(s[0], q, Escape(s[1..], q));
      assert [s[0]] + s[1..] == s;
    }
  }

  /** `repr` of a string reads back as that string. */
  lemma ReprRoundTrip(s: string)
    ensures Unrepr(Repr(s)) == Some(s)
  {
    var r := Repr(s);
    assert r[1..|r| - 1] == Escape(s, QuoteFor(s));
    UnescapeEscape(s, QuoteFor(s));
  }

  /** `repr` of a list of strings: the element reprs, comma-separated, in brackets. */
  function ListRepr(l: seq<string>): string {
    "[" + JoinReprs(l) + "]"
  }

  function JoinReprs(l: seq<string>): string
    decreases |l|
  {
    if l == [] then ""
    else if |l| == 1 then Repr(l[0])
    else JoinReprs(l[..|l| - 1]) + ", " + Repr(l[|l| - 1])
  }

  /** An optional list as an f-string renders it: `None`, or its repr. */
  function OptionRepr(l: Option<seq<string>>): string {
    match l
    case None => "None"
    case Some(entries) => ListRepr(entries)
  }

  /** `str` of a bool. */
  function BoolText(b: bool): string {
    if b then "True" else "False"
  }

  // ---------------------------------------------------------------------
  // The log.
  // ---------------------------------------------------------------------

  /** The parameter block (sync.py:125-130), line by line; the last line is empty. */
  function HeaderLines(cfg: Config): seq<string> {
    [ "Parameters:",
      "  folderA: " + cfg.folderA,
      "  folderB: " + cfg.folderB,
      "  sync_most_recent: " + BoolText(cfg.mostRecent),
      "  ignore_files: " + OptionRepr(cfg.ignoreFiles),
      "  ignore_extensions: " + OptionRepr(cfg.ignoreExtensions),
      "" ]
  }

  /** The summary line (sync.py:131-133): files considered on both sides, copies in both directions. */
  function SummaryLine(cfg: Config, considered: nat, copied: nat, elapsed: string): string {
    "Synced " + NatToString(considered) + " files (" + NatToString(copied) + " copied) between "
      + cfg.folderA + " and " + cfg.folderB + " in " + elapsed + " seconds."
  }

  /** The line for one file copied from A to B (sync.py:134-137). */
  function CopyLine(cfg: Config, d: Decision): string {
    "Because of '" + StatusText(d.status) + "': "
      + PathJoin(cfg.folderA, Join(d.path)) + " ==> " + PathJoin(cfg.folderB, Join(d.path))
  }

  /** The lines for the A to B copies, in order. */
  function CopyLines(cfg: Config, ab: seq<Decision>): (r: seq<string>)
    ensures |r| == |ab|
    ensures forall i | 0 <= i < |ab| :: r[i] == CopyLine(cfg, ab[i])
    decreases |ab|
  {
    if ab == [] then [] else CopyLines(cfg, ab[..|ab| - 1]) + [CopyLine(cfg, ab[|ab| - 1])]
  }

  /**
   * The lines of the log: `considered` is the length of both file lists
   * together, `ab` the A to B decisions and `back` the number of B to A
   * decisions, which are counted but not listed.
   */
  function LogLines(cfg: Config, considered: nat, ab: seq<Decision>, back: nat, elapsed: string): seq<string> {
    HeaderLines(cfg) + [SummaryLine(cfg, considered, |ab| + back, elapsed)] + CopyLines(cfg, ab)
  }

  /** Lines written one after another, each ended by a line break. */
  function Unlines(lines: seq<string>): string
    decreases |lines|
  {
    if lines == [] then "" else lines[0] + "\n" + Unlines(lines[1..])
  }

  /** The text of the log file. */
  function LogText(cfg: Config, considered: nat, ab: seq<Decision>, back: nat, elapsed: string): string {
    Unlines(LogLines(cfg, considered, ab, back, elapsed))
  }

  /** Writing the log file: the parameter block and the summary, then one line per A to B copy. */
  method WriteLog(cfg: Config, considered: nat, ab: seq<Decision>, back: nat, elapsed: string) returns (text: string)
    ensures text == LogText(cfg, considered, ab, back, elapsed)
  {
    ghost var head := HeaderLines(cfg) + [SummaryLine(cfg, considered, |ab| + back, elapsed)];
    text := Unlines(HeaderLines(cfg) + [SummaryLine(cfg, considered, |ab| + back, elapsed)]);
    assert head + CopyLines(cfg, ab[..0]) == head;
    for i := 0 to |ab|
      invariant text == Unlines(head + CopyLines(cfg, ab[..i]))
    {
      assert ab[..i + 1][..i] == ab[..i];
      var line := CopyLine(cfg, ab[i]);
      UnlinesSnoc(head + CopyLines(cfg, ab[..i]), line);
      AppendAssoc(head, CopyLines(cfg, ab[..i]), [line]);
      text := text + (line + "\n");
    }
    assert ab[..|ab|] == ab;
  }

  /** Writing one more line appends it and its line break. */
  lemma {:induction false} UnlinesSnoc(lines: seq<string>, line: string)
    ensures Unlines(lines + [line]) == Unlines(lines) + (line + "\n")
    decreases |lines|
  {
    if lines == [] {
      assert [line][1..] == [];
    } else {
      assert (lines + [line])[1..] == lines[1..] + [line];
      UnlinesSnoc(lines[1..], line);
      AppendAssoc(lines[0] + "\n", Unlines(lines[1..]), line + "\n");
    }
  }

  // ---------------------------------------------------------------------
  // Reading the log back.
  // ---------------------------------------------------------------------

  /** The position of the first line break of `s`, or `|s|` when it has none. */
  function FirstBreak(s: string): (k: nat)
    ensures k <= |s|
    ensures k < |s| ==> s[k] == '\n'
    ensures forall i | 0 <= i < k :: s[i] != '\n'
    decreases |s|
  {
    if s == [] then 0 else if s[0] == '\n' then 0 else 1 + FirstBreak(s[1..])
  }

  /** `s.split("\n")` without the empty piece after a final line break: the lines of a text. */
  function SplitLines(s: string): seq<string>
    decreases |s|
  {
    if s == [] then []
    else
      var k := FirstBreak(s);
      if k == |s| then [s] else [s[..k]] + SplitLines(s[k + 1..])
  }

  /** No line holds a line break of its own. */
  predicate NoBreaks(lines: seq<string>) {
    forall i | 0 <= i < |lines| :: '\n' !in lines[i]
  }

  /** Splitting written lines gives them back. */
  lemma {:induction false} SplitUnlines(lines: seq<string>)
    requires NoBreaks(lines)
    ensures SplitLines(Unlines(lines)) == lines
    decreases |lines|
  {
    if lines != [] {
      var s := Unlines(lines);
      var l := lines[0];
      assert s == l + "\n" + Unlines(lines[1..]);
      BreakAfter(l, Unlines(lines[1..]));
      assert s[..|l|] == l && s[|l| + 1..] == Unlines(lines[1..]);
      SplitUnlines(lines[1..]);
      assert lines == [l] + lines[1..];
    }
  }

  /** The first line break of `a + "\n" + b`, when `a` has none, ends `a`. */
  lemma BreakAfter(a: string, b: string)
    requires '\n' !in a
    ensures FirstBreak(a + "\n" + b) == |a|
  {
    var s := a + "\n" + b;
    assert s[|a|] == '\n';
    assert forall i | 0 <= i < |a| :: s[i] == a[i] && a[i] != '\n';
  }

  /** `repr` never writes a raw line break: it escapes every control character. */
  lemma {:induction false} EscapeNoBreak(s: string, q: char)
    requires q == '\'' || q == '"'
    ensures '\n' !in Escape(s, q)
    decreases |s|
  {
    if s != [] {
      EscapeNoBreak(s[1..], q);
      assert '\n' !in EscapeChar(s[0], q);
    }
  }

  lemma {:induction false} JoinReprsNoBreak(l: seq<string>)
    ensures '\n' !in JoinReprs(l)
    decreases |l|
  {
    if l != [] {
      EscapeNoBreak(l[|l| - 1], QuoteFor(l[|l| - 1]));
      if |l| > 1 {
        JoinReprsNoBreak(l[..|l| - 1]);
      }
    }
  }

  lemma OptionReprNoBreak(l: Option<seq<string>>)
    ensures '\n' !in OptionRepr(l)
  {
    if l.Some? {
      JoinReprsNoBreak(l.value);
    }
  }

  /** No folder name, relative path of a copy, or elapsed-time text holds a line break. */
  predicate SingleLine(cfg: Config, ab: seq<Decision>, elapsed: string) {
    && '\n' !in cfg.folderA && '\n' !in cfg.folderB && '\n' !in elapsed
    && forall i | 0 <= i < |ab| :: '\n' !in Join(ab[i].path)
  }

  /** The log lines hold no line break of their own. */
  lemma LogLinesNoBreaks(cfg: Config, considered: nat, ab: seq<Decision>, back: nat, elapsed: string)
    requires SingleLine(cfg, ab, elapsed)
    ensures NoBreaks(LogLines(cfg, considered, ab, back, elapsed))
  {
    HeaderNoBreaks(cfg);
    SummaryNoBreak(cfg, considered, |ab| + back, elapsed);
    var lines := LogLines(cfg, considered, ab, back, elapsed);
    forall i | 8 <= i < |lines| ensures '\n' !in lines[i] {
      CopyLineNoBreak(cfg, ab[i - 8]);
    }
  }

  lemma HeaderNoBreaks(cfg: Config)
    requires '\n' !in cfg.folderA && '\n' !in cfg.folderB
    ensures NoBreaks(HeaderLines(cfg))
  {
    OptionReprNoBreak(cfg.ignoreFiles);
    OptionReprNoBreak(cfg.ignoreExtensions);
    var h := HeaderLines(cfg);
    assert '\n' !in h[0];
    Glue("  folderA: ", cfg.folderA);
    Glue("  folderB: ", cfg.folderB);
    Glue("  sync_most_recent: ", BoolText(cfg.mostRecent));
    Glue("  ignore_files: ", OptionRepr(cfg.ignoreFiles));
    Glue("  ignore_extensions: ", OptionRepr(cfg.ignoreExtensions));
    assert '\n' !in h[6];
  }

  lemma SummaryNoBreak(cfg: Config, considered: nat, copied: nat, elapsed: string)
    requires '\n' !in cfg.folderA && '\n' !in cfg.folderB && '\n' !in elapsed
    ensures '\n' !in SummaryLine(cfg, considered, copied, elapsed)
  {
    DecimalRoundTrip(considered);
    DecimalRoundTrip(copied);
    var s := "Synced " + NatToString(considered);
    Glue("Synced ", NatToString(considered));
    Glue(s, " files (");
    s := s + " files (";
    Glue(s, NatToString(copied));
    s := s + NatToString(copied);
    Glue(s, " copied) between ");
    s := s + " copied) between ";
    Glue(s, cfg.folderA);
    s := s + cfg.folderA;
    Glue(s, " and ");
    s := s + " and ";
    Glue(s, cfg.folderB);
    s := s + cfg.folderB;
    Glue(s, " in ");
    s := s + " in ";
    Glue(s, elapsed);
    s := s + elapsed;
    Glue(s, " seconds.");
  }

  lemma CopyLineNoBreak(cfg: Config, d: Decision)
    requires '\n' !in cfg.folderA && '\n' !in cfg.folderB && '\n' !in Join(d.path)
    ensures '\n' !in CopyLine(cfg, d)
  {
    var a := PathJoin(cfg.folderA, Join(d.path));
    var b := PathJoin(cfg.folderB, Join(d.path));
    PathJoinNoBreak(cfg.folderA, Join(d.path));
    PathJoinNoBreak(cfg.folderB, Join(d.path));
    var st := StatusText(d.status);
    assert '\n' !in st;
    var s := "Because of '" + st;
    Glue("Because of '", st);
    Glue(s, "': ");
    s := s + "': ";
    Glue(s, a);
    s := s + a;
    Glue(s, " ==> ");
    s := s + " ==> ";
    Glue(s, b);
  }

  lemma PathJoinNoBreak(a: string, b: string)
    requires '\n' !in a && '\n' !in b
    ensures '\n' !in PathJoin(a, b)
  {
    Glue(a, b);
    Glue(a, [Sep]);
    Glue(a + [Sep], b);
  }

  /** Joining two texts without line breaks gives none. */
  lemma Glue(a: string, b: string)
    requires '\n' !in a && '\n' !in b
    ensures '\n' !in a + b
  {
  }

  /**
   * Reading the log back line by line gives the parameter block (seven
   * lines, the last empty), the summary, and then exactly one line per A to
   * B copy, in order: the B to A copies are counted in the summary but get no
   * line.
   */
  lemma LogReadsBack(cfg: Config, considered: nat, ab: seq<Decision>, back: nat, elapsed: string)
    requires SingleLine(cfg, ab, elapsed)
    ensures var lines := SplitLines(LogText(cfg, considered, ab, back, elapsed));
      && |lines| == 8 + |ab|
      && lines[..7] == HeaderLines(cfg)
      && lines[7] == SummaryLine(cfg, considered, |ab| + back, elapsed)
      && forall i | 0 <= i < |ab| :: lines[8 + i] == CopyLine(cfg, ab[i])
  {
    LogLinesNoBreaks(cfg, considered, ab, back, elapsed);
    SplitUnlines(LogLines(cfg, considered, ab, back, elapsed));
  }
}

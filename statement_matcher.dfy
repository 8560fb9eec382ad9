/**
 * The per-line decision of the diagnostic-statement remover
 * (`LogCleaner.should_remove_line` and `LogCleaner.get_statement_type`).
 *
 * Every regular expression of the cleaner is written twice: once as the
 * regex reads ("there are positions such that ..."), as a ghost predicate
 * named ...Shape, and once as a deterministic recogniser that skips each
 * greedy run to its end. The ...Iff lemmas prove the two agree, so the
 * recognisers used by the model decide exactly what the patterns match.
 */
module StatementMatcher {
  import opened Wrappers
  import opened Text

  /** The 21 console methods, in the order of the cleaner's list. */
  const ConsoleMethods: seq<string> := [
    "log", "error", "warn", "info", "debug",
    "trace", "dir", "dirxml", "table", "count",
    "countReset", "assert", "clear", "group",
    "groupEnd", "groupCollapsed", "time", "timeEnd",
    "timeLog", "profile", "profileEnd"
  ]

  /** The extensions (as `os.path.splitext` returns them) that use the console pattern. */
  const ScriptFileTypes: seq<string> := [".js", ".jsx", ".ts", ".tsx"]

  /** The one extension that uses the Python logging patterns. */
  const PythonFileType: string := ".py"

  const Semicolon: set<char> := {';'}
  const CloseParen: set<char> := {')'}
  const Parens: set<char> := {'(', ')'}

  /*************************************************************************
   * Shared pieces
   *************************************************************************/

  /** `\b` at p: a word character on exactly one side of p. */
  predicate WordBoundary(s: string, p: int)
    requires 0 <= p <= |s|
  {
    (p > 0 && IsWordChar(s[p - 1])) != (p < |s| && IsWordChar(s[p]))
  }

  /** `\s*` (plus == false) or `\s+` (plus == true) from a, ending at q. */
  predicate WsGap(s: string, a: int, q: int, plus: bool) {
    Run(s, a, q, Space) && (plus ==> a < q)
  }

  /** Recogniser: skip the whitespace after a, then find w. */
  predicate WsThen(s: string, a: nat, w: string, plus: bool)
    requires a <= |s|
  {
    var q := RunEnd(s, a, Space);
    (plus ==> a < q) && LitAt(s, q, w)
  }

  lemma WsThenIff(s: string, a: nat, w: string, plus: bool)
    requires a <= |s| && w != [] && !IsSpace(w[0])
    ensures WsThen(s, a, w, plus) <==> exists q :: WsGap(s, a, q, plus) && LitAt(s, q, w)
  {
    if q :| WsGap(s, a, q, plus) && LitAt(s, q, w) {
      assert s[q] == w[0];
      RunEndUnique(s, a, q, Space);
    }
  }

  /**
   * `[a-zA-Z]+\([^)]*\)` from q when spaced is false, and
   * `[a-zA-Z]+\s*\(\s*(?:[^()]*?\s*\+?\s*)*[^()]*?\)` when it is true.
   * In the second, every piece between the parentheses excludes both
   * parentheses, so the group matches any text without one.
   */
  ghost predicate CallShape(s: string, q: int, spaced: bool, e: int, r: int, j: int) {
    q < e && Run(s, q, e, Letter) && (if spaced then Run(s, e, r, Space) else r == e)
    && r < |s| && s[r] == '(' && ClosesAt(s, r + 1, j, if spaced then Parens else CloseParen)
  }

  predicate CallFrom(s: string, q: nat, spaced: bool)
    requires q <= |s|
  {
    var e := RunEnd(s, q, Letter);
    var r := if spaced then RunEnd(s, e, Space) else e;
    q < e && r < |s| && s[r] == '(' && Closes(s, r + 1, if spaced then Parens else CloseParen)
  }

  lemma CallFromIff(s: string, q: nat, spaced: bool)
    requires q <= |s|
    ensures CallFrom(s, q, spaced) <==> exists e, r, j :: CallShape(s, q, spaced, e, r, j)
  {
    var e := RunEnd(s, q, Letter);
    var r := if spaced then RunEnd(s, e, Space) else e;
    if CallFrom(s, q, spaced) {
      var j :| ClosesAt(s, r + 1, j, if spaced then Parens else CloseParen);
      assert CallShape(s, q, spaced, e, r, j);
    }
    if e', r', j' :| CallShape(s, q, spaced, e', r', j') {
      if spaced {
        if e' < r' {
          assert IsSpace(s[e']);
        }
        RunEndUnique(s, q, e', Letter);
        RunEndUnique(s, e', r', Space);
      } else {
        RunEndUnique(s, q, e', Letter);
      }
      assert Closes(s, r' + 1, if spaced then Parens else CloseParen);
    }
  }

  /*************************************************************************
   * The console pattern
   *   \bconsole\.(log|error|...)\s*\(\s*(?:[^;]*?\s*\+?\s*)*[^;]*?\);?
   * Every piece after the opening parenthesis excludes ';' only, and the
   * trailing ';?' can match nothing, so a match needs a later ')' with no
   * ';' before it.
   *************************************************************************/

  /** `m\s*\(` ... `\)` after position q, with the ')' at j. */
  ghost predicate ConsoleCallShape(s: string, q: int, m: string, r: int, j: int) {
    LitAt(s, q, m) && Run(s, q + |m|, r, Space) && r < |s| && s[r] == '('
    && ClosesAt(s, r + 1, j, Semicolon)
  }

  /** The console pattern, as the regex reads, matching at p. */
  ghost predicate ConsoleShapeAt(s: string, p: int) {
    0 <= p <= |s| && WordBoundary(s, p) && LitAt(s, p, "console.")
    && var q := p + 8;
    exists m, r, j :: m in ConsoleMethods && ConsoleCallShape(s, q, m, r, j)
  }

  /** Recogniser for one alternative of the method group. */
  predicate ConsoleCall(s: string, q: nat, m: string)
    requires q <= |s|
  {
    LitAt(s, q, m) &&
    var r := RunEnd(s, q + |m|, Space);
    r < |s| && s[r] == '(' && Closes(s, r + 1, Semicolon)
  }

  lemma ConsoleCallIff(s: string, q: nat, m: string)
    requires q <= |s| && m != []
    ensures ConsoleCall(s, q, m) <==> exists r, j :: ConsoleCallShape(s, q, m, r, j)
  {
    if ConsoleCall(s, q, m) {
      var r := RunEnd(s, q + |m|, Space);
      var j :| ClosesAt(s, r + 1, j, Semicolon);
      assert ConsoleCallShape(s, q, m, r, j);
    }
    if r, j :| ConsoleCallShape(s, q, m, r, j) {
      RunEndUnique(s, q + |m|, r, Space);
      assert Closes(s, r + 1, Semicolon);
    }
  }

  /** Some method of ConsoleMethods[k..] is called after q. */
  function AnyConsoleCall(s: string, q: nat, k: nat): (r: bool)
    requires q <= |s|
    ensures r <==> exists i :: k <= i < |ConsoleMethods| && ConsoleCall(s, q, ConsoleMethods[i])
    decreases |ConsoleMethods| - k
  {
    if k >= |ConsoleMethods| then false
    else
      var n := k + 1;
      ConsoleCall(s, q, ConsoleMethods[k]) || AnyConsoleCall(s, q, n)
  }

  /** Recogniser for the console pattern at p. */
  predicate ConsoleAt(s: string, p: nat)
    requires p <= |s|
  {
    WordBoundary(s, p) && LitAt(s, p, "console.") && AnyConsoleCall(s, p + 8, 0)
  }

  lemma ConsoleAtIff(s: string, p: nat)
    requires p <= |s|
    ensures ConsoleAt(s, p) <==> ConsoleShapeAt(s, p)
  {
    if LitAt(s, p, "console.") {
      var q := p + 8;
      forall i | 0 <= i < |ConsoleMethods|
        ensures ConsoleCall(s, q, ConsoleMethods[i]) <==> exists r, j :: ConsoleCallShape(s, q, ConsoleMethods[i], r, j)
      {
        ConsoleCallIff(s, q, ConsoleMethods[i]);
      }
    }
  }

  /** A position at or after i where the console pattern matches. */
  function ConsoleSearchFrom(s: string, i: nat): (r: bool)
    requires i <= |s|
    ensures r <==> exists p :: i <= p <= |s| && ConsoleAt(s, p)
  {
    var m := (p: nat) => p <= |s| && ConsoleAt(s, p);
    var r := SearchFrom(m, |s|, i);
    assert r ==> exists p :: i <= p <= |s| && ConsoleAt(s, p) by {
      if r {
        var p :| i <= p <= |s| && m(p);
      }
    }
    assert (exists p :: i <= p <= |s| && ConsoleAt(s, p)) ==> r by {
      if p :| i <= p <= |s| && ConsoleAt(s, p) {
        assert m(p);
      }
    }
    r
  }

  /** A position in [i, n] where m holds: what `re.search` scans for. */
  function SearchFrom(m: nat -> bool, n: nat, i: nat): (r: bool)
    requires i <= n
    ensures r <==> exists p :: i <= p <= n && m(p)
    decreases n - i
  {
    if m(i) then true
    else if i == n then false
    else SearchFrom(m, n, i + 1)
  }

  /** `compiled_console_pattern.search(line)` */
  predicate ConsoleSearch(s: string) {
    ConsoleSearchFrom(s, 0)
  }

  /*************************************************************************
   * The seven Python logging patterns, in the cleaner's order.
   *************************************************************************/

  datatype PyPattern =
    | ImportLogging      // import\s+logging\s*(?:as\s+\w+)?\s*
    | FromLoggingImport  // from\s+logging\s+import\s+.*
    | GetLoggerAssign    // _?logger\s*=\s*logging\.getLogger\([^)]*\)
    | LoggingCall        // logging\.[a-zA-Z]+\([^)]*\)
    | LoggerCall         // _?logger\.[a-zA-Z]+\([^)]*\)
    | LoggingCallSpaced  // logging\.[a-zA-Z]+\s*\(\s*(?:[^()]*?\s*\+?\s*)*[^()]*?\)
    | LoggerCallSpaced   // _?logger\.[a-zA-Z]+\s*\(\s*(?:[^()]*?\s*\+?\s*)*[^()]*?\)

  const PythonPatterns: seq<PyPattern> := [
    ImportLogging, FromLoggingImport, GetLoggerAssign,
    LoggingCall, LoggerCall, LoggingCallSpaced, LoggerCallSpaced
  ]

  /** `logger\s*=\s*logging\.getLogger\([^)]*\)` from q, as the regex reads. */
  ghost predicate AssignShape(s: string, q: int, a: int, b: int, j: int) {
    LitAt(s, q, "logger") && Run(s, q + 6, a, Space) && a < |s| && s[a] == '='
    && Run(s, a + 1, b, Space) && LitAt(s, b, "logging.getLogger(") && ClosesAt(s, b + 18, j, CloseParen)
  }

  /** Each pattern, as the regex reads, matching at p. */
  ghost predicate PyShapeAt(pat: PyPattern, s: string, p: int)
    requires 0 <= p <= |s|
  {
    match pat
    // The optional tail `\s*(?:as\s+\w+)?\s*` can always match nothing.
    case ImportLogging =>
      LitAt(s, p, "import") && var a := p + 6;
      exists q :: WsGap(s, a, q, true) && LitAt(s, q, "logging")
    // `\s+.*` needs exactly one whitespace character after `import`.
    case FromLoggingImport =>
      LitAt(s, p, "from") && var a := p + 4;
      exists q1, q2 :: FromShape(s, a, q1, q2)
    case GetLoggerAssign =>
      AssignShapeFrom(s, p) || (p < |s| && s[p] == '_' && AssignShapeFrom(s, p + 1))
    case LoggingCall =>
      LitAt(s, p, "logging.") && CallShapeFrom(s, p + 8, false)
    case LoggerCall =>
      LoggerCallShapeFrom(s, p, false) || (p < |s| && s[p] == '_' && LoggerCallShapeFrom(s, p + 1, false))
    case LoggingCallSpaced =>
      LitAt(s, p, "logging.") && CallShapeFrom(s, p + 8, true)
    case LoggerCallSpaced =>
      LoggerCallShapeFrom(s, p, true) || (p < |s| && s[p] == '_' && LoggerCallShapeFrom(s, p + 1, true))
  }

  ghost predicate AssignShapeFrom(s: string, q: int) {
    exists a, b, j :: AssignShape(s, q, a, b, j)
  }

  ghost predicate CallShapeFrom(s: string, q: int, spaced: bool) {
    exists e, r, j :: CallShape(s, q, spaced, e, r, j)
  }

  /** `logger\.` followed by a call, from q (the part after the optional underscore). */
  ghost predicate LoggerCallShapeFrom(s: string, q: int, spaced: bool) {
    LitAt(s, q, "logger.") && CallShapeFrom(s, q + 7, spaced)
  }

  /** Recogniser for `logger\s*=\s*logging\.getLogger\([^)]*\)` from q. */
  predicate AssignFrom(s: string, q: nat)
    requires q <= |s|
  {
    LitAt(s, q, "logger") && EqualsAt(s, RunEnd(s, q + 6, Space))
  }

  /** `=\s*logging\.getLogger\([^)]*\)` from a. */
  predicate EqualsAt(s: string, a: nat)
    requires a <= |s|
  {
    a < |s| && s[a] == '=' && GetLoggerAt(s, RunEnd(s, a + 1, Space))
  }

  /** `logging\.getLogger\([^)]*\)` from b. */
  predicate GetLoggerAt(s: string, b: nat)
    requires b <= |s|
  {
    LitAt(s, b, "logging.getLogger(") && Closes(s, b + 18, CloseParen)
  }

  lemma AssignFromIff(s: string, q: nat)
    requires q <= |s|
    ensures AssignFrom(s, q) <==> AssignShapeFrom(s, q)
  {
    if AssignFrom(s, q) {
      AssignFromSound(s, q);
    }
    if AssignShapeFrom(s, q) {
      AssignFromComplete(s, q);
    }
  }

  lemma AssignFromSound(s: string, q: nat)
    requires q <= |s| && AssignFrom(s, q)
    ensures AssignShapeFrom(s, q)
  {
    var a := RunEnd(s, q + 6, Space);
    var b := RunEnd(s, a + 1, Space);
    var j :| ClosesAt(s, b + 18, j, CloseParen);
    assert AssignShape(s, q, a, b, j);
  }

  lemma AssignFromComplete(s: string, q: nat)
    requires q <= |s| && AssignShapeFrom(s, q)
    ensures AssignFrom(s, q)
  {
    var a, b, j :| AssignShape(s, q, a, b, j);
    RunEndUnique(s, q + 6, a, Space);
    AssignRightSide(s, a, b, j);
    assert GetLoggerAt(s, b);
    assert EqualsAt(s, a);
  }

  /** After the '=', the recogniser skips exactly the blanks the regex skips. */
  lemma AssignRightSide(s: string, a: nat, b: nat, j: nat)
    requires a < |s| && Run(s, a + 1, b, Space) && LitAt(s, b, "logging.getLogger(") && ClosesAt(s, b + 18, j, CloseParen)
    ensures RunEnd(s, a + 1, Space) == b && Closes(s, b + 18, CloseParen)
  {
    LitAtHead(s, b, "logging.getLogger(");
    RunEndUnique(s, a + 1, b, Space);
  }

  /** Recogniser for each pattern at p. */
  predicate PyAt(pat: PyPattern, s: string, p: nat)
    requires p <= |s|
  {
    match pat
    case ImportLogging =>
      LitAt(s, p, "import") && WsThen(s, p + 6, "logging", true)
    case FromLoggingImport =>
      LitAt(s, p, "from") && FromTail(s, p + 4)
    case GetLoggerAssign =>
      AssignFrom(s, p) || (p < |s| && s[p] == '_' && AssignFrom(s, p + 1))
    case LoggingCall =>
      LitAt(s, p, "logging.") && CallFrom(s, p + 8, false)
    case LoggerCall =>
      LoggerCallFrom(s, p, false) || (p < |s| && s[p] == '_' && LoggerCallFrom(s, p + 1, false))
    case LoggingCallSpaced =>
      LitAt(s, p, "logging.") && CallFrom(s, p + 8, true)
    case LoggerCallSpaced =>
      LoggerCallFrom(s, p, true) || (p < |s| && s[p] == '_' && LoggerCallFrom(s, p + 1, true))
  }

  predicate LoggerCallFrom(s: string, q: nat, spaced: bool)
    requires q <= |s|
  {
    LitAt(s, q, "logger.") && CallFrom(s, q + 7, spaced)
  }

  lemma PyAtIff(pat: PyPattern, s: string, p: nat)
    requires p <= |s|
    ensures PyAt(pat, s, p) <==> PyShapeAt(pat, s, p)
  {
    match pat
    case ImportLogging =>
      if LitAt(s, p, "import") {
        WsThenIff(s, p + 6, "logging", true);
      }
    case FromLoggingImport =>
      FromImportIff(s, p);
    case GetLoggerAssign =>
      AssignFromIff(s, p);
      if p < |s| && s[p] == '_' {
        AssignFromIff(s, p + 1);
      }
    case LoggingCall =>
      if LitAt(s, p, "logging.") {
        CallFromIff(s, p + 8, false);
      }
    case LoggerCall =>
      LoggerCallFromIff(s, p, false);
      if p < |s| && s[p] == '_' {
        LoggerCallFromIff(s, p + 1, false);
      }
    case LoggingCallSpaced =>
      if LitAt(s, p, "logging.") {
        CallFromIff(s, p + 8, true);
      }
    case LoggerCallSpaced =>
      LoggerCallFromIff(s, p, true);
      if p < |s| && s[p] == '_' {
        LoggerCallFromIff(s, p + 1, true);
      }
  }

  /** `\s+logging\s+import\s` from a. */
  predicate FromTail(s: string, a: nat)
    requires a <= |s|
  {
    WsThen(s, a, "logging", true) && ImportTail(s, RunEnd(s, a, Space) + 7)
  }

  /** `\s+import\s` from b. */
  predicate ImportTail(s: string, b: nat)
    requires b <= |s|
  {
    WsThen(s, b, "import", true) && var q2 := RunEnd(s, b, Space); q2 + 6 < |s| && IsSpace(s[q2 + 6])
  }

  /** `\s+logging\s+import\s` from a, with the words at q1 and q2. */
  predicate FromShape(s: string, a: nat, q1: int, q2: int) {
    WsGap(s, a, q1, true) && LitAt(s, q1, "logging") && WsGap(s, q1 + 7, q2, true)
    && LitAt(s, q2, "import") && q2 + 6 < |s| && IsSpace(s[q2 + 6])
  }

  lemma FromImportIff(s: string, p: nat)
    requires p <= |s|
    ensures PyAt(FromLoggingImport, s, p) <==> PyShapeAt(FromLoggingImport, s, p)
  {
    if PyAt(FromLoggingImport, s, p) {
      var q1 := RunEnd(s, p + 4, Space);
      var q2 := RunEnd(s, q1 + 7, Space);
      assert FromShape(s, p + 4, q1, q2);
    }
    if PyShapeAt(FromLoggingImport, s, p) {
      FromImportComplete(s, p);
    }
  }

  lemma FromImportComplete(s: string, p: nat)
    requires p <= |s| && PyShapeAt(FromLoggingImport, s, p)
    ensures PyAt(FromLoggingImport, s, p)
  {
    var a := p + 4;
    var q1, q2 :| FromShape(s, a, q1, q2);
    ImportTailFrom(s, q1 + 7, q2);
    FromTailFrom(s, a, q1);
  }

  lemma ImportTailFrom(s: string, b: nat, q2: nat)
    requires b <= |s| && WsGap(s, b, q2, true) && LitAt(s, q2, "import") && q2 + 6 < |s| && IsSpace(s[q2 + 6])
    ensures ImportTail(s, b)
  {
    GapThenWord(s, b, q2, "import");
  }

  lemma FromTailFrom(s: string, a: nat, q1: nat)
    requires a <= |s| && WsGap(s, a, q1, true) && LitAt(s, q1, "logging") && q1 + 7 <= |s| && ImportTail(s, q1 + 7)
    ensures FromTail(s, a)
  {
    GapThenWord(s, a, q1, "logging");
  }

  /** A run of blanks followed by a word is the longest run of blanks there. */
  lemma GapThenWord(s: string, a: nat, q: nat, w: string)
    requires Run(s, a, q, Space) && LitAt(s, q, w) && w != [] && !IsSpace(w[0])
    ensures RunEnd(s, a, Space) == q
  {
    LitAtHead(s, q, w);
    RunEndUnique(s, a, q, Space);
  }

  lemma LoggerCallFromIff(s: string, q: nat, spaced: bool)
    requires q <= |s|
    ensures LoggerCallFrom(s, q, spaced) <==> LoggerCallShapeFrom(s, q, spaced)
  {
    if LitAt(s, q, "logger.") {
      CallFromIff(s, q + 7, spaced);
    }
  }

  /** A position at or after i where pattern pat matches. */
  function PySearchFrom(pat: PyPattern, s: string, i: nat): (r: bool)
    requires i <= |s|
    ensures r <==> exists p :: i <= p <= |s| && PyAt(pat, s, p)
  {
    var m := (p: nat) => p <= |s| && PyAt(pat, s, p);
    var r := SearchFrom(m, |s|, i);
    assert r ==> exists p :: i <= p <= |s| && PyAt(pat, s, p) by {
      if r {
        var p :| i <= p <= |s| && m(p);
      }
    }
    assert (exists p :: i <= p <= |s| && PyAt(pat, s, p)) ==> r by {
      if p :| i <= p <= |s| && PyAt(pat, s, p) {
        assert m(p);
      }
    }
    r
  }

  /** Some pattern of PythonPatterns[k..] matches somewhere in s. */
  function AnyPySearch(s: string, k: nat): (r: bool)
    ensures r <==> exists i :: k <= i < |PythonPatterns| && PySearchFrom(PythonPatterns[i], s, 0)
    decreases |PythonPatterns| - k
  {
    if k >= |PythonPatterns| then false
    else
      var n := k + 1;
      PySearchFrom(PythonPatterns[k], s, 0) || AnyPySearch(s, n)
  }

  /** `any(pattern.search(line) for pattern in compiled_python_patterns)` */
  predicate PythonSearch(s: string) {
    AnyPySearch(s, 0)
  }

  /*************************************************************************
   * should_remove_line
   *************************************************************************/

  /** `not stripped_line or stripped_line.startswith('#')` */
  predicate BlankOrComment(line: string) {
    var t := Strip(line);
    t == [] || t[0] == '#'
  }

  /** `LogCleaner.should_remove_line(line, file_type)` */
  predicate ShouldRemoveLine(line: string, fileType: string)
    ensures ShouldRemoveLine(line, fileType) ==>
              !BlankOrComment(line) && (fileType in ScriptFileTypes || fileType == PythonFileType)
  {
    if BlankOrComment(line) then false
    else if fileType in ScriptFileTypes then ConsoleSearch(line)
    else if fileType == PythonFileType then PythonSearch(line)
    else false
  }

  /** ".py" is not one of the script extensions. */
  lemma PythonIsNotScript()
    ensures PythonFileType !in ScriptFileTypes
  {
  }

  /**
   * A line is exempt exactly when it is all whitespace or its first
   * character other than whitespace is '#'; `//` gets no such treatment.
   */
  lemma BlankOrCommentMeaning(line: string)
    ensures BlankOrComment(line) <==>
              Run(line, 0, |line|, Space) || exists a :: Run(line, 0, a, Space) && a < |line| && line[a] == '#'
  {
    var t := Strip(line);
    if a :| Run(line, 0, a, Space) && a < |line| && line[a] == '#' {
      RunEndUnique(line, 0, a, Space);
      StripFirst(line);
    }
    if t != [] && t[0] == '#' {
      StripFirst(line);
    }
  }

  /**
   * What should_remove_line decides, stated with the patterns as the
   * regular expressions read: a line that is not blank or a '#' comment is
   * removable in a script file iff the console pattern matches somewhere,
   * in a Python file iff one of the seven patterns does, and never for any
   * other extension (compared exactly, so ".JS" removes nothing).
   */
  lemma ShouldRemoveLineMeaning(line: string, fileType: string)
    ensures ShouldRemoveLine(line, fileType) <==>
              !BlankOrComment(line) &&
              ((fileType in ScriptFileTypes && exists p :: ConsoleShapeAt(line, p)) ||
               (fileType == PythonFileType &&
                exists pat, p :: pat in PythonPatterns && 0 <= p <= |line| && PyShapeAt(pat, line, p)))
  {
    if BlankOrComment(line) {
    } else if fileType in ScriptFileTypes {
      ConsoleSearchMeaning(line);
    } else if fileType == PythonFileType {
      PythonSearchMeaning(line);
    }
  }

  /** re.search with the console pattern finds a match iff the pattern matches at some position. */
  lemma ConsoleSearchMeaning(line: string)
    ensures ConsoleSearch(line) <==> exists p :: ConsoleShapeAt(line, p)
  {
    if ConsoleSearch(line) {
      var p :| 0 <= p <= |line| && ConsoleAt(line, p);
      ConsoleAtIff(line, p);
    }
    if p :| ConsoleShapeAt(line, p) {
      ConsoleAtIff(line, p);
      assert ConsoleSearchFrom(line, 0);
    }
  }

  /** One of the seven Python patterns is found iff one matches at some position. */
  lemma PythonSearchMeaning(line: string)
    ensures PythonSearch(line) <==>
              exists pat, p :: pat in PythonPatterns && 0 <= p <= |line| && PyShapeAt(pat, line, p)
  {
    if PythonSearch(line) {
      var i :| 0 <= i < |PythonPatterns| && PySearchFrom(PythonPatterns[i], line, 0);
      var p :| 0 <= p <= |line| && PyAt(PythonPatterns[i], line, p);
      PyAtIff(PythonPatterns[i], line, p);
      assert PythonPatterns[i] in PythonPatterns;
    }
    if pat, p :| pat in PythonPatterns && 0 <= p <= |line| && PyShapeAt(pat, line, p) {
      PyAtIff(pat, line, p);
      var i :| 0 <= i < |PythonPatterns| && PythonPatterns[i] == pat;
      assert PySearchFrom(PythonPatterns[i], line, 0);
    }
  }

  /*************************************************************************
   * get_statement_type
   *************************************************************************/

  /**
   * The leftmost occurrence at or after i of w followed by a word
   * character: where the regex `w(\w+)` (w with its dot escaped) first
   * matches.
   */
  function WordMatchFrom(s: string, w: string, i: nat): (r: Option<nat>)
    ensures r.Some? ==> i <= r.value && WordMatchAt(s, w, r.value)
    ensures r.Some? ==> forall q :: i <= q < r.value ==> !WordMatchAt(s, w, q)
    ensures r.None? ==> forall q :: i <= q ==> !WordMatchAt(s, w, q)
    decreases |s| - i
  {
    if i + |w| >= |s| then None
    else if WordMatchAt(s, w, i) then Some(i)
    else
      var n := i + 1;
      WordMatchFrom(s, w, n)
  }

  /** w occurs at p and a word character follows it. */
  predicate WordMatchAt(s: string, w: string, p: int) {
    LitAt(s, p, w) && p + |w| < |s| && IsWordChar(s[p + |w|])
  }

  /** Group 1 of the leftmost match of `w(\w+)`: the longest word run after w. */
  function WordGroup(s: string, w: string): (r: Option<string>)
    ensures r.Some? ==> r.value != [] && forall k :: 0 <= k < |r.value| ==> IsWordChar(r.value[k])
    ensures r.Some? <==> exists p :: WordMatchAt(s, w, p)
  {
    match WordMatchFrom(s, w, 0)
    case None => None
    case Some(p) =>
      var a := p + |w|;
      Some(s[a..RunEnd(s, a, Word)])
  }

  /** The group is read at the leftmost match, up to the end of its word run. */
  lemma WordGroupAt(s: string, w: string, p: nat, e: nat)
    requires WordMatchAt(s, w, p) && forall q :: 0 <= q < p ==> !WordMatchAt(s, w, q)
    requires Run(s, p + |w|, e, Word) && (e == |s| || !IsWordChar(s[e]))
    ensures WordGroup(s, w) == Some(s[p + |w|..e])
  {
    RunEndUnique(s, p + |w|, e, Word);
  }

  /** `LogCleaner.get_statement_type(line, file_type)` */
  function StatementType(line: string, fileType: string): (r: string)
    ensures fileType !in ScriptFileTypes && fileType != PythonFileType ==> r == "unknown"
    ensures fileType in ScriptFileTypes ==> r == "unknown" || "console." <= r
  {
    if fileType in ScriptFileTypes then
      match WordGroup(line, "console.")
      case Some(m) => "console." + m
      case None => "unknown"
    else if fileType == PythonFileType then
      if Contains(line, "import logging") then "logging_import"
      else if Contains(line, "getLogger") then "logger_definition"
      else if Contains(line, "_logger.") || Contains(line, "logger.") then
        // The optional underscore of `_?logger\.(\w+)` never changes which
        // `logger.` occurrence the leftmost match reads its word after.
        match WordGroup(line, "logger.")
        case Some(m) => "logger." + m
        case None => "logger_statement"
      else if Contains(line, "logging.") then
        match WordGroup(line, "logging.")
        case Some(m) => "logging." + m
        case None => "logging_statement"
      else "unknown"
    else "unknown"
  }

  /** Every console method name starts with a word character. */
  lemma ConsoleMethodsStartWithWord()
    ensures forall i :: 0 <= i < |ConsoleMethods| ==> ConsoleMethods[i] != [] && IsWordChar(ConsoleMethods[i][0])
  {
  }

  /**
   * A script line the cleaner removes is always reported under a
   * `console.<name>` tag, never as "unknown".
   */
  lemma RemovedScriptLineIsTagged(line: string, fileType: string)
    requires fileType in ScriptFileTypes && ShouldRemoveLine(line, fileType)
    ensures exists m :: m != [] && StatementType(line, fileType) == "console." + m
  {
    ConsoleMatchHasWord(line);
    ScriptTagIsConsoleGroup(line, fileType);
    var m := WordGroup(line, "console.").value;
    assert m != [];
  }

  /** For a script file the tag is read from the `console.` word group. */
  lemma ScriptTagIsConsoleGroup(line: string, fileType: string)
    requires fileType in ScriptFileTypes && WordGroup(line, "console.").Some?
    ensures StatementType(line, fileType) == "console." + WordGroup(line, "console.").value
  {
  }

  /** A console match has a word character right after "console.". */
  lemma ConsoleMatchHasWord(line: string)
    requires ConsoleSearch(line)
    ensures exists p :: WordMatchAt(line, "console.", p)
  {
    var p :| 0 <= p <= |line| && ConsoleAt(line, p);
    ConsoleAtHasWord(line, p);
  }

  lemma ConsoleAtHasWord(line: string, p: nat)
    requires p <= |line| && ConsoleAt(line, p)
    ensures WordMatchAt(line, "console.", p)
  {
    ConsoleCallStartsWithWord(line, p + 8);
  }

  /** One of the console method names at q puts a word character at q. */
  lemma ConsoleCallStartsWithWord(s: string, q: nat)
    requires q <= |s| && AnyConsoleCall(s, q, 0)
    ensures q < |s| && IsWordChar(s[q])
  {
    var i :| 0 <= i < |ConsoleMethods| && ConsoleCall(s, q, ConsoleMethods[i]);
    ConsoleMethodsStartWithWord();
    LitAtHead(s, q, ConsoleMethods[i]);
  }

  /** "_logger." occurring means "logger." occurs one position later. */
  lemma UnderscoreLoggerContainsLogger(line: string)
    requires Contains(line, "_logger.")
    ensures Contains(line, "logger.")
  {
    var p := FindFrom(line, "_logger.", 0).value;
    LitAtSlice(line, p, "_logger.");
    assert line[p + 1..p + 8] == "logger.";
    LitAtSlice(line, p + 1, "logger.");
    ContainsAt(line, "logger.", p + 1);
  }

  /**
   * The order in which get_statement_type tries its substrings for a
   * Python line: each tag is chosen exactly when its substring is present
   * and none tried before it is.
   */
  lemma PythonTagPriority(line: string)
    ensures StatementType(line, PythonFileType) == "logging_import" <==> Contains(line, "import logging")
    ensures StatementType(line, PythonFileType) == "logger_definition" <==>
              !Contains(line, "import logging") && Contains(line, "getLogger")
    ensures (StatementType(line, PythonFileType) == "logger_statement" ||
             IsTagged(StatementType(line, PythonFileType), "logger.")) <==>
              !Contains(line, "import logging") && !Contains(line, "getLogger") && Contains(line, "logger.")
    ensures (StatementType(line, PythonFileType) == "logging_statement" ||
             IsTagged(StatementType(line, PythonFileType), "logging.")) <==>
              !Contains(line, "import logging") && !Contains(line, "getLogger") && !Contains(line, "logger.")
              && Contains(line, "logging.")
    ensures StatementType(line, PythonFileType) == "unknown" <==>
              !Contains(line, "import logging") && !Contains(line, "getLogger") && !Contains(line, "logger.")
              && !Contains(line, "logging.")
  {
    var tag := StatementType(line, PythonFileType);
    FixedTagsDiffer();
    TaggedDiffers(tag);
    if Contains(line, "import logging") {
      assert tag == "logging_import";
    } else if Contains(line, "getLogger") {
      assert tag == "logger_definition";
    } else if Contains(line, "_logger.") || Contains(line, "logger.") {
      if Contains(line, "_logger.") {
        UnderscoreLoggerContainsLogger(line);
      }
      LoggerTag(line);
    } else if Contains(line, "logging.") {
      LoggingTag(line);
    } else {
      assert tag == "unknown";
    }
  }

  /** The fixed tags are five different strings, none of them a prefix followed by a word. */
  lemma FixedTagsDiffer()
    ensures "logging_import" != "logger_definition" && "logging_import" != "logger_statement"
    ensures "logging_import" != "logging_statement" && "logging_import" != "unknown"
    ensures "logger_definition" != "logger_statement" && "logger_definition" != "logging_statement"
    ensures "logger_definition" != "unknown" && "logger_statement" != "logging_statement"
    ensures "logger_statement" != "unknown" && "logging_statement" != "unknown"
    ensures !IsTagged("logging_import", "logger.") && !IsTagged("logging_import", "logging.")
    ensures !IsTagged("logger_definition", "logger.") && !IsTagged("logger_definition", "logging.")
    ensures !IsTagged("logger_statement", "logging.") && !IsTagged("logging_statement", "logger.")
    ensures !IsTagged("unknown", "logger.") && !IsTagged("unknown", "logging.")
  {
    assert "logging_import"[6] == 'g' && "logger_definition"[6] == '_' && "logging_statement"[6] == 'g';
    assert "logger_statement"[6] == '_' && "logger_statement"[5] == 'r' && "logger_definition"[5] == 'r';
    assert "logging_import"[7] == '_' && "logging_statement"[7] == '_';
  }

  /** A tagged string is none of the fixed tags, and the two prefixes never tag the same string. */
  lemma TaggedDiffers(tag: string)
    ensures IsTagged(tag, "logger.") ==> tag[6] == '.' && !IsTagged(tag, "logging.")
    ensures IsTagged(tag, "logging.") ==> tag[6] == 'g' && tag[7] == '.'
  {
    if IsTagged(tag, "logger.") {
      assert tag[6] == '.';
    }
    if IsTagged(tag, "logging.") {
      assert tag[6] == 'g' && tag[7] == '.';
    }
  }

  /** A Python line past the first two checks that mentions "logger." gets a logger tag. */
  lemma LoggerTag(line: string)
    requires !Contains(line, "import logging") && !Contains(line, "getLogger") && Contains(line, "logger.")
    ensures StatementType(line, PythonFileType) == "logger_statement" || IsTagged(StatementType(line, PythonFileType), "logger.")
  {
  }

  /** A Python line past the first three checks that mentions "logging." gets a logging tag. */
  lemma LoggingTag(line: string)
    requires !Contains(line, "import logging") && !Contains(line, "getLogger") && !Contains(line, "logger.")
    requires !Contains(line, "_logger.") && Contains(line, "logging.")
    ensures StatementType(line, PythonFileType) == "logging_statement" || IsTagged(StatementType(line, PythonFileType), "logging.")
  {
  }

  /** tag is prefix followed by a captured word. */
  predicate IsTagged(tag: string, prefix: string) {
    |prefix| < |tag| && tag[..|prefix|] == prefix
  }

  /**
   * A Python line that calls a logger method gets the tag "logger." plus
   * the method name, whatever the underscore.
   */
  lemma LoggerTagReadsMethod(line: string)
    requires !Contains(line, "import logging") && !Contains(line, "getLogger")
    requires exists p :: WordMatchAt(line, "logger.", p)
    ensures StatementType(line, PythonFileType) == "logger." + WordGroup(line, "logger.").value
  {
    var p :| WordMatchAt(line, "logger.", p);
    ContainsAt(line, "logger.", p);
    PythonIsNotScript();
  }

  /**
   * A Python line that calls a `logging` function, and mentions none of the
   * earlier substrings, gets the tag "logging." plus the function name.
   */
  lemma LoggingTagReadsMethod(line: string)
    requires !Contains(line, "import logging") && !Contains(line, "getLogger")
    requires !Contains(line, "_logger.") && !Contains(line, "logger.")
    requires exists p :: WordMatchAt(line, "logging.", p)
    ensures StatementType(line, PythonFileType) == "logging." + WordGroup(line, "logging.").value
  {
    var p :| WordMatchAt(line, "logging.", p);
    ContainsAt(line, "logging.", p);
    PythonIsNotScript();
  }

  /** Any line of a file whose extension is not one of the five stays. */
  lemma OtherTypesKeepEverything(line: string, fileType: string)
    requires fileType !in ScriptFileTypes && fileType != PythonFileType
    ensures !ShouldRemoveLine(line, fileType) && StatementType(line, fileType) == "unknown"
  {
  }

  /** A console match needs the text "console." somewhere in the line. */
  lemma ConsoleMatchNeedsConsole(line: string)
    requires ConsoleSearch(line)
    ensures Contains(line, "console.")
  {
    var p :| 0 <= p <= |line| && ConsoleAt(line, p);
    ContainsAt(line, "console.", p);
  }

  /**
   * Every one of the seven Python patterns needs a '.', an '=', the word
   * "import" or the word "from": a Python line with none of them is kept.
   */
  lemma PythonMatchNeedsMarker(line: string)
    requires PythonSearch(line)
    ensures '.' in line || '=' in line || Contains(line, "import") || Contains(line, "from")
  {
    var i :| 0 <= i < |PythonPatterns| && PySearchFrom(PythonPatterns[i], line, 0);
    var p :| 0 <= p <= |line| && PyAt(PythonPatterns[i], line, p);
    PatternNeedsMarker(PythonPatterns[i], line, p);
  }

  /** What each Python pattern needs at the place it matches. */
  lemma PatternNeedsMarker(pat: PyPattern, line: string, p: nat)
    requires p <= |line| && PyAt(pat, line, p)
    ensures '.' in line || '=' in line || Contains(line, "import") || Contains(line, "from")
  {
    match pat
    case ImportLogging =>
      ContainsAt(line, "import", p);
    case FromLoggingImport =>
      ContainsAt(line, "from", p);
    case GetLoggerAssign =>
      var q := if AssignFrom(line, p) then p else p + 1;
      var a := RunEnd(line, q + 6, Space);
      assert line[a] == '=';
    case LoggingCall =>
      LitAtSlice(line, p, "logging.");
      assert line[p + 7] == '.';
    case LoggingCallSpaced =>
      LitAtSlice(line, p, "logging.");
      assert line[p + 7] == '.';
    case LoggerCall =>
      LoggerCallHasDot(line, p, false);
    case LoggerCallSpaced =>
      LoggerCallHasDot(line, p, true);
  }

  lemma LoggerCallHasDot(line: string, p: nat, spaced: bool)
    requires p <= |line| && (LoggerCallFrom(line, p, spaced) || (p < |line| && line[p] == '_' && LoggerCallFrom(line, p + 1, spaced)))
    ensures '.' in line
  {
    var q := if LoggerCallFrom(line, p, spaced) then p else p + 1;
    LitAtSlice(line, q, "logger.");
    assert line[q + 6] == '.';
  }
}

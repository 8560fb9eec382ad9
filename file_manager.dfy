/**
 * LogFileManager's date truncation (clean_logs_before_date) and its
 * log-file recognition (is_log_file). File contents arrive as the lines
 * `readlines()` returned, each with its terminator; a read or a write that
 * raises is an outcome passed in, and the truncation reports the writes it
 * attempted. `datetime_patterns`, which a caller may replace, is a
 * parameter.
 */
module FileManager {
  import opened Wrappers
  import opened Text
  import opened Paths
  import opened Timestamps
  import opened DateGrammar

  /*************************************************************************
   * One line
   *************************************************************************/

  /** What clean_logs_before_date does with a line. */
  datatype Fate =
    | Keep    // appended to `new_lines`
    | Drop    // counted in `lines_removed`
    | Clash   // `log_date >= cutoff_date` raises TypeError: an offset-aware date against the naive cutoff

  /** The body of the inner loop for one line, with the cutoff as a naive stamp. */
  function LineFate(patterns: seq<Grammar>, cutoff: Stamp, line: string): Fate {
    if Strip(line) == [] then Keep
    else
      match ExtractDateWith(patterns, line)
      case None => Keep
      case Some(Naive(t)) => if Before(t, cutoff) then Drop else Keep
      case Some(Aware(_, _)) => Clash
  }

  /** LineFate with the patterns and the cutoff fixed. */
  function Fates(patterns: seq<Grammar>, cutoff: Stamp): string -> Fate {
    line => LineFate(patterns, cutoff, line)
  }

  /** A blank line is kept whatever it holds. */
  lemma BlankLineIsKept(patterns: seq<Grammar>, cutoff: Stamp, line: string)
    requires Run(line, 0, |line|, Space)
    ensures LineFate(patterns, cutoff, line) == Keep
  {
  }

  /**
   * A line is dropped exactly when it is not blank and its date is naive
   * and strictly before the cutoff; a kept line with a naive date is dated
   * at or after the cutoff.
   */
  lemma FateMeaning(patterns: seq<Grammar>, cutoff: Stamp, line: string)
    ensures LineFate(patterns, cutoff, line) == Drop <==>
              Strip(line) != [] && ExtractDateWith(patterns, line).Some? && ExtractDateWith(patterns, line).value.Naive?
              && Before(ExtractDateWith(patterns, line).value.t, cutoff)
    ensures LineFate(patterns, cutoff, line) == Keep && Strip(line) != [] && ExtractDateWith(patterns, line).Some? ==>
              var d := ExtractDateWith(patterns, line).value;
              d.Naive? && (d.t == cutoff || Before(cutoff, d.t))
    ensures LineFate(patterns, cutoff, line) == Clash <==>
              Strip(line) != [] && ExtractDateWith(patterns, line).Some? && ExtractDateWith(patterns, line).value.Aware?
  {
    var d := ExtractDateWith(patterns, line);
    if Strip(line) != [] && d.Some? && d.value.Naive? && !Before(d.value.t, cutoff) {
      BeforeIsStrictTotalOrder(d.value.t, cutoff, cutoff);
    }
  }

  /** Whatever a cutoff drops, a later one drops too. */
  lemma LaterCutoffDropsMore(patterns: seq<Grammar>, early: Stamp, late: Stamp, line: string)
    requires Before(early, late)
    ensures LineFate(patterns, early, line) == Drop ==> LineFate(patterns, late, line) == Drop
    ensures LineFate(patterns, late, line) == Keep ==> LineFate(patterns, early, line) == Keep
  {
    var d := ExtractDateWith(patterns, line);
    if Strip(line) != [] && d.Some? && d.value.Naive? {
      BeforeIsStrictTotalOrder(d.value.t, early, late);
    }
  }

  /*************************************************************************
   * One file's lines. The pass is stated for any `fate`; the manager's own
   * is Fates(patterns, cutoff).
   *************************************************************************/

  /** `new_lines`: the kept lines, in order. */
  function Survivors(lines: seq<string>, fate: string -> Fate): seq<string> {
    if lines == [] then []
    else
      var last := lines[|lines| - 1];
      Survivors(lines[..|lines| - 1], fate) + (if fate(last) == Keep then [last] else [])
  }

  /** `lines_removed`: how many lines are dropped. */
  function DropCount(lines: seq<string>, fate: string -> Fate): nat {
    if lines == [] then 0
    else
      var last := lines[|lines| - 1];
      DropCount(lines[..|lines| - 1], fate) + (if fate(last) == Drop then 1 else 0)
  }

  /** Some line makes the comparison raise, which abandons the file. */
  predicate Clashes(lines: seq<string>, fate: string -> Fate) {
    lines != [] && (Clashes(lines[..|lines| - 1], fate) || fate(lines[|lines| - 1]) == Clash)
  }

  /** How the pass's results grow by one line. */
  lemma TruncateStep(lines: seq<string>, i: nat, fate: string -> Fate)
    requires i < |lines|
    ensures Survivors(lines[..i + 1], fate) == Survivors(lines[..i], fate) + (if fate(lines[i]) == Keep then [lines[i]] else [])
    ensures DropCount(lines[..i + 1], fate) == DropCount(lines[..i], fate) + (if fate(lines[i]) == Drop then 1 else 0)
    ensures Clashes(lines[..i + 1], fate) <==> Clashes(lines[..i], fate) || fate(lines[i]) == Clash
  {
    assert lines[..i + 1][..i] == lines[..i];
  }

  lemma KeepStep(lines: seq<string>, i: nat, fate: string -> Fate)
    requires i < |lines| && fate(lines[i]) == Keep
    ensures Survivors(lines[..i + 1], fate) == Survivors(lines[..i], fate) + [lines[i]]
    ensures DropCount(lines[..i + 1], fate) == DropCount(lines[..i], fate)
    ensures Clashes(lines[..i + 1], fate) == Clashes(lines[..i], fate)
  {
    TruncateStep(lines, i, fate);
  }

  lemma DropStep(lines: seq<string>, i: nat, fate: string -> Fate)
    requires i < |lines| && fate(lines[i]) == Drop
    ensures Survivors(lines[..i + 1], fate) == Survivors(lines[..i], fate)
    ensures DropCount(lines[..i + 1], fate) == DropCount(lines[..i], fate) + 1
    ensures Clashes(lines[..i + 1], fate) == Clashes(lines[..i], fate)
  {
    TruncateStep(lines, i, fate);
  }

  /** A clash is a line whose fate is Clash. */
  lemma {:induction false} ClashesMeaning(lines: seq<string>, fate: string -> Fate)
    ensures Clashes(lines, fate) <==> exists j :: 0 <= j < |lines| && fate(lines[j]) == Clash
  {
    if lines != [] {
      var n := |lines| - 1;
      ClashesMeaning(lines[..n], fate);
      if exists j :: 0 <= j < |lines| && fate(lines[j]) == Clash {
        var j :| 0 <= j < |lines| && fate(lines[j]) == Clash;
        if j < n {
          assert lines[..n][j] == lines[j];
        }
      }
      if Clashes(lines[..n], fate) {
        var j :| 0 <= j < n && fate(lines[..n][j]) == Clash;
        assert lines[j] == lines[..n][j];
      }
    }
  }

  /** Without a clash every line is kept or dropped. */
  lemma {:induction false} TruncationPartition(lines: seq<string>, fate: string -> Fate)
    requires !Clashes(lines, fate)
    ensures |Survivors(lines, fate)| + DropCount(lines, fate) == |lines|
  {
    if lines != [] {
      var n := |lines| - 1;
      assert forall j :: 0 <= j < n ==> lines[..n][j] == lines[j];
      assert fate(lines[n]) != Clash;
      TruncationPartition(lines[..n], fate);
    }
  }

  /**
   * The kept lines are the lines whose fate is Keep, unaltered and in
   * their original order: `idx` lists their positions.
   */
  lemma {:induction false} SurvivorPositions(lines: seq<string>, fate: string -> Fate) returns (idx: seq<nat>)
    ensures |idx| == |Survivors(lines, fate)|
    ensures forall k :: 0 <= k < |idx| ==> idx[k] < |lines| && Survivors(lines, fate)[k] == lines[idx[k]]
    ensures forall k, l :: 0 <= k < l < |idx| ==> idx[k] < idx[l]
    ensures forall j :: 0 <= j < |lines| ==> (j in idx <==> fate(lines[j]) == Keep)
  {
    if lines == [] {
      return [];
    }
    var n := |lines| - 1;
    var init, last := lines[..n], lines[n];
    var prev := SurvivorPositions(init, fate);
    assert forall j :: 0 <= j < n ==> init[j] == lines[j];
    if fate(last) == Keep {
      idx := prev + [n];
    } else {
      idx := prev;
    }
  }

  /** Lines that all stay come through whole. */
  lemma {:induction false} AllKept(lines: seq<string>, fate: string -> Fate)
    requires forall j :: 0 <= j < |lines| ==> fate(lines[j]) == Keep
    ensures Survivors(lines, fate) == lines && DropCount(lines, fate) == 0 && !Clashes(lines, fate)
  {
    if lines != [] {
      var n := |lines| - 1;
      var init := lines[..n];
      assert forall j :: 0 <= j < n ==> init[j] == lines[j];
      AllKept(init, fate);
      assert fate(lines[n]) == Keep;
      assert Survivors(lines, fate) == Survivors(init, fate) + [lines[n]];
      assert init + [lines[n]] == lines;
    }
  }

  /**
   * Truncating twice with the same cutoff is truncating once: the second
   * pass keeps every line it is given.
   */
  lemma TruncationIdempotent(lines: seq<string>, fate: string -> Fate)
    ensures Survivors(Survivors(lines, fate), fate) == Survivors(lines, fate)
    ensures DropCount(Survivors(lines, fate), fate) == 0 && !Clashes(Survivors(lines, fate), fate)
  {
    var idx := SurvivorPositions(lines, fate);
    var kept := Survivors(lines, fate);
    forall k | 0 <= k < |kept|
      ensures fate(kept[k]) == Keep
    {
      assert idx[k] in idx;
    }
    AllKept(kept, fate);
  }

  /**
   * Blank lines come through a truncation without a clash: the rewritten
   * file still holds every line that was blank.
   */
  lemma BlankLinesSurvive(patterns: seq<Grammar>, cutoff: Stamp, lines: seq<string>)
    ensures forall j :: 0 <= j < |lines| && Strip(lines[j]) == [] ==> lines[j] in Survivors(lines, Fates(patterns, cutoff))
  {
    var fate := Fates(patterns, cutoff);
    var idx := SurvivorPositions(lines, fate);
    forall j | 0 <= j < |lines| && Strip(lines[j]) == []
      ensures lines[j] in Survivors(lines, fate)
    {
      assert fate(lines[j]) == Keep;
      var k :| 0 <= k < |idx| && idx[k] == j;
      assert Survivors(lines, fate)[k] == lines[j];
    }
  }

  /** A later cutoff drops at least as many lines. */
  lemma {:induction false} LaterCutoffDropsAtLeastAsMany(patterns: seq<Grammar>, early: Stamp, late: Stamp, lines: seq<string>)
    requires Before(early, late)
    ensures DropCount(lines, Fates(patterns, early)) <= DropCount(lines, Fates(patterns, late))
  {
    if lines != [] {
      var n := |lines| - 1;
      LaterCutoffDropsAtLeastAsMany(patterns, early, late, lines[..n]);
      LaterCutoffDropsMore(patterns, early, late, lines[n]);
    }
  }

  /**
   * The inner loop of clean_logs_before_date over one file's lines, with
   * each line's handling given by `fate` (the manager passes
   * Fates(patterns, cutoff)). When `clash` is set the comparison raised
   * and the other results are meaningless, as the caller abandons the file.
   */
  method TruncateLines(lines: seq<string>, fate: string -> Fate)
    returns (newLines: seq<string>, linesRemoved: nat, modified: bool, clash: bool)
    ensures clash <==> Clashes(lines, fate)
    ensures !clash ==> newLines == Survivors(lines, fate)
    ensures !clash ==> linesRemoved == DropCount(lines, fate) && (modified <==> linesRemoved > 0)
  {
    newLines, linesRemoved, modified, clash := [], 0, false, false;
    var i := 0;
    while i < |lines|
      invariant 0 <= i <= |lines|
      invariant newLines == Survivors(lines[..i], fate)
      invariant linesRemoved == DropCount(lines[..i], fate)
      invariant modified <==> linesRemoved > 0
      invariant !Clashes(lines[..i], fate)
    {
      var line := lines[i];
      match fate(line) {
        case Keep =>
          KeepStep(lines, i, fate);
          newLines := newLines + [line];
        case Drop =>
          DropStep(lines, i, fate);
          linesRemoved := linesRemoved + 1;
          modified := true;
        case Clash =>
          clash := true;
          ClashesMeaning(lines, fate);
          return;
      }
      i := i + 1;
    }
    assert lines[..i] == lines;
  }

  /*************************************************************************
   * The files
   *************************************************************************/

  /**
   * A log file as clean_logs_before_date meets it: `contents` is None when
   * opening or reading raises, and `writeOk` says whether the rewrite
   * succeeds.
   */
  datatype LogFile = LogFile(name: string, contents: Option<seq<string>>, writeOk: bool)

  /** `open(log_file, 'w').writelines(lines)` */
  datatype Write = Write(name: string, lines: seq<string>)

  /** The lines a file is rewritten with, or None when it is not rewritten. */
  function Rewrite(f: LogFile, fate: string -> Fate): Option<seq<string>> {
    if f.contents.None? || Clashes(f.contents.value, fate) || DropCount(f.contents.value, fate) == 0 then None
    else Some(Survivors(f.contents.value, fate))
  }

  /** The file is rewritten and counted in `files_cleaned`. */
  predicate Cleaned(f: LogFile, fate: string -> Fate) {
    Rewrite(f, fate).Some? && f.writeOk
  }

  /** What the file adds to `total_lines_removed`. */
  function Removed(f: LogFile, fate: string -> Fate): nat {
    if Cleaned(f, fate) then DropCount(f.contents.value, fate) else 0
  }

  function CleanedCount(files: seq<LogFile>, fate: string -> Fate): nat {
    if files == [] then 0
    else CleanedCount(files[..|files| - 1], fate) + (if Cleaned(files[|files| - 1], fate) then 1 else 0)
  }

  function RemovedTotal(files: seq<LogFile>, fate: string -> Fate): nat {
    if files == [] then 0
    else RemovedTotal(files[..|files| - 1], fate) + Removed(files[|files| - 1], fate)
  }

  /** The writes attempted, in order. */
  function Writes(files: seq<LogFile>, fate: string -> Fate): seq<Write> {
    if files == [] then []
    else
      var last := files[|files| - 1];
      Writes(files[..|files| - 1], fate) + (if Rewrite(last, fate).Some? then [Write(last.name, Rewrite(last, fate).value)] else [])
  }

  /** How the totals grow by one file. */
  lemma CleanStep(files: seq<LogFile>, i: nat, fate: string -> Fate)
    requires i < |files|
    ensures CleanedCount(files[..i + 1], fate) == CleanedCount(files[..i], fate) + (if Cleaned(files[i], fate) then 1 else 0)
    ensures RemovedTotal(files[..i + 1], fate) == RemovedTotal(files[..i], fate) + Removed(files[i], fate)
    ensures Writes(files[..i + 1], fate) ==
            Writes(files[..i], fate) + (if Rewrite(files[i], fate).Some? then [Write(files[i].name, Rewrite(files[i], fate).value)] else [])
  {
    assert files[..i + 1][..i] == files[..i];
  }

  /** A cleaned file lost at least one line. */
  lemma CleanedFileLostLines(f: LogFile, fate: string -> Fate)
    ensures Cleaned(f, fate) ==> Removed(f, fate) >= 1
    ensures !Cleaned(f, fate) ==> Removed(f, fate) == 0
  {
  }

  /** At most one cleaned file per file, and each cleaned file accounts for at least one removed line. */
  lemma {:induction false} CountsBounded(files: seq<LogFile>, fate: string -> Fate)
    ensures CleanedCount(files, fate) <= |files|
    ensures CleanedCount(files, fate) <= RemovedTotal(files, fate)
  {
    if files != [] {
      CountsBounded(files[..|files| - 1], fate);
      CleanedFileLostLines(files[|files| - 1], fate);
    }
  }

  /** The totals of two lists one after the other add up. */
  lemma {:induction false} TotalsAppend(a: seq<LogFile>, b: seq<LogFile>, fate: string -> Fate)
    ensures CleanedCount(a + b, fate) == CleanedCount(a, fate) + CleanedCount(b, fate)
    ensures RemovedTotal(a + b, fate) == RemovedTotal(a, fate) + RemovedTotal(b, fate)
    decreases |b|
  {
    if b == [] {
      assert a + b == a;
    } else {
      var n := |b| - 1;
      assert (a + b)[..|a + b| - 1] == a + b[..n];
      assert (a + b)[|a + b| - 1] == b[n];
      TotalsAppend(a, b[..n], fate);
    }
  }

  /** A single file that is not cleaned adds nothing. */
  lemma UncleanedAlone(f: LogFile, fate: string -> Fate)
    requires !Cleaned(f, fate)
    ensures CleanedCount([f], fate) == 0 && RemovedTotal([f], fate) == 0
  {
    assert [f][..0] == [];
  }

  lemma SplitAround<T>(s: seq<T>, k: nat)
    requires k < |s|
    ensures s == s[..k] + [s[k]] + s[k + 1..]
  {
  }

  /**
   * A file whose processing raises or that needs no cleaning leaves the
   * totals as if it were not in the list, and processing goes on with the
   * files after it.
   */
  lemma SkippedFileCountsNothing(files: seq<LogFile>, k: nat, fate: string -> Fate)
    requires k < |files| && !Cleaned(files[k], fate)
    ensures CleanedCount(files, fate) == CleanedCount(files[..k] + files[k + 1..], fate)
    ensures RemovedTotal(files, fate) == RemovedTotal(files[..k] + files[k + 1..], fate)
  {
    var before, after := files[..k], files[k + 1..];
    SplitAround(files, k);
    TotalsAppend(before + [files[k]], after, fate);
    TotalsAppend(before, [files[k]], fate);
    TotalsAppend(before, after, fate);
    UncleanedAlone(files[k], fate);
  }

  /**
   * `LogFileManager.clean_logs_before_date(log_files, cutoff_date)`:
   * returns `files_cleaned`, `total_lines_removed` and the writes it
   * attempted. A file is rewritten only when a line was dropped, and
   * counted only when the write succeeds.
   */
  method CleanLogsBeforeDate(patterns: seq<Grammar>, files: seq<LogFile>, cutoff: Stamp)
    returns (filesCleaned: nat, totalLinesRemoved: nat, writes: seq<Write>)
    ensures filesCleaned == CleanedCount(files, Fates(patterns, cutoff))
    ensures totalLinesRemoved == RemovedTotal(files, Fates(patterns, cutoff))
    ensures writes == Writes(files, Fates(patterns, cutoff))
    ensures filesCleaned <= |files| && filesCleaned <= totalLinesRemoved
  {
    var fate := Fates(patterns, cutoff);
    filesCleaned, totalLinesRemoved, writes := 0, 0, [];
    var i := 0;
    while i < |files|
      invariant 0 <= i <= |files|
      invariant filesCleaned == CleanedCount(files[..i], fate)
      invariant totalLinesRemoved == RemovedTotal(files[..i], fate)
      invariant writes == Writes(files[..i], fate)
    {
      var logFile := files[i];
      CleanStep(files, i, fate);
      if logFile.contents.Some? {
        var newLines, linesRemoved, modified, clash := TruncateLines(logFile.contents.value, fate);
        if !clash && modified {
          writes := writes + [Write(logFile.name, newLines)];
          if logFile.writeOk {
            filesCleaned := filesCleaned + 1;
            totalLinesRemoved := totalLinesRemoved + linesRemoved;
          }
        }
      }
      i := i + 1;
    }
    assert files[..i] == files;
    CountsBounded(files, fate);
  }

  /*************************************************************************
   * is_log_file
   *************************************************************************/

  /** `log_extensions` */
  const LogExtensions: seq<string> := [".log", ".logs", ".error", ".debug", ".info"]

  /** `$` without MULTILINE: the end of s, or just before a newline that ends it. */
  predicate AtEnd(s: string, e: int) {
    e == |s| || (0 <= e == |s| - 1 && s[e] == '\n')
  }

  /** `\.log(\.\d+)?$` matches s from i to e. */
  predicate RotatedAt(s: string, i: int, e: int) {
    0 <= i && i + 4 <= e <= |s| && AtEnd(s, e) && s[i..i + 4] == ".log"
    && (e == i + 4 || (i + 5 < e && s[i + 4] == '.' && Run(s, i + 5, e, Digit)))
  }

  /** `\.logs$` matches s from i to e. */
  predicate PluralAt(s: string, i: int, e: int) {
    0 <= i && e == i + 5 <= |s| && AtEnd(s, e) && s[i..e] == ".logs"
  }

  /** `\.(error|debug|info)$` matches s from i to e. */
  predicate LevelAt(s: string, i: int, e: int) {
    0 <= i <= e <= |s| && AtEnd(s, e) && (s[i..e] == ".error" || s[i..e] == ".debug" || s[i..e] == ".info")
  }

  /** `[0-9A-Za-z-]` */
  predicate IsLabelChar(c: char) {
    IsAsciiLetter(c) || IsDigit(c) || c == '-'
  }

  /** s[a..b] consists of label characters only. */
  predicate LabelRun(s: string, a: int, b: int) {
    0 <= a <= b <= |s| && forall k :: a <= k < b ==> IsLabelChar(s[k])
  }

  /** The start of the longest run of label characters that ends at b. */
  function LabelStart(s: string, b: nat): (a: nat)
    requires b <= |s|
    ensures a <= b && LabelRun(s, a, b)
    ensures a == 0 || !IsLabelChar(s[a - 1])
  {
    if b == 0 || !IsLabelChar(s[b - 1]) then b else LabelStart(s, b - 1)
  }

  /** A label run ending at b with no label character before it is the longest one. */
  lemma {:induction false} LabelStartUnique(s: string, a: nat, b: nat)
    requires b <= |s| && LabelRun(s, a, b) && (a == 0 || !IsLabelChar(s[a - 1]))
    ensures LabelStart(s, b) == a
    decreases b
  {
    if b > a {
      LabelStartUnique(s, a, b - 1);
    }
  }

  /** `\.log\.[0-9A-Za-z-]+$` matches s from i to e. */
  predicate TaggedAt(s: string, i: int, e: int) {
    0 <= i && i + 5 < e <= |s| && AtEnd(s, e) && s[i..i + 5] == ".log." && LabelRun(s, i + 5, e)
  }

  /** `re.search` of one of `log_patterns` succeeds on s. */
  ghost predicate NamePatternFound(s: string) {
    (exists i, e :: RotatedAt(s, i, e)) || (exists i, e :: PluralAt(s, i, e))
    || (exists i, e :: LevelAt(s, i, e)) || (exists i, e :: TaggedAt(s, i, e))
  }

  /*
   * Each pattern is anchored by `$`, so it can only end at one of two
   * places, and a '.' ends any digit or label run before that place: each
   * check below looks backwards from the end once.
   */

  predicate RotatedEndsAt(s: string, e: nat)
    requires e <= |s|
  {
    var start := RunStart(s, e, Digit);
    (e >= 4 && s[e - 4..e] == ".log") || (5 <= start < e && s[start - 5..start] == ".log.")
  }

  predicate PluralEndsAt(s: string, e: nat)
    requires e <= |s|
  {
    e >= 5 && s[e - 5..e] == ".logs"
  }

  predicate LevelEndsAt(s: string, e: nat)
    requires e <= |s|
  {
    (e >= 5 && s[e - 5..e] == ".info") || (e >= 6 && (s[e - 6..e] == ".error" || s[e - 6..e] == ".debug"))
  }

  predicate TaggedEndsAt(s: string, e: nat)
    requires e <= |s|
  {
    var start := LabelStart(s, e);
    5 <= start < e && s[start - 5..start] == ".log."
  }

  lemma RotatedEndsAtMeaning(s: string, e: nat)
    requires e <= |s| && AtEnd(s, e)
    ensures RotatedEndsAt(s, e) <==> exists i :: RotatedAt(s, i, e)
  {
    var start := RunStart(s, e, Digit);
    if e >= 4 && s[e - 4..e] == ".log" {
      assert RotatedAt(s, e - 4, e);
    } else if 5 <= start < e && s[start - 5..start] == ".log." {
      assert s[start - 5..start - 1] == s[start - 5..start][..4];
      assert RotatedAt(s, start - 5, e);
    }
    if exists i :: RotatedAt(s, i, e) {
      var i :| RotatedAt(s, i, e);
      if e != i + 4 {
        assert !InClass(s[i + 4], Digit);
        RunStartUnique(s, i + 5, e, Digit);
        assert s[i..i + 5] == s[i..i + 4] + [s[i + 4]];
      }
    }
  }

  lemma PluralEndsAtMeaning(s: string, e: nat)
    requires e <= |s| && AtEnd(s, e)
    ensures PluralEndsAt(s, e) <==> exists i :: PluralAt(s, i, e)
  {
    if PluralEndsAt(s, e) {
      assert PluralAt(s, e - 5, e);
    }
  }

  lemma LevelEndsAtMeaning(s: string, e: nat)
    requires e <= |s| && AtEnd(s, e)
    ensures LevelEndsAt(s, e) <==> exists i :: LevelAt(s, i, e)
  {
    if LevelEndsAt(s, e) {
      LevelEndsAtSound(s, e);
    }
    if exists i :: LevelAt(s, i, e) {
      var i :| LevelAt(s, i, e);
      LevelAtEnds(s, i, e);
    }
  }

  lemma LevelEndsAtSound(s: string, e: nat)
    requires e <= |s| && AtEnd(s, e) && LevelEndsAt(s, e)
    ensures LevelAt(s, e - 5, e) || LevelAt(s, e - 6, e)
  {
  }

  lemma LevelAtEnds(s: string, i: int, e: nat)
    requires e <= |s| && LevelAt(s, i, e)
    ensures LevelEndsAt(s, e)
  {
    var w := s[i..e];
    assert |w| == e - i;
    if w == ".info" {
      assert i == e - 5;
    } else {
      assert i == e - 6;
    }
  }

  lemma TaggedEndsAtMeaning(s: string, e: nat)
    requires e <= |s| && AtEnd(s, e)
    ensures TaggedEndsAt(s, e) <==> exists i :: TaggedAt(s, i, e)
  {
    var start := LabelStart(s, e);
    if 5 <= start < e && s[start - 5..start] == ".log." {
      assert TaggedAt(s, start - 5, e);
    }
    if exists i :: TaggedAt(s, i, e) {
      var i :| TaggedAt(s, i, e);
      assert s[i + 4] == s[i..i + 5][4];
      assert !IsLabelChar(s[i + 4]);
      LabelStartUnique(s, i + 5, e);
    }
  }

  /** The four patterns checked against the end position e. */
  predicate NameEndsAt(s: string, e: nat)
    requires e <= |s|
  {
    RotatedEndsAt(s, e) || PluralEndsAt(s, e) || LevelEndsAt(s, e) || TaggedEndsAt(s, e)
  }

  /** Whether a lower-cased file name matches one of `log_patterns`. */
  predicate NamePatternMatches(s: string) {
    NameEndsAt(s, |s|) || (|s| > 0 && s[|s| - 1] == '\n' && NameEndsAt(s, |s| - 1))
  }

  /** A match ends at one of the two places `$` allows. */
  lemma EndsAtOneOfTwo(s: string, e: int)
    requires AtEnd(s, e) && e <= |s|
    ensures e == |s| || (|s| > 0 && s[|s| - 1] == '\n' && e == |s| - 1)
  {
  }

  /** The computed name check is `re.search` over the four patterns. */
  lemma NamePatternMatchesMeaning(s: string)
    ensures NamePatternMatches(s) <==> NamePatternFound(s)
  {
    var last := |s| > 0 && s[|s| - 1] == '\n';
    RotatedEndsAtMeaning(s, |s|);
    PluralEndsAtMeaning(s, |s|);
    LevelEndsAtMeaning(s, |s|);
    TaggedEndsAtMeaning(s, |s|);
    if last {
      RotatedEndsAtMeaning(s, |s| - 1);
      PluralEndsAtMeaning(s, |s| - 1);
      LevelEndsAtMeaning(s, |s| - 1);
      TaggedEndsAtMeaning(s, |s| - 1);
    }
    if exists i, e :: RotatedAt(s, i, e) {
      var i, e :| RotatedAt(s, i, e);
      EndsAtOneOfTwo(s, e);
    }
    if exists i, e :: PluralAt(s, i, e) {
      var i, e :| PluralAt(s, i, e);
      EndsAtOneOfTwo(s, e);
    }
    if exists i, e :: LevelAt(s, i, e) {
      var i, e :| LevelAt(s, i, e);
      EndsAtOneOfTwo(s, e);
    }
    if exists i, e :: TaggedAt(s, i, e) {
      var i, e :| TaggedAt(s, i, e);
      EndsAtOneOfTwo(s, e);
    }
  }

  /** The lines `next(f)` yields before the loop stops at five. */
  function FirstLines(lines: seq<string>): (r: seq<string>)
    ensures |r| <= 5 && r <= lines && (|lines| <= 5 ==> r == lines) && (|lines| >= 5 ==> |r| == 5)
  {
    if |lines| <= 5 then lines else lines[..5]
  }

  /** Whether any grammar's regex is found in the line: the inner `for` with its early return. */
  predicate AnyPatternFound(line: string, patterns: seq<Grammar>) {
    patterns != [] && (Search(line, patterns[0]).Some? || AnyPatternFound(line, patterns[1..]))
  }

  /** The two nested loops over the stripped lines and the patterns. */
  predicate AnyLineLooksDated(lines: seq<string>, patterns: seq<Grammar>) {
    lines != [] && (AnyPatternFound(Strip(lines[0]), patterns) || AnyLineLooksDated(lines[1..], patterns))
  }

  /**
   * `LogFileManager.is_log_file(file_path)` with `log_patterns` and
   * `datetime_patterns` given: `isFile` stands for `path.is_file()` and
   * `contents` for the file's lines, None when opening raises.
   */
  predicate IsLogFile(filePath: string, isFile: bool, contents: Option<seq<string>>, patterns: seq<Grammar>)
    ensures IsLogFile(filePath, isFile, contents, patterns) ==> isFile
  {
    if !isFile then false
    else if Lower(Suffix(Name(Paths.Parse(filePath)))) in LogExtensions then true
    else if NamePatternMatches(Lower(Name(Paths.Parse(filePath)))) then true
    else contents.Some? && AnyLineLooksDated(FirstLines(contents.value), patterns)
  }

  lemma {:induction false} AnyPatternFoundMeaning(line: string, patterns: seq<Grammar>)
    ensures AnyPatternFound(line, patterns) <==> exists j :: 0 <= j < |patterns| && Search(line, patterns[j]).Some?
  {
    if patterns != [] {
      AnyPatternFoundMeaning(line, patterns[1..]);
      if exists j :: 0 <= j < |patterns| && Search(line, patterns[j]).Some? {
        var j :| 0 <= j < |patterns| && Search(line, patterns[j]).Some?;
        if j > 0 {
          assert patterns[1..][j - 1] == patterns[j];
        }
      }
    }
  }

  lemma {:induction false} AnyLineLooksDatedMeaning(lines: seq<string>, patterns: seq<Grammar>)
    ensures AnyLineLooksDated(lines, patterns) <==>
              exists k :: 0 <= k < |lines| && AnyPatternFound(Strip(lines[k]), patterns)
  {
    if lines != [] {
      AnyLineLooksDatedMeaning(lines[1..], patterns);
      if exists k :: 0 <= k < |lines| && AnyPatternFound(Strip(lines[k]), patterns) {
        var k :| 0 <= k < |lines| && AnyPatternFound(Strip(lines[k]), patterns);
        if k > 0 {
          assert lines[1..][k - 1] == lines[k];
        }
      }
    }
  }

  /** `re.search` succeeds exactly when the regular expression matches somewhere. */
  lemma SearchFindsMatch(s: string, g: Grammar)
    requires Safe(g)
    ensures Search(s, g).Some? <==> exists p, a, b :: 0 <= p <= |s| && GrammarMatches(s, p, a, b, g)
  {
    SearchIsLeftmostMatch(s, g);
    var r := Search(s, g);
    if r.Some? {
      var q := r.value;
      assert 0 <= q <= |s| && GrammarMatches(s, q, MatchAt(s, q, g).value.0, MatchAt(s, q, g).value.1, g);
    }
  }

  /**
   * What is_log_file decides: a non-file is never a log file; a file with
   * a log extension (any case) or a log-like name is one whatever it
   * holds; any other file is one exactly when one of its first five lines,
   * stripped, contains a match of one of the patterns' regular
   * expressions, and never when it cannot be opened.
   */
  lemma IsLogFileMeaning(filePath: string, isFile: bool, contents: Option<seq<string>>, patterns: seq<Grammar>)
    requires forall j :: 0 <= j < |patterns| ==> Safe(patterns[j])
    ensures !isFile ==> !IsLogFile(filePath, isFile, contents, patterns)
    ensures isFile && Lower(Suffix(Name(Paths.Parse(filePath)))) in LogExtensions ==> IsLogFile(filePath, isFile, contents, patterns)
    ensures isFile && NamePatternFound(Lower(Name(Paths.Parse(filePath)))) ==> IsLogFile(filePath, isFile, contents, patterns)
    ensures isFile && Lower(Suffix(Name(Paths.Parse(filePath)))) !in LogExtensions && !NamePatternFound(Lower(Name(Paths.Parse(filePath)))) ==>
              (IsLogFile(filePath, isFile, contents, patterns) <==>
                 contents.Some? &&
                 exists k, j, p, a, b :: 0 <= k < |FirstLines(contents.value)| && 0 <= j < |patterns|
                   && 0 <= p <= |Strip(FirstLines(contents.value)[k])|
                   && GrammarMatches(Strip(FirstLines(contents.value)[k]), p, a, b, patterns[j]))
  {
    NamePatternMatchesMeaning(Lower(Name(Paths.Parse(filePath))));
    if contents.Some? {
      var first := FirstLines(contents.value);
      AnyLineLooksDatedMeaning(first, patterns);
      forall k | 0 <= k < |first|
        ensures AnyPatternFound(Strip(first[k]), patterns) <==>
                  exists j, p, a, b :: 0 <= j < |patterns| && 0 <= p <= |Strip(first[k])|
                    && GrammarMatches(Strip(first[k]), p, a, b, patterns[j])
      {
        var line := Strip(first[k]);
        AnyPatternFoundMeaning(line, patterns);
        forall j | 0 <= j < |patterns|
          ensures Search(line, patterns[j]).Some? <==> exists p, a, b :: 0 <= p <= |line| && GrammarMatches(line, p, a, b, patterns[j])
        {
          SearchFindsMatch(line, patterns[j]);
        }
      }
    }
  }
}

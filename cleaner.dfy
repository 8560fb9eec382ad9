/**
 * The diagnostic-statement remover: LogCleaner's per-file rewrite with its
 * statistics, and validate_files. File contents arrive as the lines
 * `readlines()` returned (each keeps its line terminator); reads, the
 * backup copy and the write are outcomes passed in, and the method reports
 * the file-system actions it attempted, in order.
 */
module Cleaner {
  import opened Wrappers
  import opened Text
  import opened Paths
  import opened StatementMatcher
  import PathProperties

  /** One entry of `removed_lines`: the 1-based line number and the stripped text. */
  datatype Removal = Removal(lineNo: nat, text: string)

  /** A file-system action of remove_logging_statements. */
  datatype Effect =
    | Backup(source: PurePath)                  // make_backup copies the resolved file
    | Write(path: string, lines: seq<string>)   // open(path, 'w').writelines(lines)

  /*************************************************************************
   * What one pass over a file's lines computes. The pass is stated for any
   * line decision `remove` and any `tag`; the cleaner's own are Remover and
   * Tagger.
   *************************************************************************/

  /** should_remove_line for one file type. */
  function Remover(fileType: string): string -> bool {
    line => ShouldRemoveLine(line, fileType)
  }

  /** get_statement_type for one file type. */
  function Tagger(fileType: string): string -> string {
    line => StatementType(line, fileType)
  }

  /** `cleaned_lines`: the lines `remove` keeps, in order. */
  function Kept(lines: seq<string>, remove: string -> bool): seq<string> {
    if lines == [] then []
    else
      var last := lines[|lines| - 1];
      Kept(lines[..|lines| - 1], remove) + (if remove(last) then [] else [last])
  }

  /** `removed_lines`: a removal per removed line, numbered from 1. */
  function Removals(lines: seq<string>, remove: string -> bool): seq<Removal> {
    if lines == [] then []
    else
      var last := lines[|lines| - 1];
      Removals(lines[..|lines| - 1], remove) + (if remove(last) then [Removal(|lines|, Strip(last))] else [])
  }

  /** The tags the pass adds to `removed_statements`, one per removed line. */
  function Tags(lines: seq<string>, remove: string -> bool, tag: string -> string): multiset<string> {
    if lines == [] then multiset{}
    else
      var last := lines[|lines| - 1];
      Tags(lines[..|lines| - 1], remove, tag) + (if remove(last) then multiset{tag(last)} else multiset{})
  }

  /** How the pass's results grow by one line. */
  lemma PassStep(lines: seq<string>, i: nat, remove: string -> bool, tag: string -> string)
    requires i < |lines|
    ensures var line := lines[i];
            Kept(lines[..i + 1], remove) == Kept(lines[..i], remove) + (if remove(line) then [] else [line])
    ensures var line := lines[i];
            Removals(lines[..i + 1], remove) ==
              Removals(lines[..i], remove) + (if remove(line) then [Removal(i + 1, Strip(line))] else [])
    ensures var line := lines[i];
            Tags(lines[..i + 1], remove, tag) ==
              Tags(lines[..i], remove, tag) + (if remove(line) then multiset{tag(line)} else multiset{})
  {
    assert lines[..i + 1][..i] == lines[..i];
  }

  /** One tag per removed line. */
  lemma {:induction false} TagsCount(lines: seq<string>, remove: string -> bool, tag: string -> string)
    ensures |Tags(lines, remove, tag)| == |Removals(lines, remove)|
  {
    if lines != [] {
      TagsCount(lines[..|lines| - 1], remove, tag);
    }
  }

  /** The two extensions-as-typed the rewrite can count in `file_types_processed`. */
  predicate CleanableType(fileType: string) {
    fileType in ScriptFileTypes || fileType == PythonFileType
  }

  /** Only the five extensions have removable lines. */
  lemma RemovableNeedsCleanableType(line: string, fileType: string)
    requires ShouldRemoveLine(line, fileType)
    ensures CleanableType(fileType)
  {
  }

  /** Removals happen only in files of the five extensions. */
  lemma {:induction false} RemovalsNeedCleanableType(lines: seq<string>, fileType: string)
    requires Removals(lines, Remover(fileType)) != []
    ensures CleanableType(fileType)
  {
    var n := |lines| - 1;
    if Removals(lines[..n], Remover(fileType)) != [] {
      RemovalsNeedCleanableType(lines[..n], fileType);
    } else {
      RemovableNeedsCleanableType(lines[n], fileType);
    }
  }

  /*************************************************************************
   * What the pass promises
   *************************************************************************/

  /** Every line lands in exactly one of the two lists. */
  lemma {:induction false} PassPartition(lines: seq<string>, remove: string -> bool)
    ensures |Kept(lines, remove)| + |Removals(lines, remove)| == |lines|
  {
    if lines != [] {
      PassPartition(lines[..|lines| - 1], remove);
    }
  }

  /** The positions of the lines `remove` keeps, in order. */
  function KeptIndices(lines: seq<string>, remove: string -> bool): seq<nat> {
    if lines == [] then []
    else
      var n := |lines| - 1;
      KeptIndices(lines[..n], remove) + (if remove(lines[n]) then [] else [n])
  }

  /**
   * The kept lines are the lines `remove` lets through, unaltered: the
   * k-th kept line is the line at the k-th kept position.
   */
  lemma {:induction false} KeptPositions(lines: seq<string>, remove: string -> bool)
    ensures var idx := KeptIndices(lines, remove);
            |idx| == |Kept(lines, remove)| &&
            forall k :: 0 <= k < |idx| ==>
              idx[k] < |lines| && Kept(lines, remove)[k] == lines[idx[k]] && !remove(lines[idx[k]])
  {
    if lines != [] {
      var n := |lines| - 1;
      var init := lines[..n];
      KeptPositions(init, remove);
      assert forall j :: 0 <= j < n ==> init[j] == lines[j];
    }
  }

  /** The kept positions increase: the original order is kept. */
  lemma {:induction false} KeptInOrder(lines: seq<string>, remove: string -> bool)
    ensures forall k, l :: 0 <= k < l < |KeptIndices(lines, remove)| ==>
              KeptIndices(lines, remove)[k] < KeptIndices(lines, remove)[l]
  {
    if lines != [] {
      var n := |lines| - 1;
      KeptInOrder(lines[..n], remove);
      KeptIndicesBound(lines[..n], remove);
      var prev, idx := KeptIndices(lines[..n], remove), KeptIndices(lines, remove);
      assert idx == prev + (if remove(lines[n]) then [] else [n]);
      forall k, l | 0 <= k < l < |idx|
        ensures idx[k] < idx[l]
      {
        assert idx[k] == prev[k] < n;
        if l < |prev| {
          assert idx[l] == prev[l];
        } else {
          assert idx[l] == n;
        }
      }
    }
  }

  lemma {:induction false} KeptIndicesBound(lines: seq<string>, remove: string -> bool)
    ensures forall k :: 0 <= k < |KeptIndices(lines, remove)| ==> KeptIndices(lines, remove)[k] < |lines|
  {
    if lines != [] {
      KeptIndicesBound(lines[..|lines| - 1], remove);
    }
  }

  /** Every line `remove` lets through is kept. */
  lemma {:induction false} KeptComplete(lines: seq<string>, remove: string -> bool)
    ensures forall j :: 0 <= j < |lines| && !remove(lines[j]) ==> j in KeptIndices(lines, remove)
  {
    if lines != [] {
      var n := |lines| - 1;
      var init := lines[..n];
      KeptComplete(init, remove);
      assert forall j :: 0 <= j < n ==> init[j] == lines[j];
    }
  }

  /** Each removal names a removed line by its 1-based number and carries that line stripped. */
  lemma RemovalsSound(lines: seq<string>, remove: string -> bool)
    ensures forall k :: 0 <= k < |Removals(lines, remove)| ==>
              var r := Removals(lines, remove)[k];
              1 <= r.lineNo <= |lines| && remove(lines[r.lineNo - 1]) && r.text == Strip(lines[r.lineNo - 1])
  {
    forall k | 0 <= k < |Removals(lines, remove)| {
      RemovalSound(lines, remove, k);
    }
  }

  /** RemovalsSound for the removal at index k. */
  lemma {:induction false} RemovalSound(lines: seq<string>, remove: string -> bool, k: nat)
    requires k < |Removals(lines, remove)|
    ensures var r := Removals(lines, remove)[k];
            1 <= r.lineNo <= |lines| && remove(lines[r.lineNo - 1]) && r.text == Strip(lines[r.lineNo - 1])
    decreases |lines|
  {
    var n := |lines| - 1;
    var init := lines[..n];
    var prev := Removals(init, remove);
    assert Removals(lines, remove) == prev + (if remove(lines[n]) then [Removal(n + 1, Strip(lines[n]))] else []);
    if k < |prev| {
      RemovalSound(init, remove, k);
      SoundInPrefix(lines, remove, prev[k]);
    }
  }

  /** A removal that is sound for all but the last line stays sound for the whole file. */
  lemma SoundInPrefix(lines: seq<string>, remove: string -> bool, r: Removal)
    requires lines != []
    requires var init := lines[..|lines| - 1];
             1 <= r.lineNo <= |init| && remove(init[r.lineNo - 1]) && r.text == Strip(init[r.lineNo - 1])
    ensures 1 <= r.lineNo <= |lines| && remove(lines[r.lineNo - 1]) && r.text == Strip(lines[r.lineNo - 1])
  {
  }

  /** The removals come in increasing line order. */
  lemma {:induction false} RemovalsOrdered(lines: seq<string>, remove: string -> bool)
    ensures forall k, l :: 0 <= k < l < |Removals(lines, remove)| ==>
              Removals(lines, remove)[k].lineNo < Removals(lines, remove)[l].lineNo
  {
    if lines != [] {
      var n := |lines| - 1;
      var init, last := lines[..n], lines[n];
      RemovalsOrdered(init, remove);
      RemovalsSound(init, remove);
      var prev, rs := Removals(init, remove), Removals(lines, remove);
      assert rs == prev + (if remove(last) then [Removal(n + 1, Strip(last))] else []);
      forall k, l | 0 <= k < l < |rs|
        ensures rs[k].lineNo < rs[l].lineNo
      {
        assert rs[k] == prev[k];
        if l < |prev| {
          assert rs[l] == prev[l];
        }
      }
    }
  }

  /** Every removed line has its removal. */
  lemma {:induction false} RemovalsComplete(lines: seq<string>, remove: string -> bool)
    ensures forall j :: 0 <= j < |lines| && remove(lines[j]) ==> Removal(j + 1, Strip(lines[j])) in Removals(lines, remove)
  {
    if lines != [] {
      var n := |lines| - 1;
      var init, last := lines[..n], lines[n];
      RemovalsComplete(init, remove);
      var prev, rs := Removals(init, remove), Removals(lines, remove);
      assert rs == prev + (if remove(last) then [Removal(n + 1, Strip(last))] else []);
      forall j | 0 <= j < |lines| && remove(lines[j])
        ensures Removal(j + 1, Strip(lines[j])) in rs
      {
        if j < n {
          assert init[j] == lines[j];
        }
      }
    }
  }

  /** The tags added are the tags of the removed lines. */
  lemma {:induction false} TagsMeaning(lines: seq<string>, remove: string -> bool, tag: string -> string)
    ensures forall t :: t in Tags(lines, remove, tag) <==>
              exists j :: 0 <= j < |lines| && remove(lines[j]) && t == tag(lines[j])
  {
    if lines != [] {
      var n := |lines| - 1;
      var init, last := lines[..n], lines[n];
      TagsMeaning(init, remove, tag);
      assert forall j :: 0 <= j < n ==> init[j] == lines[j];
      forall t
        ensures t in Tags(lines, remove, tag) <==> exists j :: 0 <= j < |lines| && remove(lines[j]) && t == tag(lines[j])
      {
        if exists j :: 0 <= j < |lines| && remove(lines[j]) && t == tag(lines[j]) {
          var j :| 0 <= j < |lines| && remove(lines[j]) && t == tag(lines[j]);
          if j < n {
            assert init[j] == lines[j];
          }
        }
      }
    }
  }

  /** The positions of the removed lines whose tag is t. */
  ghost function Carriers(lines: seq<string>, remove: string -> bool, tag: string -> string, t: string): set<int> {
    set j | 0 <= j < |lines| && remove(lines[j]) && tag(lines[j]) == t
  }

  /** Appending a line adds its position to the carriers exactly when it is removed with tag t. */
  lemma CarriersSnoc(lines: seq<string>, remove: string -> bool, tag: string -> string, t: string)
    requires lines != []
    ensures var n := |lines| - 1;
            n !in Carriers(lines[..n], remove, tag, t) &&
            Carriers(lines, remove, tag, t) ==
              Carriers(lines[..n], remove, tag, t) + (if remove(lines[n]) && tag(lines[n]) == t then {n} else {})
  {
    var n := |lines| - 1;
    assert forall j :: 0 <= j < n ==> lines[..n][j] == lines[j];
  }

  /** Each tag is counted once per removed line that carries it. */
  lemma {:induction false} TagsTally(lines: seq<string>, remove: string -> bool, tag: string -> string, t: string)
    ensures Tags(lines, remove, tag)[t] == |Carriers(lines, remove, tag, t)|
  {
    if lines != [] {
      var n := |lines| - 1;
      TagsTally(lines[..n], remove, tag, t);
      CarriersSnoc(lines, remove, tag, t);
      if remove(lines[n]) && tag(lines[n]) == t {
        assert multiset{tag(lines[n])}[t] == 1;
      }
    }
  }

  /** A file none of whose lines `remove` flags comes through whole. */
  lemma {:induction false} NothingToRemove(lines: seq<string>, remove: string -> bool, tag: string -> string)
    requires forall j :: 0 <= j < |lines| ==> !remove(lines[j])
    ensures Kept(lines, remove) == lines
    ensures Removals(lines, remove) == []
    ensures Tags(lines, remove, tag) == multiset{}
  {
    if lines != [] {
      var n := |lines| - 1;
      assert forall j :: 0 <= j < n ==> lines[..n][j] == lines[j];
      NothingToRemove(lines[..n], remove, tag);
      assert !remove(lines[n]);
      assert lines[..n] + [lines[n]] == lines;
    }
  }

  /**
   * Cleaning twice is cleaning once: a second pass over the written lines
   * keeps them all and removes nothing.
   */
  lemma PassIdempotent(lines: seq<string>, remove: string -> bool)
    ensures Kept(Kept(lines, remove), remove) == Kept(lines, remove)
    ensures Removals(Kept(lines, remove), remove) == []
  {
    KeptPositions(lines, remove);
    var kept := Kept(lines, remove);
    assert forall k :: 0 <= k < |kept| ==> !remove(kept[k]);
    NothingToRemove(kept, remove, s => s);
  }

  /** In a script file every tag names a console method: `console.` and a word. */
  lemma ScriptTagsNameConsoleMethods(lines: seq<string>, fileType: string)
    requires fileType in ScriptFileTypes
    ensures forall t :: t in Tags(lines, Remover(fileType), Tagger(fileType)) ==> exists m :: m != [] && t == "console." + m
  {
    TagsMeaning(lines, Remover(fileType), Tagger(fileType));
    forall t | t in Tags(lines, Remover(fileType), Tagger(fileType))
      ensures exists m :: m != [] && t == "console." + m
    {
      var j :| 0 <= j < |lines| && Remover(fileType)(lines[j]) && t == Tagger(fileType)(lines[j]);
      RemovedScriptLineIsTagged(lines[j], fileType);
    }
  }

  /** Files of any other extension are never changed. */
  lemma OtherTypesPassUntouched(lines: seq<string>, fileType: string)
    requires !CleanableType(fileType)
    ensures Kept(lines, Remover(fileType)) == lines
    ensures Removals(lines, Remover(fileType)) == [] && Tags(lines, Remover(fileType), Tagger(fileType)) == multiset{}
  {
    forall j | 0 <= j < |lines|
      ensures !Remover(fileType)(lines[j])
    {
      OtherTypesKeepEverything(lines[j], fileType);
    }
    NothingToRemove(lines, Remover(fileType), Tagger(fileType));
  }

  lemma UppercaseScriptIsNotCleanable()
    ensures !CleanableType(".JS")
  {
    assert ".JS"[1] != ".js"[1] && ".JS"[1] != ".jsx"[1] && ".JS"[1] != ".ts"[1] && ".JS"[1] != ".tsx"[1];
    assert ".JS"[1] != ".py"[1];
  }

  /**
   * validate_file_type lower-cases the extension but the rewrite does not:
   * `test.JS` passes validation and then has no line removed.
   */
  lemma UppercaseScriptPassesButStaysUntouched(lines: seq<string>)
    ensures ValidateFileType("test.JS")
    ensures Kept(lines, Remover(SplitExt("test.JS"))) == lines && Removals(lines, Remover(SplitExt("test.JS"))) == []
  {
    PathProperties.UppercaseExtension();
    UppercaseScriptIsNotCleanable();
    OtherTypesPassUntouched(lines, ".JS");
  }

  /*************************************************************************
   * LogCleaner
   *************************************************************************/

  class LogCleaner {
    /** `should_backup` */
    var shouldBackup: bool
    /** `assets_dir` */
    var assetsDir: Option<PurePath>
    /** Whether `current_backup_dir` has been set. */
    var hasBackupDir: bool
    /** `stats['files_processed']` */
    var filesProcessed: nat
    /** `stats['lines_removed']` */
    var linesRemoved: nat
    /** `stats['removed_statements']`: a tag occurs as often as its count. */
    var removedStatements: multiset<string>
    /** `stats['file_types_processed']`: an extension occurs as often as its count. */
    var fileTypesProcessed: multiset<string>

    /**
     * What the statistics always satisfy: each removed line added one tag;
     * each processed file had at least one line removed and one of the
     * five extensions.
     */
    predicate Valid()
      reads this
    {
      |removedStatements| == linesRemoved &&
      |fileTypesProcessed| == filesProcessed &&
      filesProcessed <= linesRemoved &&
      forall t :: t in fileTypesProcessed ==> CleanableType(t)
    }

    /** The statistics as `__init__` sets them, with the session's backup settings. */
    constructor(shouldBackup: bool, assetsDir: Option<PurePath>, hasBackupDir: bool)
      ensures Valid()
      ensures this.shouldBackup == shouldBackup && this.assetsDir == assetsDir && this.hasBackupDir == hasBackupDir
      ensures filesProcessed == 0 && linesRemoved == 0
      ensures removedStatements == multiset{} && fileTypesProcessed == multiset{}
    {
      this.shouldBackup := shouldBackup;
      this.assetsDir := assetsDir;
      this.hasBackupDir := hasBackupDir;
      filesProcessed := 0;
      linesRemoved := 0;
      removedStatements := multiset{};
      fileTypesProcessed := multiset{};
    }

    /** Whether make_backup copies the file: backups on, a backup folder, and a file outside the assets. */
    predicate BacksUp(resolved: PurePath)
      reads this
    {
      shouldBackup && hasBackupDir && ShouldBackupFile(assetsDir, resolved)
    }

    /**
     * Whether make_backup raises before it decides anything: backups are on
     * but `current_backup_dir` was never assigned, so reading it raises
     * AttributeError, which remove_logging_statements catches.
     */
    predicate BackupRaises()
      reads this
    {
      shouldBackup && !hasBackupDir
    }

    /**
     * The loop of remove_logging_statements: keeps the lines `remove` lets
     * through and counts every removed line, with its statement type, as it
     * goes. The caller passes should_remove_line and get_statement_type for
     * the file's type (Remover and Tagger).
     */
    method FilterLines(lines: seq<string>, remove: string -> bool, tag: string -> string)
      returns (cleaned: seq<string>, removed: seq<Removal>)
      modifies this`linesRemoved, this`removedStatements
      ensures cleaned == Kept(lines, remove)
      ensures removed == Removals(lines, remove)
      ensures linesRemoved == old(linesRemoved) + |removed|
      ensures removedStatements == old(removedStatements) + Tags(lines, remove, tag)
    {
      cleaned, removed := [], [];
      var i := 0;
      while i < |lines|
        invariant 0 <= i <= |lines|
        invariant cleaned == Kept(lines[..i], remove)
        invariant removed == Removals(lines[..i], remove)
        invariant linesRemoved == old(linesRemoved) + |removed|
        invariant removedStatements == old(removedStatements) + Tags(lines[..i], remove, tag)
      {
        var line := lines[i];
        PassStep(lines, i, remove, tag);
        if remove(line) {
          var statementType := tag(line);
          removedStatements := removedStatements + multiset{statementType};
          removed := removed + [Removal(i + 1, Strip(line))];
          linesRemoved := linesRemoved + 1;
        } else {
          cleaned := cleaned + [line];
        }
        i := i + 1;
      }
      assert lines[..i] == lines;
    }

    /**
     * `remove_logging_statements(file_path)`. `resolved` is
     * `Path(file_path).resolve()`; `contents` is None when reading raises;
     * `backupOk` and `writeOk` say whether the copy and the write succeed.
     * An exception ends the call with the counters as they stand; with
     * backups on and no backup folder created, make_backup raises, so the
     * removals are counted but the file is not written.
     */
    method RemoveLoggingStatements(filePath: string, resolved: PurePath, contents: Option<seq<string>>,
                                   backupOk: bool, writeOk: bool)
      returns (removed: seq<Removal>, effects: seq<Effect>)
      requires Valid()
      modifies this`linesRemoved, this`removedStatements, this`filesProcessed, this`fileTypesProcessed
      ensures Valid()
      ensures contents.None? ==>
                removed == [] && effects == [] &&
                linesRemoved == old(linesRemoved) && removedStatements == old(removedStatements) &&
                filesProcessed == old(filesProcessed) && fileTypesProcessed == old(fileTypesProcessed)
      ensures contents.Some? ==>
                var lines, fileType := contents.value, SplitExt(filePath);
                var backup := if removed != [] && BacksUp(resolved) then [Backup(resolved)] else [];
                var reachesWrite := removed != [] && !BackupRaises() && (!BacksUp(resolved) || backupOk);
                var written := reachesWrite && writeOk;
                removed == Removals(lines, Remover(fileType)) &&
                linesRemoved == old(linesRemoved) + |removed| &&
                removedStatements == old(removedStatements) + Tags(lines, Remover(fileType), Tagger(fileType)) &&
                effects == backup + (if reachesWrite then [Write(filePath, Kept(lines, Remover(fileType)))] else []) &&
                filesProcessed == old(filesProcessed) + (if written then 1 else 0) &&
                fileTypesProcessed == old(fileTypesProcessed) + (if written then multiset{fileType} else multiset{})
    {
      var fileType := SplitExt(filePath);
      removed, effects := [], [];
      if contents.None? {
        return;
      }
      var cleaned;
      cleaned, removed := FilterLines(contents.value, Remover(fileType), Tagger(fileType));
      TagsCount(contents.value, Remover(fileType), Tagger(fileType));
      if removed != [] {
        RemovalsNeedCleanableType(contents.value, fileType);
        effects := WriteBack(filePath, resolved, fileType, cleaned, backupOk, writeOk);
      }
    }

    /**
     * The end of remove_logging_statements once a line was removed: the
     * backup copy when one is due, the write, and the per-file counters.
     * A make_backup that raises, or a failed copy, skips the write; a
     * failed write skips the counters.
     */
    method WriteBack(filePath: string, resolved: PurePath, fileType: string, cleaned: seq<string>,
                     backupOk: bool, writeOk: bool)
      returns (effects: seq<Effect>)
      requires Valid() && CleanableType(fileType) && filesProcessed < linesRemoved
      modifies this`filesProcessed, this`fileTypesProcessed
      ensures Valid()
      ensures var reachesWrite := !BackupRaises() && (!BacksUp(resolved) || backupOk);
              var written := reachesWrite && writeOk;
              effects == (if BacksUp(resolved) then [Backup(resolved)] else [])
                         + (if reachesWrite then [Write(filePath, cleaned)] else []) &&
              filesProcessed == old(filesProcessed) + (if written then 1 else 0) &&
              fileTypesProcessed == old(fileTypesProcessed) + (if written then multiset{fileType} else multiset{})
    {
      effects := [];
      if BackupRaises() {
        return;
      }
      if BacksUp(resolved) {
        effects := effects + [Backup(resolved)];
        if !backupOk {
          return;
        }
      }
      effects := effects + [Write(filePath, cleaned)];
      if !writeOk {
        return;
      }
      filesProcessed := filesProcessed + 1;
      fileTypesProcessed := fileTypesProcessed + multiset{fileType};
    }
  }

  /*************************************************************************
   * validate_files
   *************************************************************************/

  /** What validate_files reports for one path. */
  function Verdict(file: string, isFile: string -> bool, resolve: string -> string): Result<string, string> {
    if !isFile(file) then Err(file + " (not a file)")
    else if !ValidateFileType(file) then Err(file + " (unsupported type)")
    else Ok(resolve(file))
  }

  /** Verdict with the file system fixed. */
  function Verdicts(isFile: string -> bool, resolve: string -> string): string -> Result<string, string> {
    file => Verdict(file, isFile, resolve)
  }

  /** The `valid_files` list: what each accepted path resolves to, in order. */
  function ValidFiles(files: seq<string>, verdict: string -> Result<string, string>): seq<string> {
    if files == [] then []
    else
      var last := verdict(files[|files| - 1]);
      ValidFiles(files[..|files| - 1], verdict) + (if last.Ok? then [last.value] else [])
  }

  /** The `invalid_files` list: each rejected path's message, in order. */
  function InvalidFiles(files: seq<string>, verdict: string -> Result<string, string>): seq<string> {
    if files == [] then []
    else
      var last := verdict(files[|files| - 1]);
      InvalidFiles(files[..|files| - 1], verdict) + (if last.Err? then [last.error] else [])
  }

  /** How the two lists grow by one path. */
  lemma ValidateStep(files: seq<string>, i: nat, verdict: string -> Result<string, string>)
    requires i < |files|
    ensures ValidFiles(files[..i + 1], verdict) ==
            ValidFiles(files[..i], verdict) + (if verdict(files[i]).Ok? then [verdict(files[i]).value] else [])
    ensures InvalidFiles(files[..i + 1], verdict) ==
            InvalidFiles(files[..i], verdict) + (if verdict(files[i]).Err? then [verdict(files[i]).error] else [])
  {
    assert files[..i + 1][..i] == files[..i];
  }

  /** Every accepted path's result is in `valid_files`, and nothing else is. */
  lemma {:induction false} ValidFilesMeaning(files: seq<string>, verdict: string -> Result<string, string>)
    ensures forall v :: v in ValidFiles(files, verdict) <==> exists j :: 0 <= j < |files| && verdict(files[j]) == Ok(v)
  {
    if files != [] {
      var n := |files| - 1;
      var init := files[..n];
      ValidFilesMeaning(init, verdict);
      forall v | exists j :: 0 <= j < |files| && verdict(files[j]) == Ok(v)
        ensures v in ValidFiles(files, verdict)
      {
        var j :| 0 <= j < |files| && verdict(files[j]) == Ok(v);
        if j < n {
          assert init[j] == files[j];
        }
      }
      forall v | v in ValidFiles(init, verdict)
        ensures exists j :: 0 <= j < |files| && verdict(files[j]) == Ok(v)
      {
        var j :| 0 <= j < n && verdict(init[j]) == Ok(v);
        assert init[j] == files[j];
      }
    }
  }

  /** Every rejected path's message is in `invalid_files`, and nothing else is. */
  lemma {:induction false} InvalidFilesMeaning(files: seq<string>, verdict: string -> Result<string, string>)
    ensures forall m :: m in InvalidFiles(files, verdict) <==> exists j :: 0 <= j < |files| && verdict(files[j]) == Err(m)
  {
    if files != [] {
      var n := |files| - 1;
      var init := files[..n];
      InvalidFilesMeaning(init, verdict);
      forall m | exists j :: 0 <= j < |files| && verdict(files[j]) == Err(m)
        ensures m in InvalidFiles(files, verdict)
      {
        var j :| 0 <= j < |files| && verdict(files[j]) == Err(m);
        if j < n {
          assert init[j] == files[j];
        }
      }
      forall m | m in InvalidFiles(init, verdict)
        ensures exists j :: 0 <= j < |files| && verdict(files[j]) == Err(m)
      {
        var j :| 0 <= j < n && verdict(init[j]) == Err(m);
        assert init[j] == files[j];
      }
    }
  }

  /** A path that exists and has a supported extension is accepted, and only such a path. */
  lemma VerdictAccepts(file: string, isFile: string -> bool, resolve: string -> string)
    ensures Verdicts(isFile, resolve)(file).Ok? <==> isFile(file) && ValidateFileType(file)
    ensures Verdicts(isFile, resolve)(file).Ok? ==> Verdicts(isFile, resolve)(file).value == resolve(file)
  {
  }

  /**
   * `LogCleaner.validate_files(files)`. `isFile` stands for
   * `Path(f).is_file()` and `resolve` for `str(Path(f).resolve())`.
   */
  method ValidateFiles(files: seq<string>, isFile: string -> bool, resolve: string -> string)
    returns (valid: seq<string>, invalid: seq<string>)
    ensures valid == ValidFiles(files, Verdicts(isFile, resolve))
    ensures invalid == InvalidFiles(files, Verdicts(isFile, resolve))
    ensures |valid| + |invalid| == |files|
  {
    ghost var verdict := Verdicts(isFile, resolve);
    valid, invalid := [], [];
    var i := 0;
    while i < |files|
      invariant 0 <= i <= |files|
      invariant valid == ValidFiles(files[..i], verdict)
      invariant invalid == InvalidFiles(files[..i], verdict)
      invariant |valid| + |invalid| == i
    {
      var file := files[i];
      ValidateStep(files, i, verdict);
      if !isFile(file) {
        invalid := invalid + [file + " (not a file)"];
      } else if !ValidateFileType(file) {
        invalid := invalid + [file + " (unsupported type)"];
      } else {
        valid := valid + [resolve(file)];
      }
      i := i + 1;
    }
    assert files[..i] == files;
  }
}

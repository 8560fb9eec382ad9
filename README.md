# log_cleaner core, modelled in Dafny

log_cleaner is a command-line tool with two jobs:

- **LogCleaner** (`src/logcleaner/cleaner.py`) removes logging statements from
  source files:
  - `console.<method>(...)` calls in `.js`, `.jsx`, `.ts` and `.tsx` files;
  - `import logging`, `logging.<m>(...)`, `logger.<m>(...)` and similar lines
    in `.py` files.
  It counts what it removed by statement type and by file type. It can copy
  each file into a timestamped backup folder under `lc-cleaned-assets` before
  rewriting it.
- **LogFileManager** (`src/logcleaner/file_manager.py`):
  - recognises log files by extension, by name pattern or by a date in their
    first five lines;
  - pulls the first parsable date out of a log line with a list of ten
    (regular expression, `strptime` format) pairs;
  - deletes every line dated before a cutoff from each log file.

## The modules

| Module | Contents |
|---|---|
| `Wrappers` | `Option` and `Result`. |
| `Text` | Python's `str.isspace`, the ASCII `\d`, `\w` and `[a-zA-Z]` classes, `strip()`, `lower()` and `in` on strings. Also the scanners the regular expressions are built from: the longest run of a class, and the first `)` before an excluded character. |
| `Paths` | The parts of `pathlib.PurePosixPath` the cleaner uses (`Path(s)`, `str(p)`, `.name`, `.suffix`, `.parent`, `/`, `relative_to`), plus `os.path.splitext` and `os.path.commonpath`. It also holds `validate_file_type`, `should_backup_file` and `get_assets_directory`. `PathProperties` holds the lemmas about them and the `test_cleaner.py` expectations. |
| `StatementMatcher` | The console pattern and the seven Python patterns, each as a recogniser at one position with a regex-shaped existential specification. It also holds `should_remove_line` and `get_statement_type`. |
| `Cleaner` | The `LogCleaner` class. Its statistics are fields, and each dictionary of counts is a multiset. It holds `remove_logging_statements` (with the line loop in `FilterLines`) and `validate_files`. Beside the class sit the specification functions `Kept`, `Removals` and `Tags`, with their lemmas. |
| `Timestamps` | Naive date-times with calendar validity and chronological order, and `datetime.strptime` for the directives the ten formats use. The round trip `ParseRender` is proved for any format without `%z`, `%a` or `%s`: parsing a rendered date-time gives it back. |
| `DateGrammar` | The ten date regular expressions as atom sequences, with leftmost search and `extract_date` over a list of grammars. |
| `FileManager` | `clean_logs_before_date`: the per-line fate, the truncation loop and the loop over files. It also holds `is_log_file`, with its extension set, its four name patterns and the scan of the first five lines. |
| `StatementExamples`, `CleanerExamples`, `DateExamples`, `FileManagerExamples` | The expectations of `tests/test_cleaner.py` and `tests/test_file_manager.py`, stated as lemmas about the model. |

File contents, file existence, the outcome of each write and the current
time are parameters:

- a file is a sequence of lines (`readlines()` keeps each line's `\n`);
- `Path.is_file()` is a boolean or a function of the path;
- a failing `open` is `None`.

Two methods return the writes they perform as a sequence of effects:
`RemoveLoggingStatements` (the backup copy and the rewrite) and
`CleanLogsBeforeDate` (the rewrites).

## Model

| member | source | states |
|---|---|---|
| `StatementMatcher.ShouldRemoveLine` | src/logcleaner/cleaner.py:481-503 | `should_remove_line`. A removed line is neither blank nor a `#` comment, and its type is a script type or `.py`. `ShouldRemoveLineMeaning` gives the full condition. |
| `StatementMatcher.ShouldRemoveLineMeaning` | src/logcleaner/cleaner.py:495-503 | A line is removed iff all of these hold: it is not blank; it does not start with `#` after stripping; and either the type is a script type and the console pattern matches somewhere, or the type is `.py` and one of the seven Python patterns matches somewhere. Every other type keeps every line. |
| `StatementMatcher.BlankOrCommentMeaning` | src/logcleaner/cleaner.py:495-497 | The early `False` fires iff the line is all whitespace, or its first non-blank character is `#`. |
| `StatementMatcher.ConsoleSearchMeaning` | src/logcleaner/cleaner.py:73-75 | `re.search` with the console pattern succeeds iff some position has all of these: a word boundary; `console.`; one of the 21 method names; optional whitespace; `(`; and a `)` reached before any `;`. |
| `StatementMatcher.ConsoleCallIff` | src/logcleaner/cleaner.py:54-60 | For any non-empty method name `m`, the recogniser for the text after `console.` accepts exactly `m`, then optional whitespace, then an open parenthesis that closes before a semicolon. The 21 names of `console_methods` enter through `ConsoleAtIff` and `ConsoleSearchMeaning`. |
| `StatementMatcher.ConsoleAtIff` | src/logcleaner/cleaner.py:73-75 | The per-position console recogniser holds iff the regex-shaped description matches at that position. |
| `StatementMatcher.PythonSearchMeaning` | src/logcleaner/cleaner.py:63-71 | `any(p.search(line))` holds iff one of the seven Python patterns matches at some position of the line. |
| `StatementMatcher.PyAtIff` | src/logcleaner/cleaner.py:63-71 | Each of the seven per-position recognisers holds iff its regular expression's shape occurs there. The shapes: `import logging`; `from`, whitespace, `logging`, whitespace, `import`, then at least one whitespace character; `_?logger = logging.getLogger(...)`, `logging.<letters>(...)` and `_?logger.<letters>(...)`, the last two with and without spaces before `(`. |
| `StatementMatcher.AssignFromIff` | src/logcleaner/cleaner.py:65 | The `getLogger` assignment recogniser accepts exactly `logger`, whitespace, `=`, whitespace, `logging.getLogger(`, and a `)` with no `)` before it. |
| `StatementMatcher.FromImportIff` | src/logcleaner/cleaner.py:64 | The second Python recogniser accepts exactly `from`, whitespace, `logging`, whitespace, `import`, then at least one whitespace character, as `\s+.*` after `import` demands. |
| `StatementMatcher.LoggerCallFromIff` | src/logcleaner/cleaner.py:66-70 | The call recogniser for `logging.` and `logger.` accepts exactly the prefix, a run of letters, optional whitespace, `(` and a closing `)`. |
| `StatementMatcher.WsThenIff` | src/logcleaner/cleaner.py:63 | The `\s+word` and `\s*word` pieces accept exactly whitespace of the right length followed by the word. |
| `StatementMatcher.CallFromIff` | src/logcleaner/cleaner.py:66-70 | The `\(\s*(...)*[^X]*?\)` tail accepts exactly `(` followed by a `)` with no excluded character before it. |
| `StatementMatcher.StatementType` | src/logcleaner/cleaner.py:505-534 | `get_statement_type`. A type that is neither a script type nor `.py` gives `unknown`. A script line gives `unknown` or a tag that starts with `console.`. `ScriptTagIsConsoleGroup`, `PythonTagPriority`, `LoggerTagReadsMethod` and `LoggingTagReadsMethod` give the tags exactly. |
| `StatementMatcher.WordGroup` | src/logcleaner/cleaner.py:520-534 | `re.search(r'<w>(\w+)')` returns a group iff some occurrence of `w` is followed by a word character. The group is a non-empty run of word characters. |
| `StatementMatcher.WordGroupAt` | src/logcleaner/cleaner.py:520-534 | The group is the maximal word run after the leftmost occurrence of `w` that is followed by a word character. |
| `StatementMatcher.RemovedScriptLineIsTagged` | src/logcleaner/cleaner.py:519-522 | A removed script line is always tagged `console.<m>` with `m` non-empty, never `unknown`. |
| `StatementMatcher.ScriptTagIsConsoleGroup` | src/logcleaner/cleaner.py:519-522 | A script line's tag is `console.` followed by the first `console.(\w+)` group. |
| `StatementMatcher.PythonTagPriority` | src/logcleaner/cleaner.py:523-534 | Each Python tag holds exactly when the earlier tests fail and its own succeeds, in this order: `import logging`, then `getLogger`, then `_logger.` or `logger.`, then `logging.`, and otherwise `unknown`. |
| `StatementMatcher.LoggerTagReadsMethod` | src/logcleaner/cleaner.py:527-529 | With no `import logging` and no `getLogger`, and a `logger.` followed by a word character present, the tag is `logger.` followed by the first such group. |
| `StatementMatcher.LoggingTagReadsMethod` | src/logcleaner/cleaner.py:530-532 | With no earlier marker, and a `logging.` followed by a word character present, the tag is `logging.` followed by the first such group. |
| `StatementMatcher.LoggerTag` | src/logcleaner/cleaner.py:527-529 | When the `logger` branch is taken, the tag is `logger_statement` or starts with `logger.`. |
| `StatementMatcher.LoggingTag` | src/logcleaner/cleaner.py:530-532 | When the `logging` branch is taken, the tag is `logging_statement` or starts with `logging.`. |
| `StatementMatcher.UnderscoreLoggerContainsLogger` | src/logcleaner/cleaner.py:527 | `'_logger.' in line` implies `'logger.' in line`, so the first disjunct of that test adds nothing. |
| `StatementMatcher.FixedTagsDiffer` | src/logcleaner/cleaner.py:523-534 | The five fixed tags are pairwise distinct, and none of them starts with `logger.` or `logging.`. |
| `StatementMatcher.TaggedDiffers` | src/logcleaner/cleaner.py:527-532 | No tag starts with both `logger.` and `logging.`, so the two families of counts never share a key. |
| `StatementMatcher.OtherTypesKeepEverything` | src/logcleaner/cleaner.py:499-503 | A type that is neither a script type nor `.py` removes nothing and tags everything `unknown`. |
| `StatementMatcher.ConsoleMatchNeedsConsole` | src/logcleaner/cleaner.py:73-75 | A console match needs `console.` in the line. |
| `StatementMatcher.PythonMatchNeedsMarker` | src/logcleaner/cleaner.py:63-71 | A Python match needs a `.`, a `=`, `import` or `from` in the line. |
| `StatementMatcher.PatternNeedsMarker` | src/logcleaner/cleaner.py:63-71 | The same, for each single pattern at a given position. |
| `StatementMatcher.ConsoleMethodsStartWithWord` | src/logcleaner/cleaner.py:54-60 | Every console method name is non-empty and starts with a word character. |
| `Cleaner.PassStep` | src/logcleaner/cleaner.py:438-451 | One more line appends it to the kept lines, or else appends a `(line number, stripped text)` removal and one tag. |
| `Cleaner.TagsCount` | src/logcleaner/cleaner.py:439-444 | The number of tags added equals the number of removals. |
| `Cleaner.PassPartition` | src/logcleaner/cleaner.py:438-451 | Kept lines plus removals account for every line. |
| `Cleaner.KeptPositions` | src/logcleaner/cleaner.py:448-451 | The kept lines are the input lines at increasing positions, and exactly the lines that are not removed. |
| `Cleaner.KeptInOrder` | src/logcleaner/cleaner.py:448-451 | The kept positions strictly increase. |
| `Cleaner.KeptIndicesBound` | src/logcleaner/cleaner.py:448-451 | Every kept position lies inside the file. |
| `Cleaner.KeptComplete` | src/logcleaner/cleaner.py:448-451 | A line that is not removed is among the kept lines. |
| `Cleaner.RemovalsSound` | src/logcleaner/cleaner.py:438-444 | Every removal names a 1-based line number of a line the predicate removes, with that line's stripped text. |
| `Cleaner.RemovalsOrdered` | src/logcleaner/cleaner.py:438-444 | Removal line numbers strictly increase. |
| `Cleaner.RemovalsComplete` | src/logcleaner/cleaner.py:438-444 | Every removed line has its removal recorded. |
| `Cleaner.TagsMeaning` | src/logcleaner/cleaner.py:439-442 | A tag is counted iff some removed line has that tag. |
| `Cleaner.TagsTally` | src/logcleaner/cleaner.py:439-442 | A tag's count is the number of removed lines that carry it. |
| `Cleaner.NothingToRemove` | src/logcleaner/cleaner.py:438-453 | When no line is removed, the pass keeps the file unchanged and records nothing, so no write happens. |
| `Cleaner.PassIdempotent` | src/logcleaner/cleaner.py:438-451 | Cleaning the cleaned lines again removes nothing. |
| `Cleaner.ScriptTagsNameConsoleMethods` | src/logcleaner/cleaner.py:439-442 | In a script file every counted statement type is `console.<m>` with `m` non-empty. |
| `Cleaner.RemovableNeedsCleanableType` | src/logcleaner/cleaner.py:499-503 | A removable line implies the file type is one of the five cleanable extensions. |
| `Cleaner.RemovalsNeedCleanableType` | src/logcleaner/cleaner.py:453-465 | A file with a removal has one of the five cleanable extensions, so `file_types_processed` only ever counts those. |
| `Cleaner.OtherTypesPassUntouched` | src/logcleaner/cleaner.py:429-453 | A file of any other extension keeps all its lines and records no removal. |
| `Cleaner.UppercaseScriptIsNotCleanable` | src/logcleaner/cleaner.py:429 | `os.path.splitext` keeps the case of `.JS`, and `.JS` is not a cleanable type. |
| `Cleaner.UppercaseScriptPassesButStaysUntouched` | src/logcleaner/cleaner.py:321 | `test.JS` passes `validate_file_type` (which lower-cases), yet `remove_logging_statements` removes nothing from it (which does not). |
| `Cleaner.LogCleaner.constructor` | src/logcleaner/cleaner.py:88-95 | All counters start at zero and both count maps start empty. The backup settings are as given, including whether `create_backup_directory` has set a backup folder. |
| `Cleaner.LogCleaner.BacksUp` | src/logcleaner/cleaner.py:549-556 | The condition under which `make_backup` copies the file: backups on, a backup folder set, and the file outside the assets folder. |
| `Cleaner.LogCleaner.BackupRaises` | src/logcleaner/cleaner.py:549 | Backups on with no backup folder set: reading the unset `current_backup_dir` raises `AttributeError`. |
| `Cleaner.LogCleaner.FilterLines` | src/logcleaner/cleaner.py:438-451 | The loop keeps exactly `Kept` and records exactly `Removals`. `lines_removed` grows by the number of removals, and `removed_statements` gains exactly `Tags`. |
| `Cleaner.LogCleaner.RemoveLoggingStatements` | src/logcleaner/cleaner.py:418-479 | A read failure changes nothing. Otherwise, with the type from `splitext`: the removals and tags are counted; when something was removed, a backup is made when due and the kept lines are written; the file and its type are counted only when the write succeeds. With backups on but no backup folder created, `make_backup` raises, so nothing is written and the file is not counted. `Valid()` is kept. |
| `Cleaner.LogCleaner.WriteBack` | src/logcleaner/cleaner.py:453-465 | The backup comes first when due. A `make_backup` that raises (backups on, no backup folder) skips the write, and so does a failed copy. A failed write skips the per-file counters. |
| `Cleaner.ValidFilesMeaning` | src/logcleaner/cleaner.py:336-348 | A string is among the valid files iff some input path is accepted and resolves to it. |
| `Cleaner.InvalidFilesMeaning` | src/logcleaner/cleaner.py:336-346 | A message is among the invalid files iff some input path is rejected with it: `<file> (not a file)` or `<file> (unsupported type)`. |
| `Cleaner.VerdictAccepts` | src/logcleaner/cleaner.py:341-346 | A path is accepted iff it is a file whose lower-cased suffix is supported. |
| `Cleaner.ValidateStep` | src/logcleaner/cleaner.py:340-346 | Each path appends its result to the end of exactly one of the two lists, so input order is kept. |
| `Cleaner.ValidateFiles` | src/logcleaner/cleaner.py:324-348 | The loop returns exactly the valid and invalid lists above, whose lengths sum to the number of inputs. |
| `Paths.ParseStr` | src/logcleaner/cleaner.py:217-229 | Parsing the string form of a well-formed path gives the path back. |
| `Paths.JoinSplit` | src/logcleaner/cleaner.py:217-229 | Joining the `/`-separated pieces of a string gives the string back. |
| `Paths.SplitJoin` | src/logcleaner/cleaner.py:217-229 | Splitting a join of slash-free pieces gives the pieces back. |
| `Paths.RFind` | src/logcleaner/cleaner.py:321 | The index of the last occurrence of a character, or -1 when it does not occur. |
| `Paths.SplitExt` | src/logcleaner/cleaner.py:429 | `os.path.splitext(path)[1]`. A non-empty result is a trailing part of the path that starts with its only dot and holds no `/`. |
| `Paths.MinMaxCommonPrefix` | src/logcleaner/cleaner.py:223 | `os.path.commonpath`'s method, the common prefix of the least and greatest component lists, gives the longest prefix common to all of them. |
| `Paths.CommonPath` | src/logcleaner/cleaner.py:223 | `os.path.commonpath` on POSIX, with `None` where it raises `ValueError`. `CommonPathMeaning` states the result. |
| `Paths.CommonPathMeaning` | src/logcleaner/cleaner.py:223 | `commonpath` fails on an empty list or a mix of absolute and relative paths. Otherwise its result's components are the longest common prefix of all the inputs' components. |
| `Paths.ValidateFileType` | src/logcleaner/cleaner.py:308-322 | `validate_file_type`. An accepted path has a non-empty suffix, and the lower-cased suffix is one of the supported extensions. |
| `PathProperties.ExtensionOfPlainName` | src/logcleaner/cleaner.py:321 | For a name `stem + ext` with a plain extension, both `.suffix` and `os.path.splitext` return `ext`. |
| `PathProperties.ValidateFileTypeOfPlainName` | src/logcleaner/cleaner.py:321 | `validate_file_type(stem + ext)` holds iff `ext.lower()` is one of `.js .jsx .ts .tsx .py`. |
| `PathProperties.NoDotNoType` | src/logcleaner/cleaner.py:321 | A path without a dot is never a supported type. |
| `PathProperties.Accepted` | src/logcleaner/cleaner.py:20-26 | Every supported extension after a plain stem is accepted. |
| `PathProperties.Rejected` | src/logcleaner/cleaner.py:20-26 | Every other lower-case plain extension is rejected. |
| `Paths.ShouldBackupFile` | src/logcleaner/cleaner.py:350-371 | `should_backup_file`, with the assets folder passed in. `ShouldBackupFileMeaning` states when a file is backed up. |
| `PathProperties.ShouldBackupFileMeaning` | src/logcleaner/cleaner.py:363-371 | With an assets folder, a file is skipped iff it lies under that folder. Without one, every file is backed up. |
| `Paths.GetAssetsDirectory` | src/logcleaner/cleaner.py:205-229 | `get_assets_directory` over resolved paths, with `None` where `commonpath` raises. `DirectoryModeBackup`, `FileListModeAssets` and `SharedParentAssets` state its results. |
| `PathProperties.DirectoryModeBackup` | src/logcleaner/cleaner.py:225-229 | Cleaning a directory puts the assets in `<dir>/lc-cleaned-assets`. A file under the directory is backed up iff it is not inside that folder. |
| `PathProperties.FileListModeAssets` | src/logcleaner/cleaner.py:217-223 | A file list gives no assets folder only when the list is empty. Otherwise the folder is the longest common prefix of the parents' components, joined with `lc-cleaned-assets`. |
| `PathProperties.SharedParentAssets` | src/logcleaner/cleaner.py:217-229 | Files that share one parent get `<parent>/lc-cleaned-assets`. |
| `PathProperties.AcceptsTestJs` | tests/test_cleaner.py:175-190 | `test.js` is accepted. |
| `PathProperties.AcceptsTestTsx` | tests/test_cleaner.py:175-190 | `test.tsx` is accepted. |
| `PathProperties.AcceptsAbsoluteJs` | tests/test_cleaner.py:175-190 | `/path/to/test.js` is accepted. |
| `PathProperties.AcceptsBackslashPy` | tests/test_cleaner.py:175-190 | `C:\path\to\test.py` is accepted, because POSIX paths treat the whole string as one name. |
| `PathProperties.RejectsTestTxt` | tests/test_cleaner.py:175-190 | `test.txt` is rejected. |
| `PathProperties.RejectsBare` | tests/test_cleaner.py:175-190 | `test` is rejected. |
| `PathProperties.RejectsBackslashDoc` | tests/test_cleaner.py:175-190 | `C:\path\to\test.doc` is rejected. |
| `PathProperties.UppercaseExtension` | src/logcleaner/cleaner.py:321 | `test.JS` validates, but `splitext` gives `.JS`. |
| `PathProperties.LeadingDotsName` | src/logcleaner/cleaner.py:321 | `..js` validates by `.suffix`, while `splitext` gives it no extension. |
| `Timestamps.DaysInMonth` | src/logcleaner/file_manager.py:259 | Month lengths lie between 28 and 31. |
| `Timestamps.BeforeIsStrictTotalOrder` | src/logcleaner/file_manager.py:218 | Comparison of naive date-times is irreflexive, asymmetric, transitive and total. |
| `Timestamps.EarlierDayIsBefore` | src/logcleaner/file_manager.py:218 | An earlier calendar day is earlier whatever the time of day. |
| `Timestamps.Parse` | src/logcleaner/file_manager.py:259 | `strptime` yields only valid date-times, never succeeds with `%s`, and yields a naive value unless `%z` is in the format. |
| `Timestamps.DateOnlyIsMidnight` | src/logcleaner/file_manager.py:256-263 | A format without time directives yields midnight, naive. |
| `Timestamps.ParseRender` | src/logcleaner/file_manager.py:51-62 | Take a valid date-time and any format without `%z`, `%a` or `%s`, where `%f` is not followed by a numeric directive and a blank is not followed by another blank. If the format covers every field that is not at its default, rendering and parsing back gives the same naive date-time. |
| `Timestamps.RenderAppend` | src/logcleaner/file_manager.py:51-62 | Rendering a concatenated format concatenates the renderings. |
| `Timestamps.MonthNameReadsBack` | src/logcleaner/file_manager.py:56 | Each month's abbreviation reads back, case-insensitively, as that month. |
| `Timestamps.Pad` | src/logcleaner/file_manager.py:51-62 | A zero-padded field has the given width, only digits, and the value it encodes. |
| `Timestamps.FillAllFields` | src/logcleaner/file_manager.py:51-62 | Reading a rendering back fills exactly the fields the format names. |
| `DateGrammar.MatchEndSound` | src/logcleaner/file_manager.py:257 | The matcher's end is a match of the grammar's atoms. |
| `DateGrammar.MatchEndComplete` | src/logcleaner/file_manager.py:257 | Every match of a greedy-safe atom sequence is the one found. |
| `DateGrammar.MatchEndAppend` | src/logcleaner/file_manager.py:51-62 | Matching a concatenation matches the parts in turn. |
| `DateGrammar.MatchAtMeaning` | src/logcleaner/file_manager.py:257 | For a safe grammar, the match at a position exists iff the regular expression matches there, and it is unique. |
| `DateGrammar.SearchFrom` | src/logcleaner/file_manager.py:257 | The position found is the first one from which the grammar matches. |
| `DateGrammar.SearchIsLeftmostMatch` | src/logcleaner/file_manager.py:257 | `re.search` reports the leftmost position where the grammar matches, and reports nothing iff it matches nowhere. |
| `DateGrammar.ExtractDateWith` | src/logcleaner/file_manager.py:239-263 | `extract_date` over a given list of grammars. `FirstSuccess` states the result. |
| `DateGrammar.FirstSuccess` | src/logcleaner/file_manager.py:256-263 | `extract_date` is `None` iff every pair fails. Otherwise the result is that of the first pair whose search and `strptime` both succeed: a failing `strptime` moves on to the next pair. |
| `DateGrammar.ExtractDate` | src/logcleaner/file_manager.py:239-263 | `extract_date` with the ten shipped grammars in their order. `BareDateShadows` and `EpochGrammarIsDead` state how that list behaves. |
| `DateGrammar.DeadGrammarIsSkipped` | src/logcleaner/file_manager.py:256-263 | A pair that never parses can be removed from the list without changing any result. |
| `DateGrammar.NeedsChar` | src/logcleaner/file_manager.py:257 | A grammar that requires a character absent from the line finds nothing. |
| `DateGrammar.ShippedGrammarsAreSafe` | src/logcleaner/file_manager.py:51-62 | All ten shipped grammars satisfy the greedy-safety condition the matcher relies on. |
| `DateGrammar.BareDateShadows` | src/logcleaner/file_manager.py:256-263 | When the leftmost `YYYY-MM-DD` is a valid date, the shipped list returns that date at midnight, even when a time follows. |
| `DateGrammar.EpochGrammarIsDead` | src/logcleaner/file_manager.py:57 | The `(\d{10})`/`%s` pair never contributes. |
| `FileManager.LineFate` | src/logcleaner/file_manager.py:209-222 | The fate of one line in `clean_logs_before_date`: kept, dropped, or a `TypeError` clash. `FateMeaning` states when each happens. |
| `FileManager.BlankLineIsKept` | src/logcleaner/file_manager.py:210-212 | A whitespace-only line is always kept. |
| `FileManager.FateMeaning` | src/logcleaner/file_manager.py:210-222 | A line is dropped iff it is non-blank and its date is naive and before the cutoff. It is kept when it has no date or a date at or after the cutoff. An aware date makes the comparison raise. |
| `FileManager.LaterCutoffDropsMore` | src/logcleaner/file_manager.py:218-222 | A line dropped under a cutoff is dropped under any later one. |
| `FileManager.ClashesMeaning` | src/logcleaner/file_manager.py:209-222 | The file raises iff some line has an aware date. |
| `FileManager.TruncationPartition` | src/logcleaner/file_manager.py:209-222 | Without a clash, survivors plus dropped lines account for every line. |
| `FileManager.SurvivorPositions` | src/logcleaner/file_manager.py:209-222 | The survivors are exactly the kept lines, in their original order. |
| `FileManager.AllKept` | src/logcleaner/file_manager.py:209-222 | When every line is kept, the file is unchanged and nothing is counted. |
| `FileManager.TruncationIdempotent` | src/logcleaner/file_manager.py:209-222 | Cleaning the survivors again drops nothing. |
| `FileManager.BlankLinesSurvive` | src/logcleaner/file_manager.py:210-212 | Every blank line of a file survives. |
| `FileManager.LaterCutoffDropsAtLeastAsMany` | src/logcleaner/file_manager.py:218-222 | A later cutoff drops at least as many lines from a file. |
| `FileManager.TruncateLines` | src/logcleaner/file_manager.py:207-222 | The inner loop raises iff a line clashes. Otherwise it returns the survivors and the drop count, and `modified` holds iff a line was dropped. |
| `FileManager.CleanedFileLostLines` | src/logcleaner/file_manager.py:224-229 | A cleaned file lost at least one line, and a file that is not cleaned contributes nothing. |
| `FileManager.CountsBounded` | src/logcleaner/file_manager.py:224-231 | Files cleaned is at most the number of files and at most the lines removed. |
| `FileManager.TotalsAppend` | src/logcleaner/file_manager.py:198-237 | The totals over two lists of files add up. |
| `FileManager.SkippedFileCountsNothing` | src/logcleaner/file_manager.py:233-235 | A file that fails or needs no cleaning can be dropped from the list without changing either count. |
| `FileManager.CleanLogsBeforeDate` | src/logcleaner/file_manager.py:195-237 | The loop returns the number of files cleaned and the lines removed, and performs the rewrites, exactly as the specification functions state. A file that cannot be read, cannot be written or raises on comparison contributes nothing. |
| `FileManager.NamePatternMatchesMeaning` | src/logcleaner/file_manager.py:109-111 | The executable name check holds iff one of the four `re.search` patterns matches at the end of the lower-cased name, or before a final newline. |
| `FileManager.RotatedEndsAtMeaning` | src/logcleaner/file_manager.py:66 | `\.log(\.\d+)?$` is recognised exactly. |
| `FileManager.PluralEndsAtMeaning` | src/logcleaner/file_manager.py:67 | `\.logs$` is recognised exactly. |
| `FileManager.LevelEndsAtMeaning` | src/logcleaner/file_manager.py:68 | `\.(error\|debug\|info)$` is recognised exactly. |
| `FileManager.TaggedEndsAtMeaning` | src/logcleaner/file_manager.py:69 | `\.log\.[0-9A-Za-z-]+$` is recognised exactly. |
| `FileManager.FirstLines` | src/logcleaner/file_manager.py:115-122 | The first five lines are read, or all of them when there are no more. |
| `FileManager.AnyPatternFoundMeaning` | src/logcleaner/file_manager.py:124-126 | A line looks dated iff some date grammar's search succeeds on it. `strptime` is not consulted. |
| `FileManager.AnyLineLooksDatedMeaning` | src/logcleaner/file_manager.py:115-127 | The content check holds iff some of the first five stripped lines looks dated. |
| `FileManager.SearchFindsMatch` | src/logcleaner/file_manager.py:125 | For a safe grammar, a search succeeds iff the regular expression matches somewhere. |
| `FileManager.IsLogFile` | src/logcleaner/file_manager.py:100-135 | `is_log_file`. Only a file can be a log file. `IsLogFileMeaning` gives the full condition. |
| `FileManager.IsLogFileMeaning` | src/logcleaner/file_manager.py:100-135 | A non-file is never a log file. A log extension or a name pattern makes it one. Otherwise the answer is the content check, and `False` when the file cannot be read. |
| `StatementExamples.ImportLoggingIsRemoved` | tests/test_cleaner.py:59-65 | `import logging` is removed from `.py`. |
| `StatementExamples.LoggerInfoIsRemoved` | tests/test_cleaner.py:59-65 | `logger.info("test")` is removed. |
| `StatementExamples.LoggingErrorIsRemoved` | tests/test_cleaner.py:59-65 | `logging.error("test")` is removed. |
| `StatementExamples.CommentedCallIsKept` | tests/test_cleaner.py:59-65 | A commented-out call is kept. |
| `StatementExamples.OtherLoggerFunctionIsKept` | tests/test_cleaner.py:59-65 | `my_logger("test")` is kept. |
| `StatementExamples.ConsoleLogTag` | tests/test_cleaner.py:67-71 | `console.log("test");` in `.js` is tagged `console.log`. |
| `StatementExamples.ConsoleErrorTag` | tests/test_cleaner.py:214-225 | Tagged `console.error`. |
| `StatementExamples.ConsoleWarnTag` | tests/test_cleaner.py:214-225 | Tagged `console.warn`. |
| `StatementExamples.ConsoleDebugTag` | tests/test_cleaner.py:214-225 | Tagged `console.debug`. |
| `StatementExamples.PlainScriptLineIsUnknown` | tests/test_cleaner.py:214-225 | A script line without a console call is tagged `unknown`. |
| `StatementExamples.ImportLoggingTag` | tests/test_cleaner.py:67-71 | `import logging` is tagged `logging_import`. |
| `StatementExamples.GetLoggerTag` | tests/test_cleaner.py:227-239 | `logger = logging.getLogger(__name__)` is tagged `logger_definition`. |
| `StatementExamples.LoggerInfoTag` | tests/test_cleaner.py:67-71 | `logger.info("test")` is tagged `logger.info`. |
| `StatementExamples.LoggingErrorTag` | tests/test_cleaner.py:227-239 | `logging.error("test")` is tagged `logging.error`. |
| `StatementExamples.UnderscoreLoggerTag` | tests/test_cleaner.py:227-239 | `_logger.debug("test")` is tagged `logger.debug`. |
| `StatementExamples.PlainPythonLineIsUnknown` | tests/test_cleaner.py:227-239 | A Python line with no marker is tagged `unknown`. |
| `StatementExamples.FromImportRemovedAsUnknown` | src/logcleaner/cleaner.py:523-534 | `from logging import handlers` is removed but counted as `unknown`, because no tag test looks for `from logging`. |
| `CleanerExamples.ThreeLinePass` | src/logcleaner/cleaner.py:438-451 | On three lines where the middle one is kept, the kept lines and the numbered, stripped removals are as expected. |
| `CleanerExamples.ScriptRemovalCounting` | tests/test_cleaner.py:155-173 | The three-line `.js` file loses two lines. |
| `CleanerExamples.PythonRemovalCounting` | tests/test_cleaner.py:155-173 | The three-line `.py` file loses two lines. |
| `CleanerExamples.ScriptFileStatistics` | tests/test_cleaner.py:155-173 | A fresh cleaner run on the `.js` file counts two lines and one file, and writes back `valid code;\n` alone. |
| `CleanerExamples.MissingBackupFolderSkipsWrite` | src/logcleaner/cleaner.py:453-479 | With backups on and no backup folder created, the same file counts two lines but no file, and nothing is written. |
| `DateExamples.OverriddenListGivesFullTime` | tests/test_file_manager.py:149-178 | With the list the test installs, `2024-02-15 10:30:45 INFO Test` gives 2024-02-15 10:30:45. |
| `DateExamples.OverriddenListReadsBrackets` | tests/test_file_manager.py:149-178 | With that list, `[Feb 15 10:30:45 2024] Test` gives the same date-time. |
| `DateExamples.ShippedListGivesMidnight` | src/logcleaner/file_manager.py:51-62 | With the shipped list, that first line gives 2024-02-15 at midnight, because the bare-date pair comes first. |
| `DateExamples.ShippedListReadsSyslog` | src/logcleaner/file_manager.py:51-62 | With the shipped list, the bracketed line gives 2024-02-15 10:30:45 through the sixth pair. |
| `FileManagerExamples.TestLogIsLogFile` | tests/test_file_manager.py:64-78 | `test.log` is a log file. |
| `FileManagerExamples.TestTxtIsNotLogFile` | tests/test_file_manager.py:64-78 | `test.txt` holding plain text is not one. |
| `FileManagerExamples.LogLikeTxtIsLogFile` | tests/test_file_manager.py:80-101 | A `.txt` file whose first line starts `2024-02-15 10:30:45` is a log file, whatever its name. |
| `FileManagerExamples.FakeLogIsLogFile` | tests/test_file_manager.py:80-101 | `fake.log` is a log file by extension, whatever its contents. |
| `FileManagerExamples.RandomTxtIsNotLogFile` | tests/test_file_manager.py:80-101 | `random.txt` without dates is not one. |
| `FileManagerExamples.LogExtensionWins` | src/logcleaner/file_manager.py:106-107 | Any name ending in `.log`, in any case, makes a file a log file. |
| `FileManagerExamples.DatedFirstLineWins` | src/logcleaner/file_manager.py:113-126 | A first line that starts with a `YYYY-MM-DD` date makes a file a log file. |
| `FileManagerExamples.PlainTextLoses` | src/logcleaner/file_manager.py:100-135 | A `.txt` file whose lines hold no digit is not a log file. |
| `FileManagerExamples.ContentsDecide` | src/logcleaner/file_manager.py:113-135 | When neither the extension nor the name decides, the contents do. |

## Left out

- Character classes are ASCII. `\d`, `\w` and `str.lower()` are modelled on
  ASCII only; Python also accepts other Unicode digits, letters and cases.
  `str.isspace` and `strip()` are modelled with Python's full whitespace set.
- `strptime` is modelled in the C locale, for the directives the ten formats
  use and at the widths their regular expressions let through.
  `%s` is not a `strptime` directive, so it always fails.
- Dates carry no time zone arithmetic. An aware date is compared with the
  naive cutoff, which raises `TypeError`. The whole file is then skipped,
  with nothing written and nothing counted.
- `datetime.now()` is not modelled. The cutoff is a parameter, and so is the
  list of date patterns; `ExtractDate` fixes the shipped list.
- File I/O is modelled through parameters. Reading, writing, `is_file()` and
  `resolve()` are parameters or effects, and a failed write is atomic. A
  partially written file is not modelled.
- `errors='ignore'` decoding is not modelled. Files are already sequences of
  lines.
- Console UI messages, the session log (`self.logger`) and the summary
  report are not modelled.
- `make_backup` is modelled only by the condition under which it copies a
  file, and the copy is a `Backup` effect. The backup path and the directory
  creation are not modelled.
- `create_backup_directory` and the timestamped backup folder are not
  modelled. The class only records whether the folder was created. If it was
  not and backups are on, `make_backup` raises and the file is not written;
  `BackupRaises` states that case.
- `process_files`, `get_log_files`, `initialize_session` and the interactive
  prompts are not modelled.
- The cron helpers (`setup_cron_job`, `get_cron_jobs`, `remove_cron_job`,
  `has_cron_job`, `remove_specific_cron_job`) and `GracefulExit` are not
  modelled. They are I/O against the user's crontab and signals.
- `rel_path` for the success message is not modelled, because it only
  affects printing.
- `Cleaner.LogCleaner.FilterLines`: the removal predicate and the tagger are
  function parameters. `RemoveLoggingStatements` passes `should_remove_line`
  and `get_statement_type` for the file's type.
- `FileManager.TruncateLines`: the per-line fate is a function parameter.
  `CleanLogsBeforeDate` passes the date comparison with the cutoff.
- `get_assets_directory` resolves paths against the file system. The model
  takes already-resolved paths; `Resolved` states the assumption.
- Paths are POSIX paths. Windows drive letters and backslashes are ordinary
  characters, as `pathlib` treats them on POSIX.
- The console pattern is built from the 21 names in `console_methods`
  (cleaner.py:54-60), and the model uses the same list.
- Extensions are compared in two ways. `validate_file_type` lower-cases the
  suffix, but `remove_logging_statements` compares the unlowered `splitext`
  result, so a `.JS` file is accepted yet left untouched. The model follows
  the code; `UppercaseScriptPassesButStaysUntouched` states the outcome.
- `is_log_file` catches every exception. Failures of `is_file` and of the
  read are modelled as the `isFile` flag and a `None` content. Nothing else
  in that path can raise in the model.

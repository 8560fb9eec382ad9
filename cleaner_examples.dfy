/**
 * The cleaner's removal-counting expectations: a three-line script file and
 * a three-line Python file each lose two lines, and a fresh LogCleaner that
 * rewrites the script file reports two removed lines.
 */
module CleanerExamples {
  import opened Wrappers
  import opened Text
  import opened StatementMatcher
  import opened StatementExamples
  import opened Paths
  import PathProperties
  import opened Cleaner

  /** A removed, a kept and a removed line: two removals, numbered 1 and 3. */
  lemma ThreeLinePass(a: string, b: string, c: string, remove: string -> bool)
    requires remove(a) && !remove(b) && remove(c)
    ensures Kept([a, b, c], remove) == [b]
    ensures Removals([a, b, c], remove) == [Removal(1, Strip(a)), Removal(3, Strip(c))]
  {
    assert [a, b, c][..2] == [a, b];
    assert [a, b][..1] == [a];
    assert [a][..0] == [];
    assert Kept([a], remove) == [] && Removals([a], remove) == [Removal(1, Strip(a))];
    assert Kept([a, b], remove) == [b] && Removals([a, b], remove) == [Removal(1, Strip(a))];
  }

  // ---- a script file ----------------------------------------------------

  /** A script line that starts with `console.` and a listed method call is removed. */
  lemma ConsoleLineIsRemoved(s: string, i: nat)
    requires |s| > 8 && !IsSpace(s[0]) && s[0] != '#' && IsWordChar(s[0])
    requires LitAt(s, 0, "console.") && i < |ConsoleMethods| && ConsoleCall(s, 8, ConsoleMethods[i])
    ensures ShouldRemoveLine(s, ".js")
  {
    PlainStart(s);
    assert AnyConsoleCall(s, 8, 0);
    assert ConsoleAt(s, 0);
    assert ConsoleSearchFrom(s, 0);
  }

  lemma ConsoleLogCall()
    ensures ConsoleCall("console.log('test');\n", 8, "log")
  {
    assert LitAt("console.log('test');\n", 8, "log");
    assert RunEnd("console.log('test');\n", 11, Space) == 11;
    assert Closes("console.log('test');\n", 12, Semicolon);
  }

  lemma ConsoleLogLineIsRemoved()
    ensures ShouldRemoveLine("console.log('test');\n", ".js")
  {
    ConsoleLogCall();
    assert LitAt("console.log('test');\n", 0, "console.");
    ConsoleLineIsRemoved("console.log('test');\n", 0);
  }

  lemma ConsoleErrorCall()
    ensures ConsoleCall("console.error('test');", 8, "error")
  {
    ConsoleErrorName();
    ConsoleErrorCloses();
  }

  lemma ConsoleErrorName()
    ensures LitAt("console.error('test');", 8, "error") && RunEnd("console.error('test');", 13, Space) == 13
  {
  }

  lemma ConsoleErrorCloses()
    ensures Closes("console.error('test');", 14, Semicolon)
  {
  }

  lemma ConsoleErrorLineIsRemoved()
    ensures ShouldRemoveLine("console.error('test');", ".js")
  {
    ConsoleErrorCall();
    assert LitAt("console.error('test');", 0, "console.");
    ConsoleLineIsRemoved("console.error('test');", 1);
  }

  lemma PlainScriptLineIsKept()
    ensures !ShouldRemoveLine("valid code;\n", ".js")
  {
    NotContainsMissingChar("valid code;\n", "console.", 2);
    if ConsoleSearch("valid code;\n") {
      ConsoleMatchNeedsConsole("valid code;\n");
      assert false;
    }
  }

  /** Two of the three script lines go, and the plain line stays. */
  lemma ScriptRemovalCounting()
    ensures var lines := ["console.log('test');\n", "valid code;\n", "console.error('test');"];
            |Removals(lines, Remover(".js"))| == 2 && Kept(lines, Remover(".js")) == ["valid code;\n"]
  {
    ConsoleLogLineIsRemoved();
    PlainScriptLineIsKept();
    ConsoleErrorLineIsRemoved();
    ThreeLinePass("console.log('test');\n", "valid code;\n", "console.error('test');", Remover(".js"));
  }

  // ---- a Python file ----------------------------------------------------

  lemma ImportLineIsRemoved()
    ensures ShouldRemoveLine("import logging\n", ".py")
  {
    assert LitAt("import logging\n", 0, "import");
    assert RunEnd("import logging\n", 6, Space) == 7;
    assert LitAt("import logging\n", 7, "logging");
    assert PythonPatterns[0] == ImportLogging;
    RemovedByPattern("import logging\n", 0, 0);
  }

  lemma LoggerCallLineIsRemoved()
    ensures ShouldRemoveLine("logger.info('test')", ".py")
  {
    LoggerInfoCall();
    assert PythonPatterns[4] == LoggerCall;
    RemovedByPattern("logger.info('test')", 4, 0);
  }

  lemma LoggerInfoCall()
    ensures PyAt(LoggerCall, "logger.info('test')", 0)
  {
    LoggerInfoPieces();
    assert "logger.info('test')"[11] == '(';
    assert CallFrom("logger.info('test')", 7, false);
    assert LoggerCallFrom("logger.info('test')", 0, false);
  }

  lemma LoggerInfoPieces()
    ensures LitAt("logger.info('test')", 0, "logger.") && RunEnd("logger.info('test')", 7, Letter) == 11
    ensures Closes("logger.info('test')", 12, CloseParen)
  {
    LoggerPrefix();
    LoggerMethodEnd();
    LoggerArgumentCloses();
  }

  lemma LoggerPrefix()
    ensures LitAt("logger.info('test')", 0, "logger.")
  {
  }

  lemma LoggerMethodEnd()
    ensures RunEnd("logger.info('test')", 7, Letter) == 11
  {
    assert !IsAsciiLetter("logger.info('test')"[11]);
    assert Run("logger.info('test')", 7, 11, Letter);
    RunEndUnique("logger.info('test')", 7, 11, Letter);
  }

  lemma LoggerArgumentCloses()
    ensures Closes("logger.info('test')", 12, CloseParen)
  {
    assert ClosesAt("logger.info('test')", 12, 18, CloseParen);
  }

  lemma PlainPythonLineIsKept()
    ensures !ShouldRemoveLine("valid code\n", ".py")
  {
    NotContainsMissingChar("valid code\n", "import", 1);
    NotContainsMissingChar("valid code\n", "from", 0);
    assert '.' !in "valid code\n" && '=' !in "valid code\n";
    PythonIsNotScript();
    if PythonSearch("valid code\n") {
      PythonMatchNeedsMarker("valid code\n");
      assert false;
    }
  }

  /** Two of the three Python lines go, and the plain line stays. */
  lemma PythonRemovalCounting()
    ensures var lines := ["import logging\n", "valid code\n", "logger.info('test')"];
            |Removals(lines, Remover(".py"))| == 2 && Kept(lines, Remover(".py")) == ["valid code\n"]
  {
    ImportLineIsRemoved();
    PlainPythonLineIsKept();
    LoggerCallLineIsRemoved();
    ThreeLinePass("import logging\n", "valid code\n", "logger.info('test')", Remover(".py"));
  }

  // ---- the statistics ---------------------------------------------------

  lemma TestJsType()
    ensures SplitExt("test.js") == ".js"
  {
    PathProperties.SupportedExtensionsShape();
    assert ".js" in SupportedExtensions;
    assert "test" + ".js" == "test.js";
    PathProperties.SplitExtOfPlainName("test", ".js");
  }

  /**
   * A new cleaner without backups rewrites `test.js` holding the three
   * script lines: it counts two removed lines, one processed file, and
   * writes back the plain line alone.
   */
  method ScriptFileStatistics(resolved: PurePath) returns (linesRemoved: nat, filesProcessed: nat, written: seq<Effect>)
    ensures linesRemoved == 2 && filesProcessed == 1
    ensures written == [Write("test.js", ["valid code;\n"])]
  {
    var cleaner := new LogCleaner(false, None, false);
    TestJsType();
    ScriptRemovalCounting();
    var removed;
    removed, written := cleaner.RemoveLoggingStatements(
      "test.js", resolved, Some(["console.log('test');\n", "valid code;\n", "console.error('test');"]), true, true);
    linesRemoved, filesProcessed := cleaner.linesRemoved, cleaner.filesProcessed;
  }

  /**
   * Backups switched on but no backup folder created: make_backup raises
   * before copying, so the removals are counted and nothing is written.
   */
  method MissingBackupFolderSkipsWrite(resolved: PurePath) returns (linesRemoved: nat, filesProcessed: nat, effects: seq<Effect>)
    ensures linesRemoved == 2 && filesProcessed == 0 && effects == []
  {
    var cleaner := new LogCleaner(true, None, false);
    TestJsType();
    ScriptRemovalCounting();
    var removed;
    removed, effects := cleaner.RemoveLoggingStatements(
      "test.js", resolved, Some(["console.log('test');\n", "valid code;\n", "console.error('test');"]), true, true);
    linesRemoved, filesProcessed := cleaner.linesRemoved, cleaner.filesProcessed;
  }
}

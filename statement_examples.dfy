/**
 * The cleaner's own unit-test expectations for should_remove_line and
 * get_statement_type, and a case the tests do not cover, stated as lemmas
 * about the model. Each literal is walked through in small steps so that
 * the verifier only ever unfolds a few positions at a time.
 */
module StatementExamples {
  import opened Wrappers
  import opened Text
  import opened StatementMatcher

  /** A line whose first character is neither whitespace nor '#' is not exempt. */
  lemma PlainStart(s: string)
    requires |s| > 0 && !IsSpace(s[0]) && s[0] != '#'
    ensures !BlankOrComment(s)
  {
    RunEndUnique(s, 0, 0, Space);
    StripFirst(s);
  }

  /** A Python line is removed as soon as one of the seven patterns matches somewhere. */
  lemma RemovedByPattern(s: string, i: nat, p: nat)
    requires |s| > 0 && !IsSpace(s[0]) && s[0] != '#'
    requires i < |PythonPatterns| && p <= |s| && PyAt(PythonPatterns[i], s, p)
    ensures ShouldRemoveLine(s, PythonFileType)
  {
    PlainStart(s);
    assert PySearchFrom(PythonPatterns[i], s, 0);
    assert PythonSearch(s);
    PythonIsNotScript();
  }

  /** Without the word w, no tag is read after it. */
  lemma NoWordGroupWithout(s: string, w: string)
    requires !Contains(s, w)
    ensures WordGroup(s, w).None?
  {
    forall p | WordMatchAt(s, w, p)
      ensures false
    {
      ContainsAt(s, w, p);
    }
  }

  // ---- should_remove_line, Python ---------------------------------------

  lemma ImportLoggingIsRemoved()
    ensures ShouldRemoveLine("import logging", ".py")
  {
    assert LitAt("import logging", 0, "import");
    assert RunEnd("import logging", 6, Space) == 7;
    assert LitAt("import logging", 7, "logging");
    assert PythonPatterns[0] == ImportLogging;
    RemovedByPattern("import logging", 0, 0);
  }

  lemma LoggerInfoCallAt0()
    ensures PyAt(LoggerCall, "logger.info(\"test\")", 0)
  {
    assert LitAt("logger.info(\"test\")", 0, "logger.");
    assert RunEnd("logger.info(\"test\")", 7, Letter) == 11;
    assert Closes("logger.info(\"test\")", 12, CloseParen);
  }

  lemma LoggerInfoIsRemoved()
    ensures ShouldRemoveLine("logger.info(\"test\")", ".py")
  {
    LoggerInfoCallAt0();
    assert PythonPatterns[4] == LoggerCall;
    RemovedByPattern("logger.info(\"test\")", 4, 0);
  }

  lemma LoggingErrorCallAt0()
    ensures PyAt(LoggingCall, "logging.error(\"test\")", 0)
  {
    assert LitAt("logging.error(\"test\")", 0, "logging.");
    RunEndUnique("logging.error(\"test\")", 8, 13, Letter);
    assert Closes("logging.error(\"test\")", 14, CloseParen);
  }

  lemma LoggingErrorIsRemoved()
    ensures ShouldRemoveLine("logging.error(\"test\")", ".py")
  {
    LoggingErrorCallAt0();
    assert PythonPatterns[3] == LoggingCall;
    RemovedByPattern("logging.error(\"test\")", 3, 0);
  }

  lemma CommentedCallIsKept()
    ensures !ShouldRemoveLine("# logging.info(\"test\")", ".py")
  {
    BlankOrCommentMeaning("# logging.info(\"test\")");
    assert Run("# logging.info(\"test\")", 0, 0, Space);
  }

  lemma OtherLoggerFunctionIsKept()
    ensures !ShouldRemoveLine("my_logger(\"test\")", ".py")
  {
    var s := "my_logger(\"test\")";
    NotContainsMissingChar(s, "import", 0);
    NotContainsMissingChar(s, "from", 0);
    assert '.' !in "my_logger(\"test\")" && '=' !in "my_logger(\"test\")";
    PythonIsNotScript();
    if PythonSearch(s) {
      PythonMatchNeedsMarker(s);
      assert false;
    }
  }

  // ---- get_statement_type ------------------------------------------------

  /**
   * A line that starts with the text t, where t is w at p followed by a
   * word and one character that ends it, has that word as its group.
   */
  lemma GroupAtLayout(s: string, t: string, p: nat, w: string)
    requires |t| <= |s| && s[..|t|] == t
    requires p + |w| + 1 < |t| && t[p..p + |w|] == w
    requires forall k :: p + |w| <= k < |t| - 1 ==> IsWordChar(t[k])
    requires !IsWordChar(t[|t| - 1])
    requires w != [] && forall q :: 0 <= q < p ==> t[q] != w[0]
    ensures WordGroup(s, w) == Some(t[p + |w|..|t| - 1])
    ensures w + t[p + |w|..|t| - 1] == t[p..|t| - 1]
  {
    var a, e := p + |w|, |t| - 1;
    forall q | 0 <= q < p
      ensures !LitAt(s, q, w)
    {
      assert s[q] == s[..|t|][q];
      if LitAt(s, q, w) {
        LitAtHead(s, q, w);
        assert false;
      }
    }
    assert s[p..a] == s[..|t|][p..a] == w;
    LitAtSlice(s, p, w);
    assert s[e] == t[e];
    forall k | a <= k < e
      ensures IsWordChar(s[k])
    {
      assert s[k] == t[k];
    }
    assert WordMatchAt(s, w, p);
    WordGroupAt(s, w, p, e);
    assert s[a..e] == s[..|t|][a..e];
    assert t[p..e] == t[p..a] + t[a..e];
  }

  lemma ConsoleLogTag()
    ensures StatementType("console.log(\"test\");", ".js") == "console.log"
  {
    var s := "console.log(\"test\");";
    assert s[..12] == "console.log(";
    GroupAtLayout(s, "console.log(", 0, "console.");
    ScriptTagIsConsoleGroup(s, ".js");
    assert "console.log("[..11] == "console.log";
  }

  lemma ConsoleErrorTag()
    ensures StatementType("console.error(\"test\");", ".js") == "console.error"
  {
    var s := "console.error(\"test\");";
    assert s[..14] == "console.error(";
    GroupAtLayout(s, "console.error(", 0, "console.");
    ScriptTagIsConsoleGroup(s, ".js");
    assert "console.error("[..13] == "console.error";
  }

  lemma ConsoleWarnTag()
    ensures StatementType("console.warn(\"test\");", ".js") == "console.warn"
  {
    var s := "console.warn(\"test\");";
    assert s[..13] == "console.warn(";
    GroupAtLayout(s, "console.warn(", 0, "console.");
    ScriptTagIsConsoleGroup(s, ".js");
    assert "console.warn("[..12] == "console.warn";
  }

  lemma ConsoleDebugTag()
    ensures StatementType("console.debug(\"test\");", ".js") == "console.debug"
  {
    var s := "console.debug(\"test\");";
    assert s[..14] == "console.debug(";
    GroupAtLayout(s, "console.debug(", 0, "console.");
    ScriptTagIsConsoleGroup(s, ".js");
    assert "console.debug("[..13] == "console.debug";
  }

  lemma PlainScriptLineIsUnknown()
    ensures StatementType("not a console statement", ".js") == "unknown"
  {
    NotContainsMissingChar("not a console statement", "console.", 7);
    NoWordGroupWithout("not a console statement", "console.");
  }

  lemma ImportLoggingTag()
    ensures StatementType("import logging", ".py") == "logging_import"
  {
    PythonIsNotScript();
    assert LitAt("import logging", 0, "import logging");
    ContainsAt("import logging", "import logging", 0);
  }

  lemma GetLoggerHasNoImport()
    ensures !Contains("logger = logging.getLogger(__name__)", "import logging")
  {
    NotContainsMissingChar("logger = logging.getLogger(__name__)", "import logging", 2);
  }

  lemma GetLoggerHasGetLogger()
    ensures Contains("logger = logging.getLogger(__name__)", "getLogger")
  {
    assert LitAt("logger = logging.getLogger(__name__)", 17, "getLogger");
    ContainsAt("logger = logging.getLogger(__name__)", "getLogger", 17);
  }

  lemma GetLoggerTag()
    ensures StatementType("logger = logging.getLogger(__name__)", ".py") == "logger_definition"
  {
    GetLoggerHasNoImport();
    GetLoggerHasGetLogger();
    PythonIsNotScript();
  }

  /** A Python line starting with t, a `logger.` call at p, gets the method's tag. */
  lemma LoggerLayoutTag(s: string, t: string, p: nat)
    requires !Contains(s, "import logging") && !Contains(s, "getLogger")
    requires |t| <= |s| && s[..|t|] == t
    requires p + 8 < |t| && t[p..p + 7] == "logger."
    requires forall k :: p + 7 <= k < |t| - 1 ==> IsWordChar(t[k])
    requires !IsWordChar(t[|t| - 1]) && forall q :: 0 <= q < p ==> t[q] != 'l'
    ensures StatementType(s, PythonFileType) == t[p..|t| - 1]
  {
    GroupAtLayout(s, t, p, "logger.");
    LoggerTagReadsMethod(s);
  }

  /** A Python line starting with t, a `logging.` call, gets the function's tag. */
  lemma LoggingLayoutTag(s: string, t: string)
    requires !Contains(s, "import logging") && !Contains(s, "getLogger")
    requires !Contains(s, "_logger.") && !Contains(s, "logger.")
    requires |t| <= |s| && s[..|t|] == t
    requires 9 < |t| && t[..8] == "logging."
    requires forall k :: 8 <= k < |t| - 1 ==> IsWordChar(t[k])
    requires !IsWordChar(t[|t| - 1])
    ensures StatementType(s, PythonFileType) == t[..|t| - 1]
  {
    GroupAtLayout(s, t, 0, "logging.");
    LoggingTagReadsMethod(s);
  }

  lemma LoggerInfoHasNoEarlierSubstring()
    ensures !Contains("logger.info(\"test\")", "import logging")
    ensures !Contains("logger.info(\"test\")", "getLogger")
  {
    NotContainsMissingChar("logger.info(\"test\")", "import logging", 2);
    NotContainsMissingChar("logger.info(\"test\")", "getLogger", 3);
  }

  lemma LoggerInfoTag()
    ensures StatementType("logger.info(\"test\")", ".py") == "logger.info"
  {
    LoggerInfoHasNoEarlierSubstring();
    assert "logger.info(\"test\")"[..12] == "logger.info(";
    LoggerLayoutTag("logger.info(\"test\")", "logger.info(", 0);
    assert "logger.info("[..11] == "logger.info";
  }

  lemma LoggingErrorHasNoEarlierSubstring()
    ensures !Contains("logging.error(\"test\")", "import logging")
    ensures !Contains("logging.error(\"test\")", "getLogger")
    ensures !Contains("logging.error(\"test\")", "_logger.")
  {
    NotContainsMissingChar("logging.error(\"test\")", "import logging", 2);
    NotContainsMissingChar("logging.error(\"test\")", "getLogger", 3);
    NotContainsMissingChar("logging.error(\"test\")", "_logger.", 0);
  }

  lemma LoggingErrorHasNoLogger()
    ensures !Contains("logging.error(\"test\")", "logger.")
  {
    assert FindFrom("logging.error(\"test\")", "logger.", 10) == None;
    assert FindFrom("logging.error(\"test\")", "logger.", 5) == None;
    assert !LitAt("logging.error(\"test\")", 0, "logger.");
    assert !LitAt("logging.error(\"test\")", 1, "logger.");
    assert !LitAt("logging.error(\"test\")", 2, "logger.");
    assert !LitAt("logging.error(\"test\")", 3, "logger.");
    assert !LitAt("logging.error(\"test\")", 4, "logger.");
    assert FindFrom("logging.error(\"test\")", "logger.", 0) == None;
  }

  lemma LoggingErrorTag()
    ensures StatementType("logging.error(\"test\")", ".py") == "logging.error"
  {
    LoggingErrorHasNoEarlierSubstring();
    LoggingErrorHasNoLogger();
    assert "logging.error(\"test\")"[..14] == "logging.error(";
    LoggingLayoutTag("logging.error(\"test\")", "logging.error(");
    assert "logging.error("[..13] == "logging.error";
  }

  lemma UnderscoreLoggerHasNoEarlierSubstring()
    ensures !Contains("_logger.debug(\"test\")", "import logging")
    ensures !Contains("_logger.debug(\"test\")", "getLogger")
  {
    NotContainsMissingChar("_logger.debug(\"test\")", "import logging", 2);
    NotContainsMissingChar("_logger.debug(\"test\")", "getLogger", 3);
  }

  lemma UnderscoreLoggerText()
    ensures "_logger.debug("[1..8] == "logger."
    ensures "_logger.debug("[1..13] == "logger.debug"
  {
  }

  lemma UnderscoreLoggerTag()
    ensures StatementType("_logger.debug(\"test\")", ".py") == "logger.debug"
  {
    UnderscoreLoggerHasNoEarlierSubstring();
    UnderscoreLoggerText();
    assert "_logger.debug(\"test\")"[..14] == "_logger.debug(";
    LoggerLayoutTag("_logger.debug(\"test\")", "_logger.debug(", 1);
  }

  lemma PlainPythonLineIsUnknown()
    ensures StatementType("not a logging statement", ".py") == "unknown"
  {
    var s := "not a logging statement";
    PythonIsNotScript();
    NotContainsMissingChar(s, "import logging", 2);
    NotContainsMissingChar(s, "getLogger", 3);
    NotContainsMissingChar(s, "_logger.", 0);
    NotContainsMissingChar(s, "logger.", 6);
    NotContainsMissingChar(s, "logging.", 7);
  }

  // ---- a removed line the statistics cannot name --------------------------

  /** The words of `from logging import ` laid out in s from position 0. */
  predicate FromImportLayout(s: string) {
    |s| >= 20 && s[..20] == "from logging import "
  }

  lemma FromImportTail(s: string)
    requires FromImportLayout(s)
    ensures ImportTail(s, 12)
  {
    assert s[12] == s[..20][12] == ' ';
    assert s[13] == s[..20][13] == 'i';
    assert s[19] == s[..20][19] == ' ';
    RunEndUnique(s, 12, 13, Space);
    assert s[13..19] == s[..20][13..19] == "import";
    LitAtSlice(s, 13, "import");
  }

  lemma FromImportLayoutMatches(s: string)
    requires FromImportLayout(s)
    ensures PyAt(FromLoggingImport, s, 0)
  {
    FromImportTail(s);
    assert s[4] == s[..20][4] == ' ';
    assert s[5] == s[..20][5] == 'l';
    RunEndUnique(s, 4, 5, Space);
    assert s[5..12] == s[..20][5..12] == "logging";
    LitAtSlice(s, 5, "logging");
    assert s[..4] == s[..20][..4] == "from";
    LitAtSlice(s, 0, "from");
  }

  lemma FromImportMatchesAt0()
    ensures PyAt(FromLoggingImport, "from logging import handlers", 0)
  {
    FromImportLayoutMatches("from logging import handlers");
  }

  lemma FromImportIsRemoved()
    ensures ShouldRemoveLine("from logging import handlers", ".py")
  {
    FromImportMatchesAt0();
    assert PythonPatterns[1] == FromLoggingImport;
    RemovedByPattern("from logging import handlers", 1, 0);
  }

  lemma FromImportHasNoImportLogging()
    ensures !Contains("from logging import handlers", "import logging")
  {
    assert "from logging import handlers"[7..22] == "gging import ha";
    NotContainsMissingIn("from logging import handlers", "import logging", 7);
  }

  lemma FromImportIsUnknown()
    ensures StatementType("from logging import handlers", ".py") == "unknown"
  {
    FromImportHasNoImportLogging();
    NotContainsMissingChar("from logging import handlers", "getLogger", 3);
    NotContainsMissingChar("from logging import handlers", "logger.", 6);
    NotContainsMissingChar("from logging import handlers", "logging.", 7);
    PythonTagPriority("from logging import handlers");
  }

  /**
   * `from logging import handlers` is removed by the second pattern, yet
   * none of get_statement_type's substrings occurs in it, so its removal is
   * counted under "unknown".
   */
  lemma FromImportRemovedAsUnknown()
    ensures ShouldRemoveLine("from logging import handlers", ".py")
    ensures StatementType("from logging import handlers", ".py") == "unknown"
  {
    FromImportIsRemoved();
    FromImportIsUnknown();
  }
}

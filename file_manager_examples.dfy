// What is_log_file decides for the files of the manager's tests: a log
// extension wins whatever the file holds, a dated first line wins whatever
// the name, and a plain ".txt" name over text without digits loses.

module FileManagerExamples {
  import opened Wrappers
  import opened Text
  import opened Paths
  import opened DateGrammar
  import opened FileManager
  import DateExamples

  /** No character of s is a digit. */
  predicate NoDigits(s: string) {
    forall i :: 0 <= i < |s| ==> !IsDigit(s[i])
  }

  /*************************************************************************
   * Names
   *************************************************************************/

  /** A name ending in ".log" (any case) has a log extension. */
  lemma LogSuffixName(name: string)
    requires |name| >= 5 && Lower(name[|name| - 4..]) == ".log"
    ensures Lower(Suffix(name)) in LogExtensions
  {
    var n := |name| - 4;
    assert name[n] == '.' by {
      assert Lower(name[n..])[0] == LowerChar(name[n..][0]);
    }
    forall k | n < k < |name|
      ensures name[k] != '.'
    {
      assert Lower(name[n..])[k - n] == LowerChar(name[k]);
    }
    RFindUnique(name, '.', n);
    assert Suffix(name) == name[n..];
  }

  /** s ends in ".txt" after a character other than 'g'. */
  predicate TxtEnding(s: string) {
    |s| >= 5 && s[|s| - 4] == '.' && s[|s| - 3] == 't' && s[|s| - 2] == 'x' && s[|s| - 1] == 't' && s[|s| - 5] != 'g'
  }

  lemma TxtNotRotated(s: string)
    requires TxtEnding(s)
    ensures !RotatedEndsAt(s, |s|)
  {
    var e := |s|;
    assert RunStart(s, e, Digit) == e;
    assert s[e - 4..e][1] == 't';
  }

  lemma TxtNotPluralOrLevel(s: string)
    requires TxtEnding(s)
    ensures !PluralEndsAt(s, |s|) && !LevelEndsAt(s, |s|)
  {
    var e := |s|;
    assert s[e - 5..e][4] == 't';
    if e >= 6 {
      assert s[e - 6..e][5] == 't';
    }
  }

  lemma TxtNotTagged(s: string)
    requires TxtEnding(s)
    ensures !TaggedEndsAt(s, |s|)
  {
    var n := |s| - 4;
    LabelStartUnique(s, n + 1, |s|);
    if n >= 4 {
      assert s[n - 4..n + 1][3] == s[n - 1];
    }
  }

  /** A name ending in ".txt" after anything but a 'g' matches none of the name patterns. */
  lemma TxtEndingNoPattern(s: string)
    requires TxtEnding(s)
    ensures !NamePatternMatches(s)
  {
    TxtNotRotated(s);
    TxtNotPluralOrLevel(s);
    TxtNotTagged(s);
  }

  /** The suffix of a name ending in ".txt" is ".txt". */
  lemma TxtSuffix(name: string)
    requires |name| >= 5 && name[|name| - 4..] == ".txt"
    ensures Lower(Suffix(name)) !in LogExtensions
  {
    var n := |name| - 4;
    assert name[n] == '.' && name[n + 1] == 't' && name[n + 2] == 'x' && name[n + 3] == 't' by {
      assert name[n..][0] == '.' && name[n..][1] == 't' && name[n..][2] == 'x' && name[n..][3] == 't';
    }
    RFindUnique(name, '.', n);
    assert Suffix(name) == name[n..];
    assert Lower(".txt") == ".txt";
  }

  /** Lowering keeps the ".txt" ending. */
  lemma LowerTxt(name: string)
    requires |name| >= 5 && name[|name| - 4..] == ".txt" && LowerChar(name[|name| - 5]) != 'g'
    ensures TxtEnding(Lower(name))
  {
    var n := |name| - 4;
    assert name[n] == '.' && name[n + 1] == 't' && name[n + 2] == 'x' && name[n + 3] == 't' by {
      assert name[n..][0] == '.' && name[n..][1] == 't' && name[n..][2] == 'x' && name[n..][3] == 't';
    }
  }

  /**
   * A name ending in ".txt" whose stem does not end in "g" has no log
   * extension and matches none of the name patterns.
   */
  lemma TxtName(name: string)
    requires |name| >= 5 && name[|name| - 4..] == ".txt" && LowerChar(name[|name| - 5]) != 'g'
    ensures Lower(Suffix(name)) !in LogExtensions
    ensures !NamePatternMatches(Lower(name))
  {
    TxtSuffix(name);
    LowerTxt(name);
    TxtEndingNoPattern(Lower(name));
  }

  /*************************************************************************
   * Contents
   *************************************************************************/

  /** A grammar whose group needs a digit at a fixed offset finds nothing in a line without digits. */
  lemma NeedsDigit(s: string, g: Grammar, k: nat)
    requires g.before == [] && k < |g.group| && g.group[k] == AnyDigit && DigitRun !in g.group[..k + 1]
    requires NoDigits(s)
    ensures Search(s, g).None?
  {
    forall p | 0 <= p <= |s|
      ensures MatchAt(s, p, g).None?
    {
      MatchNeedsChar(s, p, g.group, k);
    }
  }

  /** Every shipped grammar needs a digit within its first nine characters. */
  lemma ShippedGrammarsNeedDigits(s: string)
    requires NoDigits(s)
    ensures !AnyPatternFound(s, DatetimePatterns)
  {
    forall j | 0 <= j < |DatetimePatterns|
      ensures Search(s, DatetimePatterns[j]).None?
    {
      PatternNeedsDigit(s, j);
    }
    AnyPatternFoundMeaning(s, DatetimePatterns);
  }

  lemma PatternNeedsDigit(s: string, j: nat)
    requires NoDigits(s) && j < |DatetimePatterns|
    ensures Search(s, DatetimePatterns[j]).None?
  {
    if j == 5 {
      SyslogNeedsDigit(s);
    } else if j == 8 {
      DaySyslogNeedsDigit(s);
    } else {
      LeadsWithDigit(j);
      var g := DatetimePatterns[j];
      assert g.group[..1] == [AnyDigit];
      NeedsDigit(s, g, 0);
    }
  }

  /** The other eight grammars start with `\d`. */
  lemma LeadsWithDigit(j: nat)
    requires j < |DatetimePatterns| && j != 5 && j != 8
    ensures var g := DatetimePatterns[j]; g.before == [] && |g.group| > 0 && g.group[0] == AnyDigit
  {
    assert DateAtoms[0] == AnyDigit && Repeat(AnyDigit, 2)[0] == AnyDigit;
    assert Repeat(AnyDigit, 10)[0] == AnyDigit && Repeat(AnyDigit, 8)[0] == AnyDigit;
  }

  lemma SyslogNeedsDigit(s: string)
    requires NoDigits(s)
    ensures Search(s, Syslog).None?
  {
    FixedWidth(AnyLetter, 3);
    assert Syslog.group[..5] == Repeat(AnyLetter, 3) + [Exactly(' '), AnyDigit];
    NeedsDigit(s, Syslog, 4);
  }

  lemma DaySyslogNeedsDigit(s: string)
    requires NoDigits(s)
    ensures Search(s, DaySyslog).None?
  {
    FixedWidth(AnyLetter, 3);
    assert DaySyslog.group[..9] == Repeat(AnyLetter, 3) + [Exactly(' ')] + Repeat(AnyLetter, 3) + [Exactly(' '), AnyDigit];
    NeedsDigit(s, DaySyslog, 8);
  }

  /** Stripping keeps a line free of digits. */
  lemma StripNoDigits(line: string)
    requires NoDigits(line)
    ensures NoDigits(Strip(line))
  {
    var r := Strip(line);
    if r != [] {
      var a, b :| 0 <= a < b <= |line| && r == line[a..b];
      assert forall i :: 0 <= i < |r| ==> r[i] == line[a + i];
    }
  }

  /** Lines without digits never look dated. */
  lemma {:induction false} DigitlessLinesLookUndated(lines: seq<string>)
    requires forall k :: 0 <= k < |lines| ==> NoDigits(lines[k])
    ensures !AnyLineLooksDated(lines, DatetimePatterns)
  {
    if lines != [] {
      StripNoDigits(lines[0]);
      ShippedGrammarsNeedDigits(Strip(lines[0]));
      DigitlessLinesLookUndated(lines[1..]);
    }
  }

  /*************************************************************************
   * The three ways is_log_file can decide
   *************************************************************************/

  /** A file named like "test.log" is a log file whatever it holds. */
  lemma LogExtensionWins(filePath: string, contents: Option<seq<string>>, patterns: seq<Grammar>)
    requires var name := Name(Paths.Parse(filePath)); |name| >= 5 && Lower(name[|name| - 4..]) == ".log"
    ensures IsLogFile(filePath, true, contents, patterns)
  {
    LogSuffixName(Name(Paths.Parse(filePath)));
  }

  /** A file whose first line starts with `YYYY-MM-DD` is a log file whatever its name. */
  lemma DatedFirstLineWins(filePath: string, lines: seq<string>)
    requires lines != [] && DateExamples.DateShaped(Strip(lines[0]), 0)
    ensures IsLogFile(filePath, true, Some(lines), DatetimePatterns)
  {
    DateAtStartFound(Strip(lines[0]));
    assert FirstLines(lines)[0] == lines[0];
  }

  /** The bare-date grammar finds a line starting with `YYYY-MM-DD`. */
  lemma DateAtStartFound(s: string)
    requires DateExamples.DateShaped(s, 0)
    ensures AnyPatternFound(s, DatetimePatterns)
  {
    DateExamples.DateAtomsMatch(s, 0);
    assert MatchAt(s, 0, BareDate).Some?;
    assert Search(s, BareDate).Some?;
  }

  /** A ".txt" file of text without digits is not a log file. */
  lemma PlainTextLoses(filePath: string, lines: seq<string>)
    requires var name := Name(Paths.Parse(filePath));
             |name| >= 5 && name[|name| - 4..] == ".txt" && LowerChar(name[|name| - 5]) != 'g'
    requires forall k :: 0 <= k < |lines| ==> NoDigits(lines[k])
    ensures !IsLogFile(filePath, true, Some(lines), DatetimePatterns)
  {
    TxtName(Name(Paths.Parse(filePath)));
    DigitlessFileLooksUndated(lines);
    ContentsDecide(filePath, Some(lines), DatetimePatterns);
  }

  /** None of the first five lines of a file without digits looks dated. */
  lemma DigitlessFileLooksUndated(lines: seq<string>)
    requires forall k :: 0 <= k < |lines| ==> NoDigits(lines[k])
    ensures !AnyLineLooksDated(FirstLines(lines), DatetimePatterns)
  {
    FirstLinesDigitless(lines);
    DigitlessLinesLookUndated(FirstLines(lines));
  }

  lemma FirstLinesDigitless(lines: seq<string>)
    requires forall k :: 0 <= k < |lines| ==> NoDigits(lines[k])
    ensures forall k :: 0 <= k < |FirstLines(lines)| ==> NoDigits(FirstLines(lines)[k])
  {
    var first := FirstLines(lines);
    assert forall k :: 0 <= k < |first| ==> first[k] == lines[k];
  }

  /** When the name says nothing, the first lines decide. */
  lemma ContentsDecide(filePath: string, contents: Option<seq<string>>, patterns: seq<Grammar>)
    requires var name := Name(Paths.Parse(filePath));
             Lower(Suffix(name)) !in LogExtensions && !NamePatternMatches(Lower(name))
    ensures IsLogFile(filePath, true, contents, patterns) <==>
              contents.Some? && AnyLineLooksDated(FirstLines(contents.value), patterns)
  {
  }

  // The files of the manager's tests, named by their last component.

  lemma TestLogIsLogFile(filePath: string, contents: Option<seq<string>>)
    requires Name(Paths.Parse(filePath)) == "test.log"
    ensures IsLogFile(filePath, true, contents, DatetimePatterns)
  {
    assert Lower("test.log"[4..]) == ".log";
    LogExtensionWins(filePath, contents, DatetimePatterns);
  }

  lemma FakeLogIsLogFile(filePath: string)
    requires Name(Paths.Parse(filePath)) == "fake.log"
    ensures IsLogFile(filePath, true, Some(["This is just a regular text file\n", "without any log patterns"]), DatetimePatterns)
  {
    assert Lower("fake.log"[4..]) == ".log";
    LogExtensionWins(filePath, Some(["This is just a regular text file\n", "without any log patterns"]), DatetimePatterns);
  }

  /** Stripping a line read with its newline gives back its text, when that neither starts nor ends with a blank. */
  lemma StripReadLine(body: string)
    requires body != [] && !IsSpace(body[0]) && !IsSpace(body[|body| - 1])
    ensures Strip(body + "\n") == body
  {
    var s := body + "\n";
    assert s[|s| - 1] == '\n' && s[|s| - 2] == body[|body| - 1];
    assert TrimEnd(s, |s|) == |s| - 1;
    assert s[0..|s| - 1] == body;
  }

  /** Whether `\d{4}-\d{2}-\d{2}` fits the start of a line depends on its first ten characters only. */
  lemma DateShapedByPrefix(s: string)
    requires |s| >= 10 && s[..10] == "2024-02-15"
    ensures DateExamples.DateShaped(s, 0)
  {
    assert forall k :: 0 <= k < 10 ==> s[k] == "2024-02-15"[k];
  }

  lemma DatedLineText()
    ensures Strip("2024-02-15 10:30:45 INFO Test message\n") == "2024-02-15 10:30:45 INFO Test message"
  {
    assert "2024-02-15 10:30:45 INFO Test message" + "\n" == "2024-02-15 10:30:45 INFO Test message\n";
    StripReadLine("2024-02-15 10:30:45 INFO Test message");
  }

  lemma DatedLine()
    ensures Strip("2024-02-15 10:30:45 INFO Test message\n") == "2024-02-15 10:30:45 INFO Test message"
    ensures DateExamples.DateShaped("2024-02-15 10:30:45 INFO Test message", 0)
  {
    DatedLineText();
    assert "2024-02-15 10:30:45 INFO Test message"[..10] == "2024-02-15";
    DateShapedByPrefix("2024-02-15 10:30:45 INFO Test message");
  }

  lemma LogLikeTxtIsLogFile(filePath: string, rest: seq<string>)
    ensures IsLogFile(filePath, true, Some(["2024-02-15 10:30:45 INFO Test message\n"] + rest), DatetimePatterns)
  {
    DatedLine();
    DatedFirstLineWins(filePath, ["2024-02-15 10:30:45 INFO Test message\n"] + rest);
  }

  lemma TestTxtIsNotLogFile(filePath: string)
    requires Name(Paths.Parse(filePath)) == "test.txt"
    ensures !IsLogFile(filePath, true, Some(["some text content"]), DatetimePatterns)
  {
    assert "test.txt"[4..] == ".txt";
    assert NoDigits("some text content");
    PlainTextLoses(filePath, ["some text content"]);
  }

  lemma RandomTxtIsNotLogFile(filePath: string)
    requires Name(Paths.Parse(filePath)) == "random.txt"
    ensures !IsLogFile(filePath, true, Some(["Just some random text\n", "without any dates or log patterns"]), DatetimePatterns)
  {
    assert "random.txt"[6..] == ".txt";
    RandomTextHasNoDigits();
    PlainTextLoses(filePath, ["Just some random text\n", "without any dates or log patterns"]);
  }

  lemma RandomTextHasNoDigits()
    ensures NoDigits("Just some random text\n") && NoDigits("without any dates or log patterns")
  {
  }
}

/**
 * Date extraction on the log lines the manager's expectations use: the
 * shipped list against the two-grammar list that the date-extraction
 * expectation installs in its place.
 */
module DateExamples {
  import opened Wrappers
  import opened Text
  import opened Timestamps
  import opened DateGrammar

  const Feb15: Stamp := Stamp(2024, 2, 15, 0, 0, 0, 0)
  const Feb15At103045: Stamp := Stamp(2024, 2, 15, 10, 30, 45, 0)

  /** `\[([A-Za-z]{3} \d{2} \d{2}:\d{2}:\d{2} \d{4})\]` with `%b %d %H:%M:%S %Y` */
  const BracketedSyslog: Grammar := Grammar([Exactly('[')], SyslogAtoms, [Exactly(']')], SyslogFormat)

  /** The list the date-extraction expectation sets `datetime_patterns` to. */
  const OverriddenPatterns: seq<Grammar> := [SpacedDateTime, BracketedSyslog]

  // ---- the formats spelled out ---------------------------------------------

  lemma DateFormatRenderable()
    ensures Renderable(DateFormat) && AllWritable(DateFormat)
  {
    assert Renderable([Day]);
    assert Renderable([Char('-'), Day]);
    assert Renderable([Month, Char('-'), Day]);
    assert Renderable([Char('-'), Month, Char('-'), Day]);
    RenderableIsWritable(DateFormat);
  }

  lemma TimeFormatRenderable()
    ensures Renderable(TimeFormat) && AllWritable(TimeFormat)
  {
    assert Renderable([Second]);
    assert Renderable([Char(':'), Second]);
    assert Renderable([Minute, Char(':'), Second]);
    assert Renderable([Char(':'), Minute, Char(':'), Second]);
    RenderableIsWritable(TimeFormat);
  }

  lemma RenderableJoin(a: seq<Directive>, b: seq<Directive>)
    requires Renderable(a) && Renderable(b) && a != [] && b != []
    requires a[|a| - 1] != Fraction || !StartsNumeric(b[0])
    requires a[|a| - 1] != Blank || !StartsBlank(b[0])
    ensures Renderable(a + b)
    decreases |a|
  {
    if |a| > 1 {
      assert (a + b)[1..] == a[1..] + b;
      RenderableJoin(a[1..], b);
    } else {
      assert (a + b)[1..] == b;
    }
  }

  lemma SpacedFormatRenderable()
    ensures SpacedDateTime.format == DateFormat + [Blank] + TimeFormat
    ensures Renderable(SpacedDateTime.format) && AllWritable(SpacedDateTime.format)
  {
    DateFormatRenderable();
    TimeFormatRenderable();
    RenderableJoin(DateFormat, [Blank]);
    RenderableJoin(DateFormat + [Blank], TimeFormat);
    RenderableIsWritable(SpacedDateTime.format);
  }

  lemma SyslogFormatRenderable()
    ensures Renderable(SyslogFormat) && AllWritable(SyslogFormat)
  {
    TimeFormatRenderable();
    assert Renderable([Blank, Year]);
    assert Renderable([Day, Blank]);
    assert Renderable([MonthName, Blank, Day, Blank]);
    RenderableJoin([MonthName, Blank, Day, Blank], TimeFormat);
    RenderableJoin([MonthName, Blank, Day, Blank] + TimeFormat, [Blank, Year]);
    RenderableIsWritable(SyslogFormat);
  }

  // ---- writing the stamps out ----------------------------------------------

  lemma StampsValid()
    ensures ValidStamp(Feb15) && ValidStamp(Feb15At103045)
  {
    assert DaysInMonth(2024, 2) == 29;
  }

  /** Writing out `a + b` through the two halves' known texts. */
  lemma RenderJoin(t: Stamp, a: seq<Directive>, b: seq<Directive>, ra: string, rb: string)
    requires ValidStamp(t) && AllWritable(a) && AllWritable(b) && Render(t, a) == ra && Render(t, b) == rb
    ensures AllWritable(a + b) && Render(t, a + b) == ra + rb
  {
    RenderAppend(t, a, b);
  }

  lemma BlankRender(t: Stamp)
    requires ValidStamp(t)
    ensures AllWritable([Blank]) && Render(t, [Blank]) == " "
  {
    assert AllWritable([Blank][1..]);
  }

  /** The year of the sample stamps, zero-padded to four digits. */
  lemma Pad2024() ensures Pad(2024, 4) == "2024" {
    assert Pad(2, 1) == "2";
    assert Pad(20, 2) == "20";
    assert Pad(202, 3) == "202";
  }

  /** The month, day and time fields of the sample stamps, zero-padded to two digits. */
  lemma TwoDigitPads()
    ensures Pad(2, 2) == "02" && Pad(15, 2) == "15" && Pad(10, 2) == "10"
    ensures Pad(30, 2) == "30" && Pad(45, 2) == "45"
  {
    assert Pad(0, 1) == "0" && Pad(1, 1) == "1" && Pad(3, 1) == "3" && Pad(4, 1) == "4";
  }

  /** A one-directive format writes out that directive's field. */
  lemma OneRender(t: Stamp, d: Directive, w: string)
    requires ValidStamp(t) && Writable(d) && Field(t, d) == w
    ensures AllWritable([d]) && Render(t, [d]) == w
  {
    assert [d][1..] == [];
  }

  lemma DateRender(t: Stamp)
    requires ValidStamp(t) && t.year == 2024 && t.month == 2 && t.day == 15
    ensures Render(t, DateFormat) == "2024-02-15"
  {
    YearDashRender(t);
    MonthDayDashRender(t);
    RenderJoin(t, [Year, Char('-')], [Month, Char('-'), Day], "2024-", "02-15");
    assert [Year, Char('-')] + [Month, Char('-'), Day] == DateFormat;
  }

  lemma YearDashRender(t: Stamp)
    requires ValidStamp(t) && t.year == 2024
    ensures AllWritable([Year, Char('-')]) && Render(t, [Year, Char('-')]) == "2024-"
  {
    Pad2024();
    OneRender(t, Year, "2024");
    OneRender(t, Char('-'), "-");
    RenderJoin(t, [Year], [Char('-')], "2024", "-");
  }

  lemma MonthDayDashRender(t: Stamp)
    requires ValidStamp(t) && t.month == 2 && t.day == 15
    ensures AllWritable([Month, Char('-'), Day]) && Render(t, [Month, Char('-'), Day]) == "02-15"
  {
    TwoDigitPads();
    OneRender(t, Char('-'), "-");
    OneRender(t, Month, "02");
    OneRender(t, Day, "15");
    RenderJoin(t, [Char('-')], [Day], "-", "15");
    RenderJoin(t, [Month], [Char('-'), Day], "02", "-15");
  }

  lemma MinuteSecondRender(t: Stamp)
    requires At103045(t)
    ensures AllWritable([Minute, Char(':'), Second]) && Render(t, [Minute, Char(':'), Second]) == "30:45"
  {
    TwoDigitPads();
    OneRender(t, Char(':'), ":");
    OneRender(t, Minute, "30");
    OneRender(t, Second, "45");
    RenderJoin(t, [Char(':')], [Second], ":", "45");
    RenderJoin(t, [Minute], [Char(':'), Second], "30", ":45");
  }

  /** The stamp 2024-02-15 10:30:45, described field by field. */
  predicate At103045(t: Stamp) {
    ValidStamp(t) && t.year == 2024 && t.month == 2 && t.day == 15
    && t.hour == 10 && t.minute == 30 && t.second == 45 && t.micro == 0
  }

  lemma TimeRender(t: Stamp)
    requires At103045(t)
    ensures Render(t, TimeFormat) == "10:30:45"
  {
    TwoDigitPads();
    OneRender(t, Hour, "10");
    OneRender(t, Char(':'), ":");
    MinuteSecondRender(t);
    RenderJoin(t, [Char(':')], [Minute, Char(':'), Second], ":", "30:45");
    RenderJoin(t, [Hour], [Char(':'), Minute, Char(':'), Second], "10", ":30:45");
    assert [Hour] + [Char(':'), Minute, Char(':'), Second] == TimeFormat;
  }

  lemma BareDateText()
    ensures Parse("2024-02-15", DateFormat) == Some(Naive(Feb15))
  {
    StampsValid();
    DateFormatRenderable();
    DateRender(Feb15);
    ParseRender(Feb15, DateFormat);
  }

  lemma SpacedDateTimeRender(t: Stamp)
    requires At103045(t)
    ensures AllWritable(SpacedDateTime.format)
    ensures Render(t, SpacedDateTime.format) == "2024-02-15 10:30:45"
  {
    SpacedFormatRenderable();
    DateFormatRenderable();
    TimeFormatRenderable();
    DateRender(t);
    TimeRender(t);
    BlankRender(t);
    RenderJoin(t, DateFormat, [Blank], "2024-02-15", " ");
    RenderJoin(t, DateFormat + [Blank], TimeFormat, "2024-02-15" + " ", "10:30:45");
    SpacedTextJoined();
  }

  lemma SpacedTextJoined()
    ensures "2024-02-15" + " " + "10:30:45" == "2024-02-15 10:30:45"
  {
  }

  lemma SpacedDateTimeText(t: Stamp, text: string)
    requires At103045(t) && text == "2024-02-15 10:30:45"
    ensures Parse(text, SpacedDateTime.format) == Some(Naive(t))
  {
    SpacedFormatRenderable();
    SpacedDateTimeRender(t);
    ParseRender(t, SpacedDateTime.format);
  }

  lemma SyslogRender(t: Stamp)
    requires At103045(t)
    ensures AllWritable(SyslogFormat)
    ensures Render(t, SyslogFormat) == "Feb 15 10:30:45 2024"
  {
    SyslogFormatRenderable();
    TimeFormatRenderable();
    TimeRender(t);
    MonthDayRender(t);
    YearTailRender(t);
    RenderJoin(t, [MonthName, Blank, Day, Blank], TimeFormat, "Feb 15 ", "10:30:45");
    RenderJoin(t, [MonthName, Blank, Day, Blank] + TimeFormat, [Blank, Year], "Feb 15 " + "10:30:45", " 2024");
    SyslogTextJoined();
  }

  lemma MonthDayRender(t: Stamp)
    requires At103045(t)
    ensures AllWritable([MonthName, Blank, Day, Blank]) && Render(t, [MonthName, Blank, Day, Blank]) == "Feb 15 "
  {
    BlankRender(t);
    DayRender(t);
    MonthNameRender(t);
    RenderJoin(t, [Day], [Blank], "15", " ");
    assert [Day] + [Blank] == [Day, Blank];
    RenderJoin(t, [Blank], [Day, Blank], " ", "15 ");
    assert [Blank] + [Day, Blank] == [Blank, Day, Blank];
    RenderJoin(t, [MonthName], [Blank, Day, Blank], "Feb", " 15 ");
    assert [MonthName] + [Blank, Day, Blank] == [MonthName, Blank, Day, Blank];
  }

  lemma DayRender(t: Stamp)
    requires At103045(t)
    ensures AllWritable([Day]) && Render(t, [Day]) == "15"
  {
    TwoDigitPads();
    OneRender(t, Day, "15");
  }

  lemma MonthNameRender(t: Stamp)
    requires At103045(t)
    ensures AllWritable([MonthName]) && Render(t, [MonthName]) == "Feb"
  {
    OneRender(t, MonthName, "Feb");
  }

  lemma YearTailRender(t: Stamp)
    requires At103045(t)
    ensures AllWritable([Blank, Year]) && Render(t, [Blank, Year]) == " 2024"
  {
    Pad2024();
    OneRender(t, Year, "2024");
    BlankRender(t);
    RenderJoin(t, [Blank], [Year], " ", "2024");
    assert [Blank] + [Year] == [Blank, Year];
  }

  lemma SyslogTextJoined()
    ensures "Feb 15 " + "10:30:45" + " 2024" == "Feb 15 10:30:45 2024"
  {
  }

  lemma SyslogText(t: Stamp, text: string)
    requires At103045(t) && text == "Feb 15 10:30:45 2024"
    ensures Parse(text, SyslogFormat) == Some(Naive(t))
  {
    SyslogFormatRenderable();
    SyslogRender(t);
    ParseRender(t, SyslogFormat);
  }

  // ---- the atoms against a line ---------------------------------------------

  lemma DateAtomsSpelled()
    ensures DateAtoms == [AnyDigit, AnyDigit, AnyDigit, AnyDigit, Exactly('-'), AnyDigit, AnyDigit, Exactly('-'), AnyDigit, AnyDigit]
  {
  }

  lemma TimeAtomsSpelled()
    ensures TimeAtoms == [AnyDigit, AnyDigit, Exactly(':'), AnyDigit, AnyDigit, Exactly(':'), AnyDigit, AnyDigit]
  {
  }

  /** `\d{4}-\d{2}-\d{2}` fits s at i. */
  predicate DateShaped(s: string, i: nat) {
    i + 10 <= |s| && IsDigit(s[i]) && IsDigit(s[i + 1]) && IsDigit(s[i + 2]) && IsDigit(s[i + 3]) && s[i + 4] == '-'
    && IsDigit(s[i + 5]) && IsDigit(s[i + 6]) && s[i + 7] == '-' && IsDigit(s[i + 8]) && IsDigit(s[i + 9])
  }

  /** `\d{2}:\d{2}:\d{2}` fits s at i. */
  predicate TimeShaped(s: string, i: nat) {
    i + 8 <= |s| && IsDigit(s[i]) && IsDigit(s[i + 1]) && s[i + 2] == ':' && IsDigit(s[i + 3]) && IsDigit(s[i + 4])
    && s[i + 5] == ':' && IsDigit(s[i + 6]) && IsDigit(s[i + 7])
  }

  /** `[A-Za-z]{3} \d{2} ` fits s at i. */
  predicate MonthDayShaped(s: string, i: nat) {
    i + 7 <= |s| && IsAsciiLetter(s[i]) && IsAsciiLetter(s[i + 1]) && IsAsciiLetter(s[i + 2]) && s[i + 3] == ' '
    && IsDigit(s[i + 4]) && IsDigit(s[i + 5]) && s[i + 6] == ' '
  }

  /** ` \d{4}` fits s at i. */
  predicate YearTailShaped(s: string, i: nat) {
    i + 5 <= |s| && s[i] == ' ' && IsDigit(s[i + 1]) && IsDigit(s[i + 2]) && IsDigit(s[i + 3]) && IsDigit(s[i + 4])
  }

  lemma DateAtomsMatch(s: string, i: nat)
    requires DateShaped(s, i)
    ensures MatchEnd(s, i, DateAtoms) == Some(i + 10)
  {
    DateAtomsSpelled();
    FixedMatch(s, i, DateAtoms);
  }

  lemma TimeAtomsMatch(s: string, i: nat)
    requires TimeShaped(s, i)
    ensures MatchEnd(s, i, TimeAtoms) == Some(i + 8)
  {
    TimeAtomsSpelled();
    FixedMatch(s, i, TimeAtoms);
  }

  lemma SingleMatch(s: string, i: nat, c: char)
    requires i < |s| && s[i] == c
    ensures MatchEnd(s, i, [Exactly(c)]) == Some(i + 1)
  {
    assert [Exactly(c)][1..] == [];
  }

  lemma SpacedGroupMatch(s: string, i: nat)
    requires DateShaped(s, i) && TimeShaped(s, i + 11) && s[i + 10] == ' '
    ensures MatchEnd(s, i, SpacedDateTime.group) == Some(i + 19)
  {
    DateAtomsMatch(s, i);
    SingleMatch(s, i + 10, ' ');
    TimeAtomsMatch(s, i + 11);
    MatchEndAppend(s, i, DateAtoms, [Exactly(' ')]);
    MatchEndAppend(s, i, DateAtoms + [Exactly(' ')], TimeAtoms);
  }

  lemma SyslogGroupMatch(s: string, i: nat)
    requires MonthDayShaped(s, i) && TimeShaped(s, i + 7) && YearTailShaped(s, i + 15)
    ensures MatchEnd(s, i, SyslogAtoms) == Some(i + 20)
  {
    var head := Repeat(AnyLetter, 3) + [Exactly(' ')] + Repeat(AnyDigit, 2) + [Exactly(' ')];
    var tail := [Exactly(' ')] + Repeat(AnyDigit, 4);
    assert head == [AnyLetter, AnyLetter, AnyLetter, Exactly(' '), AnyDigit, AnyDigit, Exactly(' ')];
    assert tail == [Exactly(' '), AnyDigit, AnyDigit, AnyDigit, AnyDigit];
    FixedMatch(s, i, head);
    TimeAtomsMatch(s, i + 7);
    FixedMatch(s, i + 15, tail);
    assert SyslogAtoms == head + TimeAtoms + tail;
    MatchEndAppend(s, i, head, TimeAtoms);
    MatchEndAppend(s, i, head + TimeAtoms, tail);
  }

  /** A grammar with nothing around its group that fits at the start of the line. */
  lemma AttemptAtStart(line: string, g: Grammar, n: nat, text: string, p: Option<Parsed>)
    requires g.before == [] && g.after == [] && n <= |line| && MatchEnd(line, 0, g.group) == Some(n)
    requires line[0..n] == text && Parse(text, g.format) == p
    ensures Attempt(line, g) == p
  {
    assert MatchAt(line, 0, g) == Some((0, n));
    assert Search(line, g) == Some(0);
  }

  // ---- "2024-02-15 10:30:45 INFO Test" -------------------------------------

  lemma SpacedLineShape()
    ensures DateShaped("2024-02-15 10:30:45 INFO Test", 0) && "2024-02-15 10:30:45 INFO Test"[10] == ' '
    ensures TimeShaped("2024-02-15 10:30:45 INFO Test", 11)
  {
    SpacedLineDate();
    SpacedLineTime();
  }

  lemma SpacedLineDate()
    ensures DateShaped("2024-02-15 10:30:45 INFO Test", 0) && "2024-02-15 10:30:45 INFO Test"[10] == ' '
  {
  }

  lemma SpacedLineTime()
    ensures TimeShaped("2024-02-15 10:30:45 INFO Test", 11)
  {
  }

  lemma SpacedLineStartsWithDate()
    ensures "2024-02-15 10:30:45 INFO Test"[0..10] == "2024-02-15"
  {
  }

  lemma SpacedLineStartsWithTime()
    ensures "2024-02-15 10:30:45 INFO Test"[0..19] == "2024-02-15 10:30:45"
  {
  }

  /** The shipped list stops at the bare date and gives midnight. */
  lemma ShippedListGivesMidnight()
    ensures ExtractDate("2024-02-15 10:30:45 INFO Test") == Some(Naive(Feb15))
  {
    SpacedLineShape();
    SpacedLineStartsWithDate();
    DateAtomsMatch("2024-02-15 10:30:45 INFO Test", 0);
    BareDateText();
    AttemptAtStart("2024-02-15 10:30:45 INFO Test", BareDate, 10, "2024-02-15", Some(Naive(Feb15)));
  }

  lemma SpacedGroupAtStart()
    ensures MatchEnd("2024-02-15 10:30:45 INFO Test", 0, SpacedDateTime.group) == Some(19)
  {
    SpacedLineShape();
    SpacedGroupMatch("2024-02-15 10:30:45 INFO Test", 0);
  }

  lemma SpacedGroupParses()
    ensures "2024-02-15 10:30:45 INFO Test"[0..19] == "2024-02-15 10:30:45"
    ensures Parse("2024-02-15 10:30:45", SpacedDateTime.format) == Some(Naive(Feb15At103045))
  {
    SpacedLineStartsWithTime();
    StampsValid();
    SpacedDateTimeText(Feb15At103045, "2024-02-15 10:30:45");
  }

  lemma SpacedAttempt()
    ensures Attempt("2024-02-15 10:30:45 INFO Test", SpacedDateTime) == Some(Naive(Feb15At103045))
  {
    SpacedGroupAtStart();
    SpacedGroupParses();
    AttemptAtStart("2024-02-15 10:30:45 INFO Test", SpacedDateTime, 19, "2024-02-15 10:30:45", Some(Naive(Feb15At103045)));
  }

  /** The overriding list reads the full time. */
  lemma OverriddenListGivesFullTime()
    ensures ExtractDateWith(OverriddenPatterns, "2024-02-15 10:30:45 INFO Test") == Some(Naive(Feb15At103045))
  {
    SpacedAttempt();
  }

  // ---- "[Feb 15 10:30:45 2024] Test" ---------------------------------------

  lemma BracketedLineHasNoDash(g: Grammar)
    requires g in {BareDate, SpacedDateTime, IsoDateTime, OffsetDateTime}
    ensures Search("[Feb 15 10:30:45 2024] Test", g).None?
  {
    DateAtomsSpelled();
    assert g.group[4] == Exactly('-');
    assert '-' !in "[Feb 15 10:30:45 2024] Test";
    NeedsChar("[Feb 15 10:30:45 2024] Test", g, 4);
  }

  lemma BracketedLineHasNoSlash()
    ensures Search("[Feb 15 10:30:45 2024] Test", UsDate).None?
  {
    assert UsDate.group[2] == Exactly('/');
    assert '/' !in "[Feb 15 10:30:45 2024] Test";
    NeedsChar("[Feb 15 10:30:45 2024] Test", UsDate, 2);
  }

  lemma BracketedLineShape()
    ensures MonthDayShaped("[Feb 15 10:30:45 2024] Test", 1) && TimeShaped("[Feb 15 10:30:45 2024] Test", 8)
    ensures YearTailShaped("[Feb 15 10:30:45 2024] Test", 16)
    ensures "[Feb 15 10:30:45 2024] Test"[0] == '[' && "[Feb 15 10:30:45 2024] Test"[21] == ']'
  {
  }

  lemma BracketedLineHoldsTime()
    ensures "[Feb 15 10:30:45 2024] Test"[1..21] == "Feb 15 10:30:45 2024"
  {
    assert "[Feb 15 10:30:45 2024] Test" == "[" + "Feb 15 10:30:45 2024" + "] Test";
  }

  /** The syslog group read at position 1 of the bracketed line. */
  lemma BracketedGroupText(g: Grammar, q: nat)
    requires g.group == SyslogAtoms && g.format == SyslogFormat && q <= 1
    requires MatchAt("[Feb 15 10:30:45 2024] Test", q, g) == Some((1, 21))
    ensures GroupText("[Feb 15 10:30:45 2024] Test", g, q) == "Feb 15 10:30:45 2024"
    ensures Parse(GroupText("[Feb 15 10:30:45 2024] Test", g, q), g.format) == Some(Naive(Feb15At103045))
  {
    BracketedLineHoldsTime();
    StampsValid();
    SyslogText(Feb15At103045, "Feb 15 10:30:45 2024");
  }

  /** The bracketed grammar fits at the start of the bracketed line. */
  lemma BracketedSearch()
    ensures MatchAt("[Feb 15 10:30:45 2024] Test", 0, BracketedSyslog) == Some((1, 21))
    ensures Search("[Feb 15 10:30:45 2024] Test", BracketedSyslog) == Some(0)
  {
    BracketedLineShape();
    SingleMatch("[Feb 15 10:30:45 2024] Test", 0, '[');
    SyslogGroupMatch("[Feb 15 10:30:45 2024] Test", 1);
    SingleMatch("[Feb 15 10:30:45 2024] Test", 21, ']');
  }

  lemma BracketedAttempt()
    ensures Attempt("[Feb 15 10:30:45 2024] Test", BracketedSyslog) == Some(Naive(Feb15At103045))
  {
    BracketedSearch();
    BracketedGroupText(BracketedSyslog, 0);
  }

  /** The overriding list reads inside the brackets. */
  lemma OverriddenListReadsBrackets()
    ensures ExtractDateWith(OverriddenPatterns, "[Feb 15 10:30:45 2024] Test") == Some(Naive(Feb15At103045))
  {
    BracketedLineHasNoDash(SpacedDateTime);
    BracketedAttempt();
    assert OverriddenPatterns[1..] == [BracketedSyslog];
  }

  /** The unbracketed syslog grammar fits one position in. */
  lemma SyslogSearch()
    ensures Search("[Feb 15 10:30:45 2024] Test", Syslog) == Some(1)
    ensures MatchAt("[Feb 15 10:30:45 2024] Test", 1, Syslog) == Some((1, 21))
  {
    BracketedLineShape();
    SyslogGroupMatch("[Feb 15 10:30:45 2024] Test", 1);
    assert SyslogAtoms[0] == AnyLetter;
    assert MatchEnd("[Feb 15 10:30:45 2024] Test", 0, SyslogAtoms).None?;
    assert MatchAt("[Feb 15 10:30:45 2024] Test", 0, Syslog).None?;
  }

  /** The shipped list gives the syslog grammar's result when the five grammars before it fail. */
  lemma ShippedListAtSyslog(line: string)
    requires Attempt(line, BareDate).None? && Attempt(line, SpacedDateTime).None? && Attempt(line, IsoDateTime).None?
    requires Attempt(line, UsDate).None? && Attempt(line, OffsetDateTime).None? && Attempt(line, Syslog).Some?
    ensures ExtractDate(line) == Attempt(line, Syslog)
  {
    ShippedHeads();
    SixthHit(DatetimePatterns, line);
  }

  /** A list whose first five grammars fail gives the sixth grammar's result when that one succeeds. */
  lemma SixthHit(ps: seq<Grammar>, line: string)
    requires |ps| >= 6 && Attempt(line, ps[0]).None? && Attempt(line, ps[1]).None? && Attempt(line, ps[2]).None?
    requires Attempt(line, ps[3]).None? && Attempt(line, ps[4]).None? && Attempt(line, ps[5]).Some?
    ensures ExtractDateWith(ps, line) == Attempt(line, ps[5])
  {
    Skip1(ps, line);
    var p1 := ps[1..];
    assert p1[0] == ps[1];
    Skip1(p1, line);
    var p2 := p1[1..];
    assert p2[0] == ps[2];
    Skip1(p2, line);
    var p3 := p2[1..];
    assert p3[0] == ps[3];
    Skip1(p3, line);
    var p4 := p3[1..];
    assert p4[0] == ps[4];
    Skip1(p4, line);
    var p5 := p4[1..];
    assert p5[0] == ps[5];
    Hit0(p5, line);
  }

  /** A failing first grammar hands the line to the rest of the list. */
  lemma Skip1(ps: seq<Grammar>, line: string)
    requires |ps| > 0 && Attempt(line, ps[0]).None?
    ensures ExtractDateWith(ps, line) == ExtractDateWith(ps[1..], line)
  {
  }

  /** A succeeding first grammar decides the line. */
  lemma Hit0(ps: seq<Grammar>, line: string)
    requires |ps| > 0 && Attempt(line, ps[0]).Some?
    ensures ExtractDateWith(ps, line) == Attempt(line, ps[0])
  {
  }

  lemma ShippedHeads()
    ensures |DatetimePatterns| == 10
    ensures DatetimePatterns[0] == BareDate && DatetimePatterns[1] == SpacedDateTime && DatetimePatterns[2] == IsoDateTime
    ensures DatetimePatterns[3] == UsDate && DatetimePatterns[4] == OffsetDateTime && DatetimePatterns[5] == Syslog
  {
  }

  /** The shipped list finds the same time one position in, with its unbracketed grammar. */
  lemma ShippedListReadsSyslog()
    ensures ExtractDate("[Feb 15 10:30:45 2024] Test") == Some(Naive(Feb15At103045))
  {
    BracketedLineHasNoDash(BareDate);
    BracketedLineHasNoDash(SpacedDateTime);
    BracketedLineHasNoDash(IsoDateTime);
    BracketedLineHasNoDash(OffsetDateTime);
    BracketedLineHasNoSlash();
    SyslogSearch();
    BracketedGroupText(Syslog, 1);
    ShippedListAtSyslog("[Feb 15 10:30:45 2024] Test");
  }
}

/**
 * The log manager's date grammars: each pairs a regular expression, whose
 * first group captures the date text, with the `strptime` format that
 * parses it. `extract_date` tries them in list order and returns the
 * first parse that succeeds.
 */
module DateGrammar {
  import opened Wrappers
  import opened Text
  import opened Timestamps

  /*************************************************************************
   * The regular expressions
   *************************************************************************/

  /** One element of a log-date regular expression. */
  datatype Atom =
    | AnyDigit          // \d
    | AnyLetter         // [A-Za-z]
    | AnySign           // [+\-]
    | Exactly(c: char)  // a literal character
    | DigitRun          // \d+

  /** The character c matches the single-character atom a. */
  predicate AtomChar(a: Atom, c: char) {
    match a
    case AnyDigit => IsDigit(c)
    case AnyLetter => IsAsciiLetter(c)
    case AnySign => c == '+' || c == '-'
    case Exactly(x) => c == x
    case DigitRun => false
  }

  /**
   * What the regular expression means: the atoms can match s[i..e]. A
   * `\d+` may stop after any of the digits it sees.
   */
  ghost predicate Matches(s: string, i: int, e: int, atoms: seq<Atom>)
    decreases |atoms|
  {
    0 <= i <= e <= |s| &&
    if atoms == [] then e == i
    else if atoms[0] == DigitRun then
      exists m :: i < m <= e && Run(s, i, m, Digit) && Matches(s, m, e, atoms[1..])
    else i < |s| && AtomChar(atoms[0], s[i]) && Matches(s, i + 1, e, atoms[1..])
  }

  /** Every `\d+` is followed by a literal that is not a digit, so it cannot give back any digit. */
  predicate GreedySafe(atoms: seq<Atom>) {
    forall k :: 0 <= k < |atoms| && atoms[k] == DigitRun ==>
      k + 1 < |atoms| && atoms[k + 1].Exactly? && !IsDigit(atoms[k + 1].c)
  }

  /** The end of the match of atoms from i, a `\d+` taking every digit it finds. */
  function MatchEnd(s: string, i: nat, atoms: seq<Atom>): (r: Option<nat>)
    requires i <= |s|
    ensures r.Some? ==> i <= r.value <= |s|
    decreases |atoms|
  {
    if atoms == [] then Some(i)
    else if atoms[0] == DigitRun then
      var e := RunEnd(s, i, Digit);
      if e > i then MatchEnd(s, e, atoms[1..]) else None
    else if i < |s| && AtomChar(atoms[0], s[i]) then MatchEnd(s, i + 1, atoms[1..])
    else None
  }

  /** Whatever MatchEnd finds is a match. */
  lemma {:induction false} MatchEndSound(s: string, i: nat, atoms: seq<Atom>)
    requires i <= |s| && MatchEnd(s, i, atoms).Some?
    ensures Matches(s, i, MatchEnd(s, i, atoms).value, atoms)
    decreases |atoms|
  {
    if atoms != [] {
      if atoms[0] == DigitRun {
        var m := RunEnd(s, i, Digit);
        MatchEndSound(s, m, atoms[1..]);
      } else {
        MatchEndSound(s, i + 1, atoms[1..]);
      }
    }
  }

  /** With no `\d+` able to give back digits, every match is the one MatchEnd finds. */
  lemma {:induction false} MatchEndComplete(s: string, i: nat, e: nat, atoms: seq<Atom>)
    requires GreedySafe(atoms) && Matches(s, i, e, atoms)
    ensures MatchEnd(s, i, atoms) == Some(e)
    decreases |atoms|
  {
    if atoms != [] {
      var rest := atoms[1..];
      assert GreedySafe(rest) by {
        forall k | 0 <= k < |rest| && rest[k] == DigitRun
          ensures k + 1 < |rest| && rest[k + 1].Exactly? && !IsDigit(rest[k + 1].c)
        {
          assert atoms[k + 1] == rest[k];
        }
      }
      if atoms[0] == DigitRun {
        var m :| i < m <= e && Run(s, i, m, Digit) && Matches(s, m, e, rest);
        assert rest[0].Exactly? && !IsDigit(rest[0].c);
        RunEndUnique(s, i, m, Digit);
        MatchEndComplete(s, m, e, rest);
      } else {
        MatchEndComplete(s, i + 1, e, rest);
      }
    }
  }

  /** Atoms without `\d+` match one character each. */
  lemma {:induction false} FixedMatch(s: string, i: nat, atoms: seq<Atom>)
    requires DigitRun !in atoms && i + |atoms| <= |s|
    requires forall k :: 0 <= k < |atoms| ==> AtomChar(atoms[k], s[i + k])
    ensures MatchEnd(s, i, atoms) == Some(i + |atoms|)
    decreases |atoms|
  {
    if atoms != [] {
      assert atoms[0] in atoms && AtomChar(atoms[0], s[i + 0]);
      var rest := atoms[1..];
      forall k | 0 <= k < |rest|
        ensures AtomChar(rest[k], s[i + 1 + k])
      {
        assert rest[k] == atoms[k + 1];
      }
      assert forall x :: x in rest ==> x in atoms;
      FixedMatch(s, i + 1, rest);
    }
  }

  /** Atoms written one after the other match one after the other. */
  lemma {:induction false} MatchEndAppend(s: string, i: nat, a: seq<Atom>, b: seq<Atom>)
    requires i <= |s|
    ensures MatchEnd(s, i, a + b) == (if MatchEnd(s, i, a).None? then None else MatchEnd(s, MatchEnd(s, i, a).value, b))
    decreases |a|
  {
    if a == [] {
      assert a + b == b;
    } else {
      assert (a + b)[0] == a[0] && (a + b)[1..] == a[1..] + b;
      if a[0] == DigitRun {
        var e := RunEnd(s, i, Digit);
        if e > i {
          MatchEndAppend(s, e, a[1..], b);
        }
      } else if i < |s| && AtomChar(a[0], s[i]) {
        MatchEndAppend(s, i + 1, a[1..], b);
      }
    }
  }

  /** A match of atoms without `\d+` before position k has atom k's character at i + k. */
  lemma {:induction false} MatchNeedsChar(s: string, i: nat, atoms: seq<Atom>, k: nat)
    requires i <= |s| && k < |atoms| && DigitRun !in atoms[..k + 1]
    ensures MatchEnd(s, i, atoms).Some? ==> i + k < |s| && AtomChar(atoms[k], s[i + k])
    decreases k
  {
    assert atoms[0] in atoms[..k + 1];
    if k > 0 && i < |s| && AtomChar(atoms[0], s[i]) {
      assert atoms[1..][..k] == atoms[1..k + 1];
      assert atoms[1..k + 1] == atoms[..k + 1][1..];
      MatchNeedsChar(s, i + 1, atoms[1..], k - 1);
    }
  }

  /*************************************************************************
   * Grammars and the leftmost search
   *************************************************************************/

  /** A regular expression `before(group)after` and the format for the group. */
  datatype Grammar = Grammar(before: seq<Atom>, group: seq<Atom>, after: seq<Atom>, format: seq<Directive>)

  /** The span of the group when the whole expression matches from p. */
  function MatchAt(s: string, p: nat, g: Grammar): (r: Option<(nat, nat)>)
    requires p <= |s|
    ensures r.Some? ==> p <= r.value.0 <= r.value.1 <= |s|
  {
    var a := MatchEnd(s, p, g.before);
    if a.None? then None
    else
      var b := MatchEnd(s, a.value, g.group);
      if b.None? then None
      else if MatchEnd(s, b.value, g.after).None? then None
      else Some((a.value, b.value))
  }

  /** The expression matches from p, with its group spanning s[a..b]. */
  ghost predicate GrammarMatches(s: string, p: int, a: int, b: int, g: Grammar) {
    exists e :: Matches(s, p, a, g.before) && Matches(s, a, b, g.group) && Matches(s, b, e, g.after)
  }

  predicate Safe(g: Grammar) {
    GreedySafe(g.before) && GreedySafe(g.group) && GreedySafe(g.after)
  }

  /** MatchAt finds exactly the regular expression's matches. */
  lemma MatchAtMeaning(s: string, p: nat, g: Grammar)
    requires p <= |s| && Safe(g)
    ensures MatchAt(s, p, g).Some? ==> GrammarMatches(s, p, MatchAt(s, p, g).value.0, MatchAt(s, p, g).value.1, g)
    ensures forall a, b :: GrammarMatches(s, p, a, b, g) ==> MatchAt(s, p, g) == Some((a, b))
  {
    var r := MatchAt(s, p, g);
    if r.Some? {
      var (a, b) := r.value;
      MatchEndSound(s, p, g.before);
      MatchEndSound(s, a, g.group);
      MatchEndSound(s, b, g.after);
    }
    forall a, b | GrammarMatches(s, p, a, b, g)
      ensures MatchAt(s, p, g) == Some((a, b))
    {
      var e :| Matches(s, p, a, g.before) && Matches(s, a, b, g.group) && Matches(s, b, e, g.after);
      MatchEndComplete(s, p, a, g.before);
      MatchEndComplete(s, a, b, g.group);
      MatchEndComplete(s, b, e, g.after);
    }
  }

  /** `re.search`: the leftmost start, from p on, where the expression matches. */
  function SearchFrom(s: string, g: Grammar, p: nat): (r: Option<nat>)
    requires p <= |s| + 1
    ensures r.Some? ==> p <= r.value <= |s| && MatchAt(s, r.value, g).Some?
    ensures r.Some? ==> forall q :: p <= q < r.value ==> MatchAt(s, q, g).None?
    ensures r.None? ==> forall q :: p <= q <= |s| ==> MatchAt(s, q, g).None?
    decreases |s| + 1 - p
  {
    if p > |s| then None
    else if MatchAt(s, p, g).Some? then Some(p)
    else SearchFrom(s, g, p + 1)
  }

  function Search(s: string, g: Grammar): Option<nat> {
    SearchFrom(s, g, 0)
  }

  /** `match.group(1)` of the search. */
  function GroupText(s: string, g: Grammar, q: nat): string
    requires q <= |s| && MatchAt(s, q, g).Some?
  {
    s[MatchAt(s, q, g).value.0..MatchAt(s, q, g).value.1]
  }

  /** One grammar's try: search the line, then parse the group, `ValueError` giving None. */
  function Attempt(line: string, g: Grammar): Option<Parsed> {
    var q := Search(line, g);
    if q.None? then None else Parse(GroupText(line, g, q.value), g.format)
  }

  /** `LogFileManager.extract_date` with `datetime_patterns` set to patterns. */
  function ExtractDateWith(patterns: seq<Grammar>, line: string): Option<Parsed> {
    if patterns == [] then None
    else
      var a := Attempt(line, patterns[0]);
      if a.Some? then a else ExtractDateWith(patterns[1..], line)
  }

  /**
   * The result is the first grammar's successful parse, in list order, and
   * None exactly when every grammar fails.
   */
  lemma {:induction false} FirstSuccess(patterns: seq<Grammar>, line: string)
    ensures ExtractDateWith(patterns, line).None? <==> forall k :: 0 <= k < |patterns| ==> Attempt(line, patterns[k]).None?
    ensures forall k :: 0 <= k < |patterns| && Attempt(line, patterns[k]).Some?
                        && (forall j :: 0 <= j < k ==> Attempt(line, patterns[j]).None?)
                        ==> ExtractDateWith(patterns, line) == Attempt(line, patterns[k])
    decreases |patterns|
  {
    if patterns != [] {
      var rest := patterns[1..];
      FirstSuccess(rest, line);
      forall k | 0 <= k < |patterns| && Attempt(line, patterns[k]).Some?
                 && (forall j :: 0 <= j < k ==> Attempt(line, patterns[j]).None?)
        ensures ExtractDateWith(patterns, line) == Attempt(line, patterns[k])
      {
        if k > 0 {
          assert rest[k - 1] == patterns[k];
          assert forall j :: 0 <= j < k - 1 ==> rest[j] == patterns[j + 1];
        }
      }
      if Attempt(line, patterns[0]).None? {
        assert forall k :: 0 <= k < |rest| ==> rest[k] == patterns[k + 1];
      }
    }
  }

  /** A grammar that never succeeds can be dropped from the list without effect. */
  lemma {:induction false} DeadGrammarIsSkipped(patterns: seq<Grammar>, k: nat, line: string)
    requires k < |patterns| && forall s :: Attempt(s, patterns[k]).None?
    ensures ExtractDateWith(patterns, line) == ExtractDateWith(patterns[..k] + patterns[k + 1..], line)
    decreases k
  {
    if k == 0 {
      assert patterns[..0] + patterns[1..] == patterns[1..];
    } else {
      var rest := patterns[1..];
      DeadGrammarIsSkipped(rest, k - 1, line);
      assert patterns[..k] + patterns[k + 1..] == [patterns[0]] + (rest[..k - 1] + rest[k..]);
    }
  }

  /** A grammar whose group needs a character at a fixed offset finds nothing in a line without it. */
  lemma NeedsChar(s: string, g: Grammar, k: nat)
    requires g.before == [] && k < |g.group| && g.group[k].Exactly? && g.group[k].c !in s
    requires DigitRun !in g.group[..k + 1]
    ensures Search(s, g).None?
  {
    forall p | 0 <= p <= |s|
      ensures MatchAt(s, p, g).None?
    {
      MatchNeedsChar(s, p, g.group, k);
      if p + k < |s| {
        assert s[p + k] in s;
      }
    }
  }

  /*************************************************************************
   * The shipped grammars
   *************************************************************************/

  function Repeat(a: Atom, n: nat): (r: seq<Atom>)
    ensures |r| == n && forall k :: 0 <= k < n ==> r[k] == a
  {
    if n == 0 then [] else [a] + Repeat(a, n - 1)
  }

  /** `\d{4}-\d{2}-\d{2}` */
  const DateAtoms: seq<Atom> := Repeat(AnyDigit, 4) + [Exactly('-')] + Repeat(AnyDigit, 2) + [Exactly('-')] + Repeat(AnyDigit, 2)
  /** `\d{2}:\d{2}:\d{2}` */
  const TimeAtoms: seq<Atom> := Repeat(AnyDigit, 2) + [Exactly(':')] + Repeat(AnyDigit, 2) + [Exactly(':')] + Repeat(AnyDigit, 2)
  /** `[A-Za-z]{3} \d{2} \d{2}:\d{2}:\d{2} \d{4}` */
  const SyslogAtoms: seq<Atom> :=
    Repeat(AnyLetter, 3) + [Exactly(' ')] + Repeat(AnyDigit, 2) + [Exactly(' ')] + TimeAtoms + [Exactly(' ')] + Repeat(AnyDigit, 4)

  const DateFormat: seq<Directive> := [Year, Char('-'), Month, Char('-'), Day]
  const TimeFormat: seq<Directive> := [Hour, Char(':'), Minute, Char(':'), Second]
  const SyslogFormat: seq<Directive> := [MonthName, Blank, Day, Blank] + TimeFormat + [Blank, Year]

  /** `(\d{4}-\d{2}-\d{2})` with `%Y-%m-%d` */
  const BareDate: Grammar := Grammar([], DateAtoms, [], DateFormat)
  /** `(\d{4}-\d{2}-\d{2} \d{2}:\d{2}:\d{2})` with `%Y-%m-%d %H:%M:%S` */
  const SpacedDateTime: Grammar := Grammar([], DateAtoms + [Exactly(' ')] + TimeAtoms, [], DateFormat + [Blank] + TimeFormat)
  /** `(\d{4}-\d{2}-\d{2}T\d{2}:\d{2}:\d{2})` with `%Y-%m-%dT%H:%M:%S` */
  const IsoDateTime: Grammar := Grammar([], DateAtoms + [Exactly('T')] + TimeAtoms, [], DateFormat + [Char('T')] + TimeFormat)
  /** `(\d{2}/\d{2}/\d{4})` with `%m/%d/%Y` */
  const UsDate: Grammar :=
    Grammar([], Repeat(AnyDigit, 2) + [Exactly('/')] + Repeat(AnyDigit, 2) + [Exactly('/')] + Repeat(AnyDigit, 4), [],
            [Month, Char('/'), Day, Char('/'), Year])
  /** `(\d{4}-\d{2}-\d{2}T\d{2}:\d{2}:\d{2}[+\-]\d{2}:\d{2})` with `%Y-%m-%dT%H:%M:%S%z` */
  const OffsetDateTime: Grammar :=
    Grammar([], DateAtoms + [Exactly('T')] + TimeAtoms + [AnySign] + Repeat(AnyDigit, 2) + [Exactly(':')] + Repeat(AnyDigit, 2), [],
            DateFormat + [Char('T')] + TimeFormat + [Offset])
  /** `([A-Za-z]{3} \d{2} \d{2}:\d{2}:\d{2} \d{4})` with `%b %d %H:%M:%S %Y` */
  const Syslog: Grammar := Grammar([], SyslogAtoms, [], SyslogFormat)
  /** `(\d{10})` with `%s` */
  const EpochSeconds: Grammar := Grammar([], Repeat(AnyDigit, 10), [], [Epoch])
  /** `(\d{4}-\d{2}-\d{2}T\d{2}:\d{2}:\d{2}\.\d+Z)` with `%Y-%m-%dT%H:%M:%S.%fZ` */
  const UtcDateTime: Grammar :=
    Grammar([], DateAtoms + [Exactly('T')] + TimeAtoms + [Exactly('.'), DigitRun, Exactly('Z')], [],
            DateFormat + [Char('T')] + TimeFormat + [Char('.'), Fraction, Char('Z')])
  /** `([A-Za-z]{3} [A-Za-z]{3} \d{2} \d{2}:\d{2}:\d{2} \d{4})` with `%a %b %d %H:%M:%S %Y` */
  const DaySyslog: Grammar := Grammar([], Repeat(AnyLetter, 3) + [Exactly(' ')] + SyslogAtoms, [], [DayName, Blank] + SyslogFormat)
  /** `(\d{8})` with `%Y%m%d` */
  const CompactDate: Grammar := Grammar([], Repeat(AnyDigit, 8), [], [Year, Month, Day])

  /** `datetime_patterns` as the manager sets it up, in its order. */
  const DatetimePatterns: seq<Grammar> :=
    [BareDate, SpacedDateTime, IsoDateTime, UsDate, OffsetDateTime, Syslog, EpochSeconds, UtcDateTime, DaySyslog, CompactDate]

  /** `LogFileManager.extract_date` */
  function ExtractDate(line: string): Option<Parsed> {
    ExtractDateWith(DatetimePatterns, line)
  }

  /*************************************************************************
   * What the shipped list does
   *************************************************************************/

  /** The leftmost start Search reports is the leftmost start of a regular-expression match. */
  lemma SearchIsLeftmostMatch(s: string, g: Grammar)
    requires Safe(g)
    ensures Search(s, g).Some? ==>
              var q := Search(s, g).value;
              GrammarMatches(s, q, MatchAt(s, q, g).value.0, MatchAt(s, q, g).value.1, g)
              && forall p, a, b :: 0 <= p < q ==> !GrammarMatches(s, p, a, b, g)
    ensures Search(s, g).None? ==> forall p, a, b :: 0 <= p <= |s| ==> !GrammarMatches(s, p, a, b, g)
  {
    var r := Search(s, g);
    var bound := if r.Some? then r.value else |s| + 1;
    forall p, a, b | 0 <= p < bound
      ensures !GrammarMatches(s, p, a, b, g)
    {
      MatchAtMeaning(s, p, g);
    }
    if r.Some? {
      MatchAtMeaning(s, r.value, g);
    }
  }

  /** No shipped grammar has a `\d+` that could give back digits. */
  lemma ShippedGrammarsAreSafe()
    ensures forall k :: 0 <= k < |DatetimePatterns| ==> Safe(DatetimePatterns[k])
  {
    FixedWidth(AnyDigit, 2);
    FixedWidth(AnyDigit, 4);
    FixedWidth(AnyDigit, 8);
    FixedWidth(AnyDigit, 10);
    FixedWidth(AnyLetter, 3);
    assert DigitRun !in DateAtoms && DigitRun !in TimeAtoms && DigitRun !in SyslogAtoms;
    NoRunIsSafe(BareDate.group);
    NoRunIsSafe(SpacedDateTime.group);
    NoRunIsSafe(IsoDateTime.group);
    NoRunIsSafe(UsDate.group);
    NoRunIsSafe(OffsetDateTime.group);
    NoRunIsSafe(Syslog.group);
    NoRunIsSafe(EpochSeconds.group);
    UtcIsSafe();
    NoRunIsSafe(DaySyslog.group);
    NoRunIsSafe(CompactDate.group);
  }

  lemma UtcIsSafe()
    ensures Safe(UtcDateTime)
  {
    var prefix := DateAtoms + [Exactly('T')] + TimeAtoms;
    FixedWidth(AnyDigit, 2);
    FixedWidth(AnyDigit, 4);
    assert DigitRun !in prefix;
    assert UtcDateTime.group == prefix + [Exactly('.'), DigitRun, Exactly('Z')];
  }

  lemma NoRunIsSafe(atoms: seq<Atom>)
    requires DigitRun !in atoms
    ensures GreedySafe(atoms)
  {
    assert forall k :: 0 <= k < |atoms| ==> atoms[k] in atoms;
  }

  lemma FixedWidth(a: Atom, n: nat)
    requires a != DigitRun
    ensures DigitRun !in Repeat(a, n)
  {
  }

  /**
   * The bare-date grammar comes first: when the leftmost `YYYY-MM-DD` of a
   * line is a valid date, that date at midnight is the result, even where a
   * time of day follows it.
   */
  lemma BareDateShadows(line: string)
    requires Attempt(line, BareDate).Some?
    ensures ExtractDate(line) == Attempt(line, BareDate)
    ensures ExtractDate(line).value.Naive?
    ensures var t := ExtractDate(line).value.t; t.hour == 0 && t.minute == 0 && t.second == 0 && t.micro == 0
  {
    BareDateFirst(line);
    BareDateMidnight(line);
  }

  lemma BareDateFirst(line: string)
    requires Attempt(line, BareDate).Some?
    ensures ExtractDate(line) == Attempt(line, BareDate)
  {
    assert DatetimePatterns[0] == BareDate;
  }

  lemma BareDateMidnight(line: string)
    requires Attempt(line, BareDate).Some?
    ensures Attempt(line, BareDate).value.Naive?
    ensures var t := Attempt(line, BareDate).value.t; t.hour == 0 && t.minute == 0 && t.second == 0 && t.micro == 0
  {
    var q := Search(line, BareDate).value;
    DateOnlyIsMidnight(GroupText(line, BareDate, q), DateFormat);
  }

  /** The `%s` grammar never parses, so the list behaves as if it were not there. */
  lemma EpochGrammarIsDead(line: string)
    ensures ExtractDate(line) == ExtractDateWith(DatetimePatterns[..6] + DatetimePatterns[7..], line)
  {
    assert DatetimePatterns[6] == EpochSeconds;
    forall s: string
      ensures Attempt(s, DatetimePatterns[6]).None?
    {
      assert Epoch in EpochSeconds.format;
    }
    DeadGrammarIsSkipped(DatetimePatterns, 6, line);
  }
}

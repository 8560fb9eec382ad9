/**
 * Python's `datetime` values as the log-date truncation sees them, and
 * `datetime.strptime` for the formats the log-date grammars use.
 *
 * A parsed value is naive unless the format carries `%z`, in which case it
 * is aware and holds its UTC offset in minutes.
 */
module Timestamps {
  import opened Wrappers
  import opened Text

  /** The fields of a naive `datetime`, compared in this order. */
  datatype Stamp = Stamp(year: int, month: int, day: int, hour: int, minute: int, second: int, micro: int)

  /** What `strptime` returns: naive, or aware with an offset in minutes. */
  datatype Parsed = Naive(t: Stamp) | Aware(t: Stamp, offset: int)

  /*************************************************************************
   * Calendar
   *************************************************************************/

  predicate IsLeap(y: int) {
    y % 4 == 0 && (y % 100 != 0 || y % 400 == 0)
  }

  function DaysInMonth(y: int, m: int): (n: int)
    requires 1 <= m <= 12
    ensures 28 <= n <= 31
  {
    if m == 2 then (if IsLeap(y) then 29 else 28)
    else if m == 4 || m == 6 || m == 9 || m == 11 then 30
    else 31
  }

  /** The values `datetime(...)` accepts without raising `ValueError`. */
  predicate ValidStamp(t: Stamp) {
    1 <= t.year <= 9999 && 1 <= t.month <= 12 && 1 <= t.day <= DaysInMonth(t.year, t.month)
    && 0 <= t.hour <= 23 && 0 <= t.minute <= 59 && 0 <= t.second <= 59 && 0 <= t.micro <= 999999
  }

  /*************************************************************************
   * Ordering: naive datetimes compare as the tuple of their fields
   *************************************************************************/

  function Key(t: Stamp): seq<int> {
    [t.year, t.month, t.day, t.hour, t.minute, t.second, t.micro]
  }

  /** Python's `<` on tuples of integers of equal length. */
  predicate LexLess(a: seq<int>, b: seq<int>)
    requires |a| == |b|
  {
    |a| > 0 && (a[0] < b[0] || (a[0] == b[0] && LexLess(a[1..], b[1..])))
  }

  /** `a < b` for naive datetimes; `a >= b` is its negation. */
  predicate Before(a: Stamp, b: Stamp) {
    LexLess(Key(a), Key(b))
  }

  lemma {:induction false} LexLessIrreflexive(a: seq<int>)
    ensures !LexLess(a, a)
  {
    if |a| > 0 {
      LexLessIrreflexive(a[1..]);
    }
  }

  lemma {:induction false} LexLessTransitive(a: seq<int>, b: seq<int>, c: seq<int>)
    requires |a| == |b| == |c| && LexLess(a, b) && LexLess(b, c)
    ensures LexLess(a, c)
  {
    if a[0] == b[0] && b[0] == c[0] {
      LexLessTransitive(a[1..], b[1..], c[1..]);
    }
  }

  lemma {:induction false} LexLessTotal(a: seq<int>, b: seq<int>)
    requires |a| == |b|
    ensures LexLess(a, b) || a == b || LexLess(b, a)
  {
    if |a| > 0 && a[0] == b[0] {
      LexLessTotal(a[1..], b[1..]);
      if a[1..] == b[1..] {
        assert a == [a[0]] + a[1..] && b == [b[0]] + b[1..];
      }
    }
  }

  lemma {:induction false} LexLessAsymmetric(a: seq<int>, b: seq<int>)
    requires |a| == |b| && LexLess(a, b)
    ensures !LexLess(b, a)
  {
    if a[0] == b[0] {
      LexLessAsymmetric(a[1..], b[1..]);
    }
  }

  /** `Before` is a strict total order, so `>=` is its complement. */
  lemma BeforeIsStrictTotalOrder(a: Stamp, b: Stamp, c: Stamp)
    ensures !Before(a, a)
    ensures Before(a, b) ==> !Before(b, a)
    ensures Before(a, b) && Before(b, c) ==> Before(a, c)
    ensures Before(a, b) || a == b || Before(b, a)
  {
    LexLessIrreflexive(Key(a));
    if Before(a, b) {
      LexLessAsymmetric(Key(a), Key(b));
      if Before(b, c) {
        LexLessTransitive(Key(a), Key(b), Key(c));
      }
    }
    LexLessTotal(Key(a), Key(b));
  }

  /** An earlier year, month or day decides the comparison before the time of day. */
  lemma EarlierDayIsBefore(a: Stamp, b: Stamp)
    requires a.year < b.year || (a.year == b.year && (a.month < b.month || (a.month == b.month && a.day < b.day)))
    ensures Before(a, b)
  {
  }

  /*************************************************************************
   * strptime
   *************************************************************************/

  /** The directives and literal characters of a `strptime` format. */
  datatype Directive =
    | Year        // %Y
    | Month       // %m
    | Day         // %d
    | Hour        // %H
    | Minute      // %M
    | Second      // %S
    | Fraction    // %f
    | Offset      // %z
    | MonthName   // %b
    | DayName     // %a
    | Epoch       // %s, which `strptime` does not know
    | Blank       // whitespace in the format, which matches `\s+`
    | Char(c: char)

  /** The values the directives fill in, starting from strptime's defaults. */
  datatype Fields = Fields(year: int, month: int, day: int, hour: int, minute: int, second: int,
                           micro: int, offset: Option<int>)

  const Defaults: Fields := Fields(1900, 1, 1, 0, 0, 0, 0, None)

  /** `%b` and `%a` in the C locale, matched without regard to case. */
  const MonthAbbreviations: seq<string> :=
    ["jan", "feb", "mar", "apr", "may", "jun", "jul", "aug", "sep", "oct", "nov", "dec"]
  const DayAbbreviations: seq<string> := ["mon", "tue", "wed", "thu", "fri", "sat", "sun"]

  predicate DigitsAt(text: string, i: int, n: nat) {
    0 <= i && i + n <= |text| && forall k :: i <= k < i + n ==> IsDigit(text[k])
  }

  /** The value of a string of decimal digits. */
  function Decimal(s: string): (v: nat)
    requires forall k :: 0 <= k < |s| ==> IsDigit(s[k])
  {
    if s == [] then 0
    else
      assert IsDigit(s[|s| - 1]);
      Decimal(s[..|s| - 1]) * 10 + (s[|s| - 1] as int - '0' as int)
  }

  lemma DecimalBound(s: string)
    requires forall k :: 0 <= k < |s| ==> IsDigit(s[k])
    ensures Decimal(s) < Pow10(|s|)
  {
    if s != [] {
      DecimalBound(s[..|s| - 1]);
    }
  }

  function Pow10(n: nat): (p: nat)
    ensures p >= 1
  {
    if n == 0 then 1 else 10 * Pow10(n - 1)
  }

  /** The number in the n digits at i. */
  function Number(text: string, i: nat, n: nat): (v: nat)
    requires DigitsAt(text, i, n)
    ensures v < Pow10(n)
  {
    DecimalBound(text[i..i + n]);
    Decimal(text[i..i + n])
  }

  /** The index of w in names, or -1. */
  function IndexOf(names: seq<string>, w: string): (k: int)
    ensures -1 <= k < |names|
    ensures k >= 0 ==> names[k] == w
    ensures k < 0 ==> w !in names
  {
    if names == [] then -1
    else if names[|names| - 1] == w then |names| - 1
    else IndexOf(names[..|names| - 1], w)
  }

  /**
   * A two-digit field whose value lies in lo..hi: the only way the
   * directive's alternatives (`1[0-2]|0[1-9]|[1-9]` for %m and the like)
   * consume two digits that the rest of the format does not need.
   */
  function TwoDigits(text: string, i: nat, lo: nat, hi: nat): (r: Option<nat>)
    ensures r.Some? ==> DigitsAt(text, i, 2) && lo <= r.value <= hi
  {
    if DigitsAt(text, i, 2) && lo <= Number(text, i, 2) <= hi then Some(Number(text, i, 2)) else None
  }

  /** One directive of the format, read at position i. */
  function Step(text: string, i: nat, d: Directive, f: Fields): (r: Option<(nat, Fields)>)
    requires i <= |text|
    ensures r.Some? ==> i < r.value.0 <= |text|
  {
    match d
    case Year =>
      if DigitsAt(text, i, 4) then Some((i + 4, f.(year := Number(text, i, 4)))) else None
    case Month =>
      var v := TwoDigits(text, i, 1, 12); if v.Some? then Some((i + 2, f.(month := v.value))) else None
    case Day =>
      var v := TwoDigits(text, i, 1, 31); if v.Some? then Some((i + 2, f.(day := v.value))) else None
    case Hour =>
      var v := TwoDigits(text, i, 0, 23); if v.Some? then Some((i + 2, f.(hour := v.value))) else None
    case Minute =>
      var v := TwoDigits(text, i, 0, 59); if v.Some? then Some((i + 2, f.(minute := v.value))) else None
    case Second =>
      var v := TwoDigits(text, i, 0, 61); if v.Some? then Some((i + 2, f.(second := v.value))) else None
    case Fraction =>
      var e := RunEnd(text, i, Digit);
      if 1 <= e - i <= 6 then
        Some((e, f.(micro := Number(text, i, e - i) * Pow10(6 - (e - i)))))
      else None
    case Offset =>
      if i + 6 <= |text| && (text[i] == '+' || text[i] == '-') && DigitsAt(text, i + 1, 2)
         && text[i + 3] == ':' && DigitsAt(text, i + 4, 2) && text[i + 4] <= '5'
      then
        var minutes := Number(text, i + 1, 2) * 60 + Number(text, i + 4, 2);
        Some((i + 6, f.(offset := Some(if text[i] == '-' then -minutes else minutes))))
      else None
    case MonthName =>
      if i + 3 <= |text| && IndexOf(MonthAbbreviations, Lower(text[i..i + 3])) >= 0 then
        Some((i + 3, f.(month := IndexOf(MonthAbbreviations, Lower(text[i..i + 3])) + 1)))
      else None
    case DayName =>
      if i + 3 <= |text| && IndexOf(DayAbbreviations, Lower(text[i..i + 3])) >= 0 then Some((i + 3, f)) else None
    case Epoch => None
    case Blank =>
      var e := RunEnd(text, i, Space); if e > i then Some((e, f)) else None
    case Char(c) =>
      if i < |text| && LowerChar(text[i]) == LowerChar(c) then Some((i + 1, f)) else None
  }

  /** The format from fmt[0] on, read from position i; the whole text must be used up. */
  function Scan(text: string, i: nat, fmt: seq<Directive>, f: Fields): Option<Fields>
    requires i <= |text|
    decreases |fmt|
  {
    if fmt == [] then (if i == |text| then Some(f) else None)
    else
      var s := Step(text, i, fmt[0], f);
      if s.None? then None else Scan(text, s.value.0, fmt[1..], s.value.1)
  }

  /** Scan reads the first directive, then the rest of the format. */
  lemma ScanCons(text: string, i: nat, fmt: seq<Directive>, f: Fields)
    requires i <= |text| && fmt != [] && Step(text, i, fmt[0], f).Some?
    ensures var s := Step(text, i, fmt[0], f).value;
            Scan(text, i, fmt, f) == Scan(text, s.0, fmt[1..], s.1)
  {
  }

  /** The checks `datetime(...)` and `timezone(...)` make once the fields are read. */
  predicate ValidFields(f: Fields) {
    ValidStamp(StampOf(f)) && (f.offset.Some? ==> -24 * 60 < f.offset.value < 24 * 60)
  }

  function StampOf(f: Fields): Stamp {
    Stamp(f.year, f.month, f.day, f.hour, f.minute, f.second, f.micro)
  }

  /**
   * `datetime.strptime(text, fmt)`, or None where it raises `ValueError`.
   * Every numeric field is read at the width the log-date grammars give
   * it (two digits for %m, %d, %H, %M, %S, four for %Y).
   */
  function Parse(text: string, fmt: seq<Directive>): (r: Option<Parsed>)
    ensures r.Some? ==> ValidStamp(r.value.t)
    ensures Epoch in fmt ==> r.None?
    ensures Offset !in fmt && r.Some? ==> r.value.Naive?
  {
    if Epoch in fmt then None
    else
      var f := Scan(text, 0, fmt, Defaults);
      ScanKeeps(text, 0, fmt, Defaults);
      if f.None? || !ValidFields(f.value) then None
      else if f.value.offset.None? then Some(Naive(StampOf(f.value)))
      else Some(Aware(StampOf(f.value), f.value.offset.value))
  }

  /** A field whose directive is missing from the format keeps its starting value. */
  lemma {:induction false} ScanKeeps(text: string, i: nat, fmt: seq<Directive>, f: Fields)
    requires i <= |text|
    ensures var r := Scan(text, i, fmt, f);
            r.Some? ==>
              (Hour !in fmt ==> r.value.hour == f.hour)
              && (Minute !in fmt ==> r.value.minute == f.minute)
              && (Second !in fmt ==> r.value.second == f.second)
              && (Fraction !in fmt ==> r.value.micro == f.micro)
              && (Offset !in fmt ==> r.value.offset == f.offset)
    decreases |fmt|
  {
    if fmt != [] {
      var s := Step(text, i, fmt[0], f);
      if s.Some? {
        ScanKeeps(text, s.value.0, fmt[1..], s.value.1);
        StepKeeps(text, i, fmt[0], f);
        InHeadOrTail(fmt);
        ScanCons(text, i, fmt, f);
      }
    }
  }

  /** One directive changes only the field it reads. */
  lemma StepKeeps(text: string, i: nat, d: Directive, f: Fields)
    requires i <= |text| && Step(text, i, d, f).Some?
    ensures var g := Step(text, i, d, f).value.1;
            (d != Hour ==> g.hour == f.hour) && (d != Minute ==> g.minute == f.minute)
            && (d != Second ==> g.second == f.second) && (d != Fraction ==> g.micro == f.micro)
            && (d != Offset ==> g.offset == f.offset)
  {
  }

  /** A format without a time of day yields midnight. */
  lemma DateOnlyIsMidnight(text: string, fmt: seq<Directive>)
    requires Hour !in fmt && Minute !in fmt && Second !in fmt && Fraction !in fmt && Offset !in fmt
    requires Parse(text, fmt).Some?
    ensures var t := Parse(text, fmt).value.t;
            t.hour == 0 && t.minute == 0 && t.second == 0 && t.micro == 0
  {
    ScanKeeps(text, 0, fmt, Defaults);
  }

  /*************************************************************************
   * The inverse: a stamp written out in a format
   *************************************************************************/

  /** n in decimal, zero-padded to width digits. */
  function Pad(n: nat, width: nat): (r: string)
    requires n < Pow10(width)
    ensures |r| == width && (forall k :: 0 <= k < |r| ==> IsDigit(r[k])) && Decimal(r) == n
  {
    if width == 0 then []
    else
      var r := Pad(n / 10, width - 1) + [('0' as int + n % 10) as char];
      assert r[..width - 1] == Pad(n / 10, width - 1);
      r
  }

  /** `%b` as `strftime` writes it in the C locale. */
  const MonthNames: seq<string> :=
    ["Jan", "Feb", "Mar", "Apr", "May", "Jun", "Jul", "Aug", "Sep", "Oct", "Nov", "Dec"]

  /** The directives a naive stamp can be written in. */
  predicate Writable(d: Directive) {
    !d.Offset? && !d.DayName? && !d.Epoch?
  }

  lemma Pow10Values()
    ensures Pow10(2) == 100 && Pow10(4) == 10000 && Pow10(6) == 1000000
  {
  }

  /** The text of one directive for t. */
  function Field(t: Stamp, d: Directive): (r: string)
    requires ValidStamp(t) && Writable(d)
    ensures |r| > 0
  {
    Pow10Values();
    match d
    case Year => Pad(t.year, 4)
    case Month => Pad(t.month, 2)
    case Day => Pad(t.day, 2)
    case Hour => Pad(t.hour, 2)
    case Minute => Pad(t.minute, 2)
    case Second => Pad(t.second, 2)
    case Fraction => Pad(t.micro, 6)
    case MonthName => MonthNames[t.month - 1]
    case Blank => " "
    case Char(c) => [c]
  }

  function Render(t: Stamp, fmt: seq<Directive>): string
    requires ValidStamp(t) && AllWritable(fmt)
  {
    if fmt == [] then [] else Field(t, fmt[0]) + Render(t, fmt[1..])
  }

  lemma {:induction false} RenderAppend(t: Stamp, a: seq<Directive>, b: seq<Directive>)
    requires ValidStamp(t) && AllWritable(a) && AllWritable(b)
    ensures AllWritable(a + b) && Render(t, a + b) == Render(t, a) + Render(t, b)
    decreases |a|
  {
    if a == [] {
      assert a + b == b;
    } else {
      assert (a + b)[1..] == a[1..] + b;
      RenderAppend(t, a[1..], b);
    }
  }

  /** A directive whose text starts with a digit, or with whitespace. */
  predicate StartsNumeric(d: Directive) {
    d.Year? || d.Month? || d.Day? || d.Hour? || d.Minute? || d.Second? || d.Fraction? || (d.Char? && IsDigit(d.c))
  }

  predicate StartsBlank(d: Directive) {
    d.Blank? || (d.Char? && IsSpace(d.c))
  }

  /**
   * A format a stamp can be written in and read back: no `%f` runs into
   * a digit and no blank runs into whitespace.
   */
  predicate Renderable(fmt: seq<Directive>) {
    fmt == [] ||
    (Writable(fmt[0])
     && (fmt[0] == Fraction && |fmt| > 1 ==> !StartsNumeric(fmt[1]))
     && (fmt[0] == Blank && |fmt| > 1 ==> !StartsBlank(fmt[1]))
     && Renderable(fmt[1..]))
  }

  /** The field a directive reads, copied from t. */
  function Fill(f: Fields, t: Stamp, d: Directive): Fields {
    match d
    case Year => f.(year := t.year)
    case Month => f.(month := t.month)
    case MonthName => f.(month := t.month)
    case Day => f.(day := t.day)
    case Hour => f.(hour := t.hour)
    case Minute => f.(minute := t.minute)
    case Second => f.(second := t.second)
    case Fraction => f.(micro := t.micro)
    case _ => f
  }

  function FillAll(f: Fields, t: Stamp, fmt: seq<Directive>): Fields
    decreases |fmt|
  {
    if fmt == [] then f else FillAll(Fill(f, t, fmt[0]), t, fmt[1..])
  }

  lemma MonthNameReadsBack(m: int)
    requires 1 <= m <= 12
    ensures |MonthNames[m - 1]| == 3 && IsAsciiLetter(MonthNames[m - 1][0])
    ensures IndexOf(MonthAbbreviations, Lower(MonthNames[m - 1])) == m - 1
  {
    var w := MonthNames[m - 1];
    var l := Lower(w);
    assert l == [LowerChar(w[0]), LowerChar(w[1]), LowerChar(w[2])];
    assert l == MonthAbbreviations[m - 1];
    assert forall k :: 0 <= k < 12 && k != m - 1 ==> MonthAbbreviations[k] != l;
    IndexOfUnique(MonthAbbreviations, l, m - 1);
  }

  lemma {:induction false} IndexOfUnique(names: seq<string>, w: string, k: int)
    requires 0 <= k < |names| && names[k] == w
    requires forall j :: 0 <= j < |names| && j != k ==> names[j] != w
    ensures IndexOf(names, w) == k
  {
    if k < |names| - 1 {
      IndexOfUnique(names[..|names| - 1], w, k);
    }
  }

  /**
   * One directive reads back its own text for t, when the text at i holds
   * that field and the character after it does not extend it.
   */
  lemma StepField(t: Stamp, text: string, i: nat, d: Directive, f: Fields)
    requires ValidStamp(t) && Writable(d)
    requires i + |Field(t, d)| <= |text| && text[i..i + |Field(t, d)|] == Field(t, d)
    requires d == Fraction && i + |Field(t, d)| < |text| ==> !IsDigit(text[i + |Field(t, d)|])
    requires d == Blank && i + |Field(t, d)| < |text| ==> !IsSpace(text[i + |Field(t, d)|])
    ensures Step(text, i, d, f) == Some((i + |Field(t, d)|, Fill(f, t, d)))
  {
    match d
    case Fraction => StepFraction(t, text, i, f);
    case MonthName => StepMonthName(t, text, i, f);
    case Blank => StepBlank(t, text, i, f);
    case Char(_) => StepChar(t, text, i, d, f);
    case _ => StepNumber(t, text, i, d, f);
  }

  /** A zero-padded number in the text reads back as that number. */
  lemma PaddedAt(text: string, i: nat, n: nat, width: nat)
    requires n < Pow10(width) && i + width <= |text| && text[i..i + width] == Pad(n, width)
    ensures DigitsAt(text, i, width) && Number(text, i, width) == n
  {
    forall k | i <= k < i + width
      ensures IsDigit(text[k])
    {
      assert text[k] == text[i..i + width][k - i];
    }
  }

  lemma StepNumber(t: Stamp, text: string, i: nat, d: Directive, f: Fields)
    requires ValidStamp(t) && (d.Year? || d.Month? || d.Day? || d.Hour? || d.Minute? || d.Second?)
    requires i + |Field(t, d)| <= |text| && text[i..i + |Field(t, d)|] == Field(t, d)
    ensures Step(text, i, d, f) == Some((i + |Field(t, d)|, Fill(f, t, d)))
  {
    Pow10Values();
    var n := match d
      case Year => t.year
      case Month => t.month
      case Day => t.day
      case Hour => t.hour
      case Minute => t.minute
      case _ => t.second;
    PaddedAt(text, i, n, if d.Year? then 4 else 2);
  }

  lemma StepFraction(t: Stamp, text: string, i: nat, f: Fields)
    requires ValidStamp(t) && i + 6 <= |text| && (i + 6 < |text| ==> !IsDigit(text[i + 6]))
    requires text[i..i + 6] == Field(t, Fraction)
    ensures Step(text, i, Fraction, f) == Some((i + 6, Fill(f, t, Fraction)))
  {
    Pow10Values();
    PaddedAt(text, i, t.micro, 6);
    assert Run(text, i, i + 6, Digit);
    RunEndUnique(text, i, i + 6, Digit);
  }

  lemma StepMonthName(t: Stamp, text: string, i: nat, f: Fields)
    requires ValidStamp(t) && i + 3 <= |text| && text[i..i + 3] == Field(t, MonthName)
    ensures Step(text, i, MonthName, f) == Some((i + 3, Fill(f, t, MonthName)))
  {
    MonthNameReadsBack(t.month);
  }

  lemma StepBlank(t: Stamp, text: string, i: nat, f: Fields)
    requires i + 1 <= |text| && text[i..i + 1] == " " && (i + 1 < |text| ==> !IsSpace(text[i + 1]))
    ensures Step(text, i, Blank, f) == Some((i + 1, Fill(f, t, Blank)))
  {
    assert text[i] == text[i..i + 1][0] == ' ';
    RunEndUnique(text, i, i + 1, Space);
  }

  lemma StepChar(t: Stamp, text: string, i: nat, d: Directive, f: Fields)
    requires d.Char? && i + 1 <= |text| && text[i..i + 1] == [d.c]
    ensures Step(text, i, d, f) == Some((i + 1, Fill(f, t, d)))
  {
    assert text[i] == text[i..i + 1][0];
  }

  predicate AllWritable(fmt: seq<Directive>) {
    fmt == [] || (Writable(fmt[0]) && AllWritable(fmt[1..]))
  }

  lemma {:induction false} RenderableIsWritable(fmt: seq<Directive>)
    requires Renderable(fmt)
    ensures AllWritable(fmt) && Epoch !in fmt && Offset !in fmt
  {
    if fmt != [] {
      RenderableIsWritable(fmt[1..]);
    }
  }

  /** The first character of a rendering tells the first directive's kind. */
  lemma RenderHead(t: Stamp, fmt: seq<Directive>)
    requires ValidStamp(t) && fmt != [] && AllWritable(fmt)
    ensures |Render(t, fmt)| > 0
    ensures IsDigit(Render(t, fmt)[0]) ==> StartsNumeric(fmt[0])
    ensures IsSpace(Render(t, fmt)[0]) ==> StartsBlank(fmt[0])
  {
    assert Render(t, fmt)[0] == Field(t, fmt[0])[0];
    if fmt[0].MonthName? {
      MonthNameReadsBack(t.month);
    }
  }

  /**
   * A text whose tail from i is t written out in fmt reads back, from i,
   * as the fields of t.
   */
  lemma {:induction false} ScanRender(t: Stamp, text: string, i: nat, fmt: seq<Directive>, f: Fields)
    requires ValidStamp(t) && Renderable(fmt) && AllWritable(fmt)
    requires i <= |text| && text[i..] == Render(t, fmt)
    ensures Scan(text, i, fmt, f) == Some(FillAll(f, t, fmt))
    decreases |fmt|
  {
    if fmt != [] {
      var d := fmt[0];
      var j := i + |Field(t, d)|;
      RenderCons(t, fmt);
      SplitTail(text, i, Field(t, d), Render(t, fmt[1..]));
      NextIsSeparate(t, fmt);
      StepField(t, text, i, d, f);
      ScanCons(text, i, fmt, f);
      ScanRender(t, text, j, fmt[1..], Fill(f, t, d));
    }
  }

  lemma RenderCons(t: Stamp, fmt: seq<Directive>)
    requires ValidStamp(t) && fmt != [] && AllWritable(fmt)
    ensures AllWritable(fmt[1..]) && Render(t, fmt) == Field(t, fmt[0]) + Render(t, fmt[1..])
  {
  }

  /** A tail that is head + rest holds head first and rest after it. */
  lemma SplitTail(text: string, i: nat, head: string, rest: string)
    requires i <= |text| && text[i..] == head + rest
    ensures i + |head| <= |text| && text[i..i + |head|] == head && text[i + |head|..] == rest
    ensures i + |head| < |text| ==> text[i + |head|] == rest[0]
  {
    assert text[i..][..|head|] == head;
    assert text[i..][|head|..] == rest;
  }

  /** In a renderable format, `%f` and a blank are never followed by text that would extend them. */
  lemma NextIsSeparate(t: Stamp, fmt: seq<Directive>)
    requires ValidStamp(t) && Renderable(fmt) && fmt != [] && AllWritable(fmt[1..])
    ensures var rest := Render(t, fmt[1..]);
            (fmt[0] == Fraction && rest != [] ==> !IsDigit(rest[0]))
            && (fmt[0] == Blank && rest != [] ==> !IsSpace(rest[0]))
  {
    if fmt[1..] != [] {
      RenderHead(t, fmt[1..]);
    }
  }

  /** The fields a format does not mention keep their values. */
  lemma FillAllFields(f: Fields, t: Stamp, fmt: seq<Directive>)
    ensures var r := FillAll(f, t, fmt);
            r.year == (if Year in fmt then t.year else f.year)
            && r.month == (if Month in fmt || MonthName in fmt then t.month else f.month)
            && r.day == (if Day in fmt then t.day else f.day)
            && r.hour == (if Hour in fmt then t.hour else f.hour)
            && r.minute == (if Minute in fmt then t.minute else f.minute)
            && r.second == (if Second in fmt then t.second else f.second)
            && r.micro == (if Fraction in fmt then t.micro else f.micro)
            && r.offset == f.offset
  {
    FillAllDate(f, t, fmt);
    FillAllTime(f, t, fmt);
  }

  lemma {:induction false} FillAllDate(f: Fields, t: Stamp, fmt: seq<Directive>)
    ensures var r := FillAll(f, t, fmt);
            r.year == (if Year in fmt then t.year else f.year)
            && r.month == (if Month in fmt || MonthName in fmt then t.month else f.month)
            && r.day == (if Day in fmt then t.day else f.day)
    decreases |fmt|
  {
    if fmt != [] {
      FillAllDate(Fill(f, t, fmt[0]), t, fmt[1..]);
      InHeadOrTail(fmt);
    }
  }

  lemma {:induction false} FillAllTime(f: Fields, t: Stamp, fmt: seq<Directive>)
    ensures var r := FillAll(f, t, fmt);
            r.hour == (if Hour in fmt then t.hour else f.hour)
            && r.minute == (if Minute in fmt then t.minute else f.minute)
            && r.second == (if Second in fmt then t.second else f.second)
            && r.micro == (if Fraction in fmt then t.micro else f.micro)
            && r.offset == f.offset
    decreases |fmt|
  {
    if fmt != [] {
      FillAllTime(Fill(f, t, fmt[0]), t, fmt[1..]);
      InHeadOrTail(fmt);
    }
  }

  lemma InHeadOrTail(fmt: seq<Directive>)
    requires fmt != []
    ensures forall d :: d in fmt <==> d == fmt[0] || d in fmt[1..]
  {
    assert fmt == [fmt[0]] + fmt[1..];
  }

  /** Every field that differs from strptime's default is named in the format. */
  predicate Covers(fmt: seq<Directive>, t: Stamp) {
    (Year in fmt || t.year == 1900) && (Month in fmt || MonthName in fmt || t.month == 1)
    && (Day in fmt || t.day == 1) && (Hour in fmt || t.hour == 0) && (Minute in fmt || t.minute == 0)
    && (Second in fmt || t.second == 0) && (Fraction in fmt || t.micro == 0)
  }

  /** Parsing a stamp written out in a format gives the stamp back. */
  lemma ParseRender(t: Stamp, fmt: seq<Directive>)
    requires ValidStamp(t) && Renderable(fmt) && Covers(fmt, t)
    ensures AllWritable(fmt) && Parse(Render(t, fmt), fmt) == Some(Naive(t))
  {
    RenderableIsWritable(fmt);
    ScanRender(t, Render(t, fmt), 0, fmt, Defaults);
    FillAllFields(Defaults, t, fmt);
  }
}

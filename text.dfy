/**
 * Character classes and small scanners over Python strings, shared by the
 * statement matcher, the path helpers and the date grammars.
 *
 * Python strings are sequences of code points; so is a Dafny `string` here.
 */
module Text {
  import opened Wrappers

  /**
   * Python's `str.isspace()`, which is the set both `str.strip()` and the
   * regular-expression class `\s` use: the ASCII controls 9-13 and 28-31,
   * the space, and the Unicode separators Python counts as whitespace.
   */
  predicate IsSpace(c: char) {
    c == ' ' || ('\t' <= c <= '\r') || ('\U{1C}' <= c <= '\U{1F}')
    || c == '\U{85}' || c == '\U{A0}' || c == '\U{1680}'
    || ('\U{2000}' <= c <= '\U{200A}') || c == '\U{2028}' || c == '\U{2029}'
    || c == '\U{202F}' || c == '\U{205F}' || c == '\U{3000}'
  }

  /** The regular-expression class `[a-zA-Z]`. */
  predicate IsAsciiLetter(c: char) {
    'a' <= c <= 'z' || 'A' <= c <= 'Z'
  }

  /** `\d`, restricted to the ASCII digits. */
  predicate IsDigit(c: char) {
    '0' <= c <= '9'
  }

  /** `\w`, restricted to ASCII: letters, digits and the underscore. */
  predicate IsWordChar(c: char) {
    IsAsciiLetter(c) || IsDigit(c) || c == '_'
  }

  /** The character classes that the scanners below skip runs of. */
  datatype CharClass = Space | Letter | Digit | Word

  predicate InClass(c: char, k: CharClass) {
    match k
    case Space => IsSpace(c)
    case Letter => IsAsciiLetter(c)
    case Digit => IsDigit(c)
    case Word => IsWordChar(c)
  }

  /** s[a..b] consists of characters of class k only. */
  predicate Run(s: string, a: int, b: int, k: CharClass) {
    0 <= a <= b <= |s| && forall i :: a <= i < b ==> InClass(s[i], k)
  }

  /** The end of the longest run of class k that starts at a. */
  function RunEnd(s: string, a: nat, k: CharClass): (e: nat)
    requires a <= |s|
    ensures a <= e <= |s| && Run(s, a, e, k)
    ensures e == |s| || !InClass(s[e], k)
    decreases |s| - a
  {
    if a == |s| || !InClass(s[a], k) then a else RunEnd(s, a + 1, k)
  }

  /** The start of the longest run of class k that ends at b. */
  function RunStart(s: string, b: nat, k: CharClass): (a: nat)
    requires b <= |s|
    ensures a <= b && Run(s, a, b, k)
    ensures a == 0 || !InClass(s[a - 1], k)
  {
    if b == 0 || !InClass(s[b - 1], k) then b else RunStart(s, b - 1, k)
  }

  /** A run of class k that ends at b and has no class-k character before it is the longest one. */
  lemma {:induction false} RunStartUnique(s: string, a: nat, b: nat, k: CharClass)
    requires b <= |s| && Run(s, a, b, k) && (a == 0 || !InClass(s[a - 1], k))
    ensures RunStart(s, b, k) == a
    decreases b
  {
    if b > a {
      RunStartUnique(s, a, b - 1, k);
    }
  }

  /**
   * A run of class k from a that stops at the end of s or before a
   * character outside k is the longest one: a greedy regex quantifier
   * followed by something outside its class can only end there.
   */
  lemma RunEndUnique(s: string, a: nat, e: nat, k: CharClass)
    requires a <= |s|
    requires Run(s, a, e, k) && (e == |s| || !InClass(s[e], k))
    ensures e == RunEnd(s, a, k)
  {
  }

  /** The literal w occurs in s at position p. */
  predicate LitAt(s: string, p: int, w: string) {
    0 <= p && p + |w| <= |s| && MatchesFrom(s, p, w, 0)
  }

  /** w[k..] occurs in s at position p + k (compared one character at a time). */
  predicate MatchesFrom(s: string, p: nat, w: string, k: nat)
    requires p + |w| <= |s|
    decreases |w| - k
  {
    k >= |w| || (s[p + k] == w[k] && MatchesFrom(s, p, w, k + 1))
  }

  lemma {:induction false} MatchesFromSlice(s: string, p: nat, w: string, k: nat)
    requires p + |w| <= |s| && k <= |w|
    ensures MatchesFrom(s, p, w, k) <==> s[p + k..p + |w|] == w[k..]
    decreases |w| - k
  {
    if k < |w| {
      MatchesFromSlice(s, p, w, k + 1);
      assert s[p + k..p + |w|] == [s[p + k]] + s[p + k + 1..p + |w|];
      assert w[k..] == [w[k]] + w[k + 1..];
    }
  }

  /** The occurrence of a literal, as a slice. */
  lemma LitAtSlice(s: string, p: int, w: string)
    ensures LitAt(s, p, w) <==> 0 <= p && p + |w| <= |s| && s[p..p + |w|] == w
  {
    if 0 <= p && p + |w| <= |s| {
      MatchesFromSlice(s, p, w, 0);
    }
  }

  /** The first character of an occurrence of w. */
  lemma LitAtHead(s: string, p: int, w: string)
    requires LitAt(s, p, w) && w != []
    ensures s[p] == w[0]
  {
  }

  /** An occurrence anywhere makes `w in s` hold. */
  lemma ContainsAt(s: string, w: string, p: int)
    requires 0 <= p && LitAt(s, p, w)
    ensures Contains(s, w)
  {
  }

  /** w cannot occur in s when one of its characters never does. */
  lemma NotContainsMissingChar(s: string, w: string, k: int)
    requires 0 <= k < |w| && w[k] !in s
    ensures !Contains(s, w)
  {
    forall q | 0 <= q && q + |w| <= |s|
      ensures !LitAt(s, q, w)
    {
      LitAtSlice(s, q, w);
      assert s[q + k] in s;
      assert s[q..q + |w|][k] != w[k];
    }
  }

  /**
   * w cannot occur in s when its k-th character is missing from every
   * position of s an occurrence could put it at.
   */
  lemma NotContainsMissingIn(s: string, w: string, k: int)
    requires 0 <= k < |w| <= |s| && w[k] !in s[k..|s| - |w| + k + 1]
    ensures !Contains(s, w)
  {
    forall q | 0 <= q && q + |w| <= |s|
      ensures !LitAt(s, q, w)
    {
      LitAtSlice(s, q, w);
      assert s[k..|s| - |w| + k + 1][q] == s[q + k];
      assert s[q..q + |w|][k] != w[k];
    }
  }

  /** The leftmost occurrence of w in s at or after i (Python's `str.find`). */
  function FindFrom(s: string, w: string, i: nat): (r: Option<nat>)
    ensures r.Some? ==> i <= r.value && LitAt(s, r.value, w)
    ensures r.Some? ==> forall q :: i <= q < r.value ==> !LitAt(s, q, w)
    ensures r.None? ==> forall q :: i <= q ==> !LitAt(s, q, w)
    decreases |s| - i
  {
    if i + |w| > |s| then None
    else if LitAt(s, i, w) then Some(i)
    else FindFrom(s, w, i + 1)
  }

  /** Python's `w in s` for strings. */
  predicate Contains(s: string, w: string) {
    FindFrom(s, w, 0).Some?
  }

  /**
   * A closing parenthesis at j, with no character of `excluded` strictly
   * between i and j: what `[^X]*?\)` (or `[^X]*\)`) matches from i.
   */
  ghost predicate ClosesAt(s: string, i: int, j: int, excluded: set<char>) {
    0 <= i <= j < |s| && s[j] == ')' && forall k :: i <= k < j ==> s[k] !in excluded
  }

  /** Scans from i for the first ')' or excluded character; true iff ')' comes first. */
  function Closes(s: string, i: nat, excluded: set<char>): (r: bool)
    requires i <= |s|
    ensures r <==> exists j :: ClosesAt(s, i, j, excluded)
    decreases |s| - i
  {
    if i == |s| then false
    else if s[i] == ')' then assert ClosesAt(s, i, i, excluded); true
    else if s[i] in excluded then false
    else
      var n := i + 1;
      assert forall j :: ClosesAt(s, i, j, excluded) <==> ClosesAt(s, n, j, excluded);
      Closes(s, n, excluded)
  }

  /** The end of s once trailing whitespace is dropped, looking at s[..b]. */
  function TrimEnd(s: string, b: nat): (e: nat)
    requires b <= |s|
    ensures e <= b && Run(s, e, b, Space)
    ensures e == 0 || !IsSpace(s[e - 1])
  {
    if b == 0 || !IsSpace(s[b - 1]) then b else TrimEnd(s, b - 1)
  }

  /** Python's `str.strip()` with no argument. */
  function Strip(s: string): (r: string)
    ensures r == [] <==> Run(s, 0, |s|, Space)
    ensures r != [] ==> exists a, b :: 0 <= a < b <= |s| && r == s[a..b] && Run(s, 0, a, Space)
                                       && Run(s, b, |s|, Space) && !IsSpace(s[a]) && !IsSpace(s[b - 1])
  {
    var a := RunEnd(s, 0, Space);
    if a == |s| then [] else s[a..TrimEnd(s, |s|)]
  }

  /** What is left after stripping starts at the first non-blank character. */
  lemma StripFirst(s: string)
    ensures Strip(s) != [] <==> RunEnd(s, 0, Space) < |s|
    ensures Strip(s) != [] ==> Strip(s)[0] == s[RunEnd(s, 0, Space)]
  {
  }

  /** ASCII lower-casing of one character. */
  function LowerChar(c: char): char {
    if 'A' <= c <= 'Z' then (c as int - 'A' as int + 'a' as int) as char else c
  }

  /** `str.lower()`, restricted to ASCII letters. */
  function Lower(s: string): (r: string)
    ensures |r| == |s| && forall i :: 0 <= i < |s| ==> r[i] == LowerChar(s[i])
  {
    seq(|s|, i requires 0 <= i < |s| => LowerChar(s[i]))
  }
}

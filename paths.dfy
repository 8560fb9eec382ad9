/**
 * Lexical path logic the cleaner relies on, on POSIX: `str.split('/')`,
 * pathlib's parsing of a string into an anchor and parts, `name`,
 * `suffix`, `parent`, `/`, `relative_to`, `os.path.splitext` and
 * `os.path.commonpath`; then the cleaner's own helpers
 * validate_file_type, should_backup_file and get_assets_directory.
 */
module Paths {
  import opened Wrappers
  import opened Text

  /** `LogCleaner.ASSETS_DIR_NAME` */
  const AssetsDirName: string := "lc-cleaned-assets"

  /** The keys of `LogCleaner.SUPPORTED_EXTENSIONS`. */
  const SupportedExtensions: seq<string> := [".js", ".jsx", ".ts", ".tsx", ".py"]

  /*************************************************************************
   * Splitting and joining on '/'
   *************************************************************************/

  /** `s.split('/')`: always at least one piece, none holding a '/'. */
  function Split(s: string): (r: seq<string>)
    ensures |r| >= 1
    ensures forall i :: 0 <= i < |r| ==> '/' !in r[i]
  {
    if s == [] then [""]
    else if s[0] == '/' then [""] + Split(s[1..])
    else
      var t := Split(s[1..]);
      [[s[0]] + t[0]] + t[1..]
  }

  /** `'/'.join(parts)` */
  function JoinParts(parts: seq<string>): string {
    if |parts| == 0 then ""
    else if |parts| == 1 then parts[0]
    else parts[0] + "/" + JoinParts(parts[1..])
  }

  /** Joining the pieces of a split gives the string back. */
  lemma {:induction false} JoinSplit(s: string)
    ensures JoinParts(Split(s)) == s
  {
    if s == [] {
    } else if s[0] == '/' {
      JoinSplit(s[1..]);
      assert Split(s) == [""] + Split(s[1..]);
    } else {
      var t := Split(s[1..]);
      JoinSplit(s[1..]);
      var r := [[s[0]] + t[0]] + t[1..];
      if |t| == 1 {
        assert JoinParts(r) == [s[0]] + t[0];
      } else {
        assert r[1..] == t[1..];
        assert JoinParts(r) == [s[0]] + t[0] + "/" + JoinParts(t[1..]);
        assert JoinParts(t) == t[0] + "/" + JoinParts(t[1..]);
      }
    }
  }

  /** A string without '/' splits into itself. */
  lemma {:induction false} SplitNoSlash(a: string)
    requires '/' !in a
    ensures Split(a) == [a]
  {
    if a != [] {
      assert '/' !in a[1..] by {
        forall k | 0 <= k < |a[1..]| ensures a[1..][k] != '/' {
          assert a[1..][k] == a[k + 1];
        }
      }
      SplitNoSlash(a[1..]);
      assert a == [a[0]] + a[1..];
    }
  }

  /** A '/' after a piece without '/' starts a new piece. */
  lemma {:induction false} SplitAfterPiece(a: string, b: string)
    requires '/' !in a
    ensures Split(a + "/" + b) == [a] + Split(b)
  {
    if a == [] {
      assert a + "/" + b == "/" + b;
      assert ("/" + b)[1..] == b;
    } else {
      var s := a + "/" + b;
      assert s[1..] == a[1..] + "/" + b;
      SplitAfterPiece(a[1..], b);
      assert [s[0]] + a[1..] == a;
    }
  }

  /** Splitting a join of pieces without '/' gives the pieces back. */
  lemma {:induction false} SplitJoin(parts: seq<string>)
    requires |parts| >= 1 && forall i :: 0 <= i < |parts| ==> '/' !in parts[i]
    ensures Split(JoinParts(parts)) == parts
  {
    if |parts| == 1 {
      SplitNoSlash(parts[0]);
    } else {
      SplitJoin(parts[1..]);
      SplitAfterPiece(parts[0], JoinParts(parts[1..]));
    }
  }

  /** Text without '/' appended to s only extends the last piece of s. */
  lemma {:induction false} SplitAppendTail(a: string, b: string)
    requires '/' !in b
    ensures var sa := Split(a);
            Split(a + b) == sa[..|sa| - 1] + [sa[|sa| - 1] + b]
  {
    if a == [] {
      SplitNoSlash(b);
      assert a + b == b;
    } else {
      assert (a + b)[1..] == a[1..] + b;
      assert (a + b)[0] == a[0];
      SplitAppendTail(a[1..], b);
      if a[0] == '/' {
        assert Split(a) == [""] + Split(a[1..]);
      } else {
        SplitAppendTailStep(a, b);
      }
    }
  }

  /** The inductive step of SplitAppendTail when a starts with a character other than '/'. */
  lemma SplitAppendTailStep(a: string, b: string)
    requires a != [] && a[0] != '/'
    requires var t := Split(a[1..]);
             Split(a[1..] + b) == t[..|t| - 1] + [t[|t| - 1] + b]
    ensures var sa := Split(a);
            Split(a + b) == sa[..|sa| - 1] + [sa[|sa| - 1] + b]
  {
    var t, u := Split(a[1..]), Split(a[1..] + b);
    assert (a + b)[1..] == a[1..] + b;
    assert (a + b)[0] == a[0];
    assert Split(a + b) == [[a[0]] + u[0]] + u[1..];
    assert Split(a) == [[a[0]] + t[0]] + t[1..];
    TailAssembly(a[0], t, u, b);
  }

  /** Extending the last piece commutes with gluing a character onto the first. */
  lemma TailAssembly(c: char, t: seq<string>, u: seq<string>, b: string)
    requires |t| >= 1 && u == t[..|t| - 1] + [t[|t| - 1] + b]
    ensures var sa := [[c] + t[0]] + t[1..];
            [[c] + u[0]] + u[1..] == sa[..|sa| - 1] + [sa[|sa| - 1] + b]
  {
    var n := |t| - 1;
    var sa := [[c] + t[0]] + t[1..];
    if n == 0 {
      assert [c] + (t[0] + b) == ([c] + t[0]) + b;
    } else {
      assert u[0] == t[0];
      assert u[1..] == t[1..n] + [t[n] + b];
      assert sa[..|sa| - 1] == [[c] + t[0]] + t[1..n];
    }
  }

  /*************************************************************************
   * Pure paths
   *************************************************************************/

  /** A path part as pathlib keeps it: not empty, not ".", no '/'. */
  predicate ValidPart(x: string) {
    x != "" && x != "." && '/' !in x
  }

  /** `[c for c in pieces if c and c != '.']` */
  function Clean(pieces: seq<string>): (r: seq<string>)
    ensures forall i :: 0 <= i < |r| ==> r[i] in pieces && r[i] != "" && r[i] != "."
  {
    if pieces == [] then []
    else if pieces[0] == "" || pieces[0] == "." then Clean(pieces[1..])
    else [pieces[0]] + Clean(pieces[1..])
  }

  /** The parts pathlib and commonpath read out of a string. */
  function Components(s: string): (r: seq<string>)
    ensures forall i :: 0 <= i < |r| ==> ValidPart(r[i])
  {
    var pieces := Split(s);
    var r := Clean(pieces);
    forall i | 0 <= i < |r| ensures '/' !in r[i] {
      var j :| 0 <= j < |pieces| && pieces[j] == r[i];
    }
    r
  }

  /** Clean changes nothing in a list of valid parts. */
  lemma {:induction false} CleanValid(parts: seq<string>)
    requires forall i :: 0 <= i < |parts| ==> ValidPart(parts[i])
    ensures Clean(parts) == parts
  {
    if parts != [] {
      CleanValid(parts[1..]);
    }
  }

  /** Clean distributes over concatenation. */
  lemma {:induction false} CleanAppend(a: seq<string>, b: seq<string>)
    ensures Clean(a + b) == Clean(a) + Clean(b)
  {
    if a != [] {
      assert (a + b)[0] == a[0];
      assert (a + b)[1..] == a[1..] + b;
      CleanAppend(a[1..], b);
      if a[0] != "" && a[0] != "." {
        assert Clean(a + b) == [a[0]] + (Clean(a[1..]) + Clean(b));
      }
    } else {
      assert a + b == b;
    }
  }

  /**
   * A POSIX pure path: its anchor ("" for a relative path, "/", or "//",
   * which POSIX lets an implementation treat specially) and its parts.
   */
  datatype PurePath = PurePath(root: string, parts: seq<string>)

  predicate Wf(p: PurePath) {
    (p.root == "" || p.root == "/" || p.root == "//") &&
    forall i :: 0 <= i < |p.parts| ==> ValidPart(p.parts[i])
  }

  /** The anchor of s: exactly two leading slashes are kept, one or three and more become one. */
  function RootOf(s: string): string {
    if s == [] || s[0] != '/' then ""
    else if |s| >= 2 && s[1] == '/' && (|s| == 2 || s[2] != '/') then "//"
    else "/"
  }

  /** `PurePosixPath(s)` */
  function Parse(s: string): (p: PurePath)
    ensures Wf(p)
  {
    PurePath(RootOf(s), Components(s))
  }

  /** `str(p)` */
  function Str(p: PurePath): string {
    if p.root == "" && p.parts == [] then "." else p.root + JoinParts(p.parts)
  }

  /** A leading '/' adds no part. */
  lemma ComponentsAfterSlash(x: string)
    ensures Components("/" + x) == Components(x)
  {
    assert ("/" + x)[1..] == x;
    assert Split("/" + x) == [""] + Split(x);
    CleanAppend([""], Split(x));
  }

  /** The parts of a join of valid parts are those parts. */
  lemma ComponentsOfJoin(parts: seq<string>)
    requires forall i :: 0 <= i < |parts| ==> ValidPart(parts[i])
    ensures Components(JoinParts(parts)) == parts
  {
    if parts == [] {
      assert Split("") == [""];
    } else {
      SplitJoin(parts);
      CleanValid(parts);
    }
  }

  /** A join of valid parts starts with the first part's first character. */
  lemma JoinHead(parts: seq<string>)
    requires |parts| >= 1 && ValidPart(parts[0])
    ensures |JoinParts(parts)| >= 1 && JoinParts(parts)[0] == parts[0][0]
  {
    if |parts| > 1 {
      assert JoinParts(parts) == parts[0] + ("/" + JoinParts(parts[1..]));
    }
  }

  /** Printing a path and parsing it again gives the same path. */
  lemma ParseStr(p: PurePath)
    requires Wf(p)
    ensures Parse(Str(p)) == p
  {
    ComponentsOfJoin(p.parts);
    JoinNoLeadingSlash(p.parts);
    if p.root == "" {
      ParseStrRelative(p);
    } else if p.root == "/" {
      ParseStrRooted(p);
    } else {
      ParseStrDoubleRooted(p);
    }
  }

  /** A join of valid parts does not start with '/'. */
  lemma JoinNoLeadingSlash(parts: seq<string>)
    requires forall i :: 0 <= i < |parts| ==> ValidPart(parts[i])
    ensures JoinParts(parts) == [] || JoinParts(parts)[0] != '/'
  {
    if parts != [] {
      JoinHead(parts);
      assert parts[0][0] in parts[0];
    }
  }

  lemma ParseStrRelative(p: PurePath)
    requires Wf(p) && p.root == ""
    requires Components(JoinParts(p.parts)) == p.parts
    requires JoinParts(p.parts) == [] || JoinParts(p.parts)[0] != '/'
    ensures Parse(Str(p)) == p
  {
    if p.parts == [] {
      SplitNoSlash(".");
      assert Clean(["."]) == Clean([]);
      assert Components(".") == [];
    } else {
      JoinHead(p.parts);
      assert Str(p) == JoinParts(p.parts);
    }
  }

  lemma ParseStrRooted(p: PurePath)
    requires Wf(p) && p.root == "/"
    requires Components(JoinParts(p.parts)) == p.parts
    requires JoinParts(p.parts) == [] || JoinParts(p.parts)[0] != '/'
    ensures Parse(Str(p)) == p
  {
    var j := JoinParts(p.parts);
    ComponentsAfterSlash(j);
    assert Str(p) == "/" + j;
    assert RootOf("/" + j) == "/";
  }

  lemma ParseStrDoubleRooted(p: PurePath)
    requires Wf(p) && p.root == "//"
    requires Components(JoinParts(p.parts)) == p.parts
    requires JoinParts(p.parts) == [] || JoinParts(p.parts)[0] != '/'
    ensures Parse(Str(p)) == p
  {
    var j := JoinParts(p.parts);
    ComponentsAfterSlash(j);
    ComponentsAfterSlash("/" + j);
    assert Str(p) == "/" + ("/" + j);
    assert RootOf("/" + ("/" + j)) == "//";
  }

  /** `p.name` */
  function Name(p: PurePath): string {
    if p.parts == [] then "" else p.parts[|p.parts| - 1]
  }

  /** `p.parent` (the parent of an anchor is itself). */
  function Parent(p: PurePath): (r: PurePath)
    ensures Wf(p) ==> Wf(r)
  {
    if p.parts == [] then p else PurePath(p.root, p.parts[..|p.parts| - 1])
  }

  /** `p / name` for a single valid part. */
  function Child(p: PurePath, name: string): (r: PurePath)
    requires ValidPart(name)
    ensures Wf(p) ==> Wf(r)
  {
    PurePath(p.root, p.parts + [name])
  }

  /** `p.is_relative_to(base)`, which is when `p.relative_to(base)` does not raise. */
  predicate IsRelativeTo(p: PurePath, base: PurePath) {
    p.root == base.root && |base.parts| <= |p.parts| && p.parts[..|base.parts|] == base.parts
  }

  /** The last index of c in s, or -1 (`str.rfind`). */
  function RFind(s: string, c: char): (r: int)
    ensures -1 <= r < |s|
    ensures r >= 0 ==> s[r] == c
    ensures forall k :: r < k < |s| ==> s[k] != c
  {
    if s == [] then -1
    else if s[|s| - 1] == c then |s| - 1
    else RFind(s[..|s| - 1], c)
  }

  lemma RFindUnique(s: string, c: char, r: int)
    requires -1 <= r < |s| && (r >= 0 ==> s[r] == c)
    requires forall k :: r < k < |s| ==> s[k] != c
    ensures RFind(s, c) == r
  {
  }

  /** `PurePath.suffix` of a name: from its last dot, unless that dot leads or ends it. */
  function Suffix(name: string): string {
    var i := RFind(name, '.');
    if 0 < i < |name| - 1 then name[i..] else ""
  }

  /**
   * `os.path.splitext(path)[1]`: from the last dot of the last component,
   * provided a character other than '.' comes before it in that component.
   */
  function SplitExt(s: string): (r: string)
    ensures r == "" || (r[0] == '.' && |r| <= |s| && s[|s| - |r|..] == r && '.' !in r[1..] && '/' !in r)
  {
    var sep := RFind(s, '/');
    var dot := RFind(s, '.');
    if dot > sep && exists k :: sep < k < dot && s[k] != '.' then s[dot..] else ""
  }

  /*************************************************************************
   * The cleaner's path helpers
   *************************************************************************/

  /** `LogCleaner.validate_file_type(file_path)` */
  predicate ValidateFileType(filePath: string)
    ensures ValidateFileType(filePath) ==> Suffix(Name(Parse(filePath))) != ""
  {
    Lower(Suffix(Name(Parse(filePath)))) in SupportedExtensions
  }

  /** `LogCleaner.should_backup_file(file_path)` with `assets_dir` passed in. */
  predicate ShouldBackupFile(assetsDir: Option<PurePath>, filePath: PurePath) {
    assetsDir.None? || !IsRelativeTo(filePath, assetsDir.value)
  }

  lemma AssetsDirNameValid()
    ensures ValidPart(AssetsDirName)
  {
  }

  /** What the user chose to clean: one directory, or a list of files. */
  datatype Source = Directory(dir: PurePath) | FileList(files: seq<PurePath>)

  /**
   * A path as `Path.resolve()` returns it on POSIX: absolute with a single
   * '/' anchor (realpath folds "//" into "/").
   */
  predicate Resolved(p: PurePath) {
    Wf(p) && p.root == "/"
  }

  /**
   * `LogCleaner.get_assets_directory(source_path)`, over paths already
   * resolved; None where `os.path.commonpath` raises ValueError.
   */
  function GetAssetsDirectory(source: Source): Option<PurePath> {
    AssetsDirNameValid();
    match source
    case Directory(d) => Some(Child(d, AssetsDirName))
    case FileList(fs) =>
      match CommonPath(seq(|fs|, i requires 0 <= i < |fs| => Str(Parent(fs[i]))))
      case None => None
      case Some(c) => Some(Child(Parse(c), AssetsDirName))
  }

  /*************************************************************************
   * os.path.commonpath
   *************************************************************************/

  /** Python's `<` on str: code point by code point, a proper prefix first. */
  predicate StrLess(a: string, b: string) {
    if a == [] then b != []
    else b != [] && (a[0] < b[0] || (a[0] == b[0] && StrLess(a[1..], b[1..])))
  }

  /** Python's `<` on lists of str. */
  predicate PartsLess(a: seq<string>, b: seq<string>) {
    if a == [] then b != []
    else b != [] && (StrLess(a[0], b[0]) || (a[0] == b[0] && PartsLess(a[1..], b[1..])))
  }

  /** `min(xs)`: the first item is kept unless a later one is smaller. */
  function MinOf(xs: seq<seq<string>>): seq<string>
    requires xs != []
  {
    if |xs| == 1 then xs[0]
    else
      var m := MinOf(xs[..|xs| - 1]);
      if PartsLess(xs[|xs| - 1], m) then xs[|xs| - 1] else m
  }

  /** `max(xs)`: the first item is kept unless a later one is larger. */
  function MaxOf(xs: seq<seq<string>>): seq<string>
    requires xs != []
  {
    if |xs| == 1 then xs[0]
    else
      var m := MaxOf(xs[..|xs| - 1]);
      if PartsLess(m, xs[|xs| - 1]) then xs[|xs| - 1] else m
  }

  /** The parts s1 and s2 share from the start, as commonpath's loop finds them. */
  function CommonPrefix(a: seq<string>, b: seq<string>): seq<string> {
    if a == [] || b == [] || a[0] != b[0] then []
    else [a[0]] + CommonPrefix(a[1..], b[1..])
  }

  /** `os.path.commonpath(paths)` on POSIX; None where it raises ValueError. */
  function CommonPath(paths: seq<string>): Option<string> {
    if paths == [] then None
    else if exists i :: 0 <= i < |paths| && IsAbs(paths[i]) != IsAbs(paths[0]) then None
    else
      var split := seq(|paths|, i requires 0 <= i < |paths| => Components(paths[i]));
      var common := CommonPrefix(MinOf(split), MaxOf(split));
      Some((if IsAbs(paths[0]) then "/" else "") + JoinParts(common))
  }

  predicate IsAbs(s: string) {
    s != [] && s[0] == '/'
  }

  predicate IsPrefix(c: seq<string>, x: seq<string>) {
    |c| <= |x| && x[..|c|] == c
  }

  /** c is a prefix of every list in xs. */
  predicate PrefixOfAll(c: seq<string>, xs: seq<seq<string>>) {
    forall i :: 0 <= i < |xs| ==> IsPrefix(c, xs[i])
  }

  /** c is the longest list that is a prefix of every list in xs. */
  ghost predicate LongestCommonPrefix(c: seq<string>, xs: seq<seq<string>>) {
    PrefixOfAll(c, xs) && forall d :: PrefixOfAll(d, xs) ==> IsPrefix(d, c)
  }

  lemma {:induction false} StrLessIrreflexive(a: string)
    ensures !StrLess(a, a)
  {
    if a != [] {
      StrLessIrreflexive(a[1..]);
    }
  }

  lemma {:induction false} StrLessTotal(a: string, b: string)
    requires a != b
    ensures StrLess(a, b) || StrLess(b, a)
  {
    if a != [] && b != [] && a[0] == b[0] {
      assert a[1..] != b[1..] by {
        assert a == [a[0]] + a[1..] && b == [b[0]] + b[1..];
      }
      StrLessTotal(a[1..], b[1..]);
    }
  }

  lemma {:induction false} StrLessTransitive(a: string, b: string, c: string)
    requires StrLess(a, b) && StrLess(b, c)
    ensures StrLess(a, c)
  {
    if a != [] && a[0] == b[0] && b[0] == c[0] {
      StrLessTransitive(a[1..], b[1..], c[1..]);
    }
  }

  lemma {:induction false} StrLessAsymmetric(a: string, b: string)
    requires StrLess(a, b)
    ensures !StrLess(b, a)
  {
    if a != [] && a[0] == b[0] {
      StrLessAsymmetric(a[1..], b[1..]);
    }
  }

  lemma {:induction false} PartsLessTransitive(a: seq<string>, b: seq<string>, c: seq<string>)
    requires PartsLess(a, b) && PartsLess(b, c)
    ensures PartsLess(a, c)
  {
    if a != [] {
      if StrLess(a[0], b[0]) && StrLess(b[0], c[0]) {
        StrLessTransitive(a[0], b[0], c[0]);
      } else if a[0] == b[0] && b[0] == c[0] {
        PartsLessTransitive(a[1..], b[1..], c[1..]);
      }
    }
  }

  /** MinOf is an item no item is smaller than. */
  lemma {:induction false} MinOfLeast(xs: seq<seq<string>>)
    requires xs != []
    ensures MinOf(xs) in xs
    ensures forall i :: 0 <= i < |xs| ==> !PartsLess(xs[i], MinOf(xs))
  {
    if |xs| == 1 {
      PartsLessIrreflexive(xs[0]);
    } else {
      var init := xs[..|xs| - 1];
      MinOfLeast(init);
      var m := MinOf(init);
      var x := xs[|xs| - 1];
      assert MinOf(xs) == (if PartsLess(x, m) then x else m);
      if PartsLess(x, m) {
        forall i | 0 <= i < |xs| ensures !PartsLess(xs[i], x) {
          if i < |xs| - 1 && PartsLess(xs[i], x) {
            assert xs[i] == init[i];
            PartsLessTransitive(xs[i], x, m);
          }
          if i == |xs| - 1 {
            PartsLessIrreflexive(x);
          }
        }
      } else {
        forall i | 0 <= i < |xs| ensures !PartsLess(xs[i], m) {
          if i < |xs| - 1 {
            assert xs[i] == init[i];
          }
        }
      }
    }
  }

  /** MaxOf is an item no item is larger than. */
  lemma {:induction false} MaxOfGreatest(xs: seq<seq<string>>)
    requires xs != []
    ensures MaxOf(xs) in xs
    ensures forall i :: 0 <= i < |xs| ==> !PartsLess(MaxOf(xs), xs[i])
  {
    if |xs| == 1 {
      PartsLessIrreflexive(xs[0]);
    } else {
      var init := xs[..|xs| - 1];
      MaxOfGreatest(init);
      var m := MaxOf(init);
      var x := xs[|xs| - 1];
      assert MaxOf(xs) == (if PartsLess(m, x) then x else m);
      if PartsLess(m, x) {
        forall i | 0 <= i < |xs| ensures !PartsLess(x, xs[i]) {
          if i < |xs| - 1 && PartsLess(x, xs[i]) {
            assert xs[i] == init[i];
            PartsLessTransitive(m, x, xs[i]);
          }
          if i == |xs| - 1 {
            PartsLessIrreflexive(x);
          }
        }
      } else {
        forall i | 0 <= i < |xs| ensures !PartsLess(m, xs[i]) {
          if i < |xs| - 1 {
            assert xs[i] == init[i];
          }
        }
      }
    }
  }

  lemma {:induction false} PartsLessIrreflexive(a: seq<string>)
    ensures !PartsLess(a, a)
  {
    if a != [] {
      StrLessIrreflexive(a[0]);
      PartsLessIrreflexive(a[1..]);
    }
  }

  /**
   * Whatever lies between lo and hi in the order starts with the parts lo
   * and hi share.
   */
  lemma {:induction false} BetweenSharesPrefix(lo: seq<string>, x: seq<string>, hi: seq<string>)
    requires !PartsLess(x, lo) && !PartsLess(hi, x)
    ensures IsPrefix(CommonPrefix(lo, hi), x)
  {
    if lo != [] && hi != [] && lo[0] == hi[0] {
      assert x != [];
      if x[0] != lo[0] {
        StrLessTotal(x[0], lo[0]);
      }
      BetweenSharesPrefix(lo[1..], x[1..], hi[1..]);
      assert x == [x[0]] + x[1..];
    }
  }

  /** CommonPrefix(a, b) is the longest common prefix of a and b. */
  lemma {:induction false} CommonPrefixLongest(a: seq<string>, b: seq<string>, d: seq<string>)
    requires IsPrefix(d, a) && IsPrefix(d, b)
    ensures IsPrefix(d, CommonPrefix(a, b)) && IsPrefix(CommonPrefix(a, b), a) && IsPrefix(CommonPrefix(a, b), b)
  {
    if a != [] && b != [] && a[0] == b[0] {
      if d != [] {
        assert d[0] == a[0];
        assert d[1..] == a[1..][..|d| - 1];
        CommonPrefixLongest(a[1..], b[1..], d[1..]);
        assert d == [d[0]] + d[1..];
      } else {
        CommonPrefixLongest(a[1..], b[1..], []);
      }
      assert a == [a[0]] + a[1..] && b == [b[0]] + b[1..];
    } else if d != [] {
      assert a[0] == d[0] == b[0];
    }
  }

  /**
   * Python's min/max shortcut in commonpath is sound: the common prefix
   * of the smallest and the largest list is the longest prefix common to
   * all of them.
   */
  lemma MinMaxCommonPrefix(xs: seq<seq<string>>)
    requires xs != []
    ensures LongestCommonPrefix(CommonPrefix(MinOf(xs), MaxOf(xs)), xs)
  {
    var lo, hi := MinOf(xs), MaxOf(xs);
    MinOfLeast(xs);
    MaxOfGreatest(xs);
    var c := CommonPrefix(lo, hi);
    forall i | 0 <= i < |xs| ensures IsPrefix(c, xs[i]) {
      BetweenSharesPrefix(lo, xs[i], hi);
    }
    forall d | PrefixOfAll(d, xs) ensures IsPrefix(d, c) {
      var a :| 0 <= a < |xs| && xs[a] == lo;
      var b :| 0 <= b < |xs| && xs[b] == hi;
      CommonPrefixLongest(lo, hi, d);
    }
  }

  /**
   * commonpath of paths of one kind is the anchor followed by the longest
   * run of parts every path starts with; it raises on an empty list and on
   * a mix of absolute and relative paths.
   */
  lemma CommonPathMeaning(paths: seq<string>)
    ensures CommonPath(paths).None? <==>
              paths == [] || exists i :: 0 <= i < |paths| && IsAbs(paths[i]) != IsAbs(paths[0])
    ensures CommonPath(paths).Some? ==>
              exists c :: LongestCommonPrefix(c, seq(|paths|, i requires 0 <= i < |paths| => Components(paths[i])))
                          && CommonPath(paths).value == (if IsAbs(paths[0]) then "/" else "") + JoinParts(c)
  {
    if CommonPath(paths).Some? {
      var split := seq(|paths|, i requires 0 <= i < |paths| => Components(paths[i]));
      MinMaxCommonPrefix(split);
    }
  }
}

module PathProperties {
  import opened Wrappers
  import opened Text
  import opened Paths

  /** The last piece of a split ends with the string's last character, unless that is a '/'. */
  lemma SplitLastPiece(a: string)
    requires a != [] && a[|a| - 1] != '/'
    ensures var sa := Split(a);
            var w := sa[|sa| - 1];
            w != [] && w[|w| - 1] == a[|a| - 1]
  {
    var a', c := a[..|a| - 1], a[|a| - 1];
    assert a == a' + [c];
    SplitAppendTail(a', [c]);
  }

  /** An extension: a dot, then at least one character that is neither '.' nor '/'. */
  predicate PlainExtension(ext: string) {
    |ext| >= 2 && ext[0] == '.' && forall k :: 0 <= k < |ext| ==> ext[k] != '/' && (k > 0 ==> ext[k] != '.')
  }

  /**
   * For a file name that is a stem (ending in neither '/' nor '.') followed
   * by an extension, pathlib's suffix and os.path.splitext agree: both are
   * that extension, in the case it is written in.
   */
  lemma ExtensionOfPlainName(stem: string, ext: string)
    requires stem != [] && stem[|stem| - 1] != '/' && stem[|stem| - 1] != '.'
    requires PlainExtension(ext)
    ensures Suffix(Name(Parse(stem + ext))) == ext
    ensures SplitExt(stem + ext) == ext
  {
    var w := NameOfPlainName(stem, ext);
    RFindUnique(w + ext, '.', |w|);
    assert (w + ext)[|w|..] == ext;
    SplitExtOfPlainName(stem, ext);
  }

  /** The name of stem + ext is the stem's last component followed by ext. */
  lemma NameOfPlainName(stem: string, ext: string) returns (w: string)
    requires stem != [] && stem[|stem| - 1] != '/'
    requires PlainExtension(ext)
    ensures w != [] && '/' !in w && Name(Parse(stem + ext)) == w + ext
  {
    assert '/' !in ext by {
      forall k | 0 <= k < |ext| ensures ext[k] != '/' { }
    }
    SplitAppendTail(stem, ext);
    SplitLastPiece(stem);
    var sa := Split(stem);
    w := sa[|sa| - 1];
    var y := w + ext;
    assert '/' !in y by {
      assert '/' !in w;
      forall k | 0 <= k < |y| ensures y[k] != '/' {
        if k < |w| { assert y[k] == w[k]; } else { assert y[k] == ext[k - |w|]; }
      }
    }
    assert ValidPart(y) by {
      assert |y| >= 3;
    }
    CleanAppend(sa[..|sa| - 1], [y]);
    assert Clean([y]) == [y] by {
      assert Clean([y][1..]) == [];
    }
  }

  lemma SplitExtOfPlainName(stem: string, ext: string)
    requires stem != [] && stem[|stem| - 1] != '/' && stem[|stem| - 1] != '.'
    requires PlainExtension(ext)
    ensures SplitExt(stem + ext) == ext
  {
    var s := stem + ext;
    assert forall k :: |stem| <= k < |s| ==> s[k] == ext[k - |stem|];
    RFindUnique(s, '.', |stem|);
    var sep := RFind(s, '/');
    assert sep < |stem| - 1;
    assert s[|stem| - 1] != '.';
    assert s[|stem|..] == ext;
  }

  /** Lower leaves '.' and '/' where they are and makes no new ones. */
  lemma LowerKeepsPunctuation(ext: string)
    ensures PlainExtension(Lower(ext)) <==> PlainExtension(ext)
  {
  }

  /**
   * validate_file_type accepts a plainly named file exactly when its
   * extension, lowercased, is one of the five.
   */
  lemma ValidateFileTypeOfPlainName(stem: string, ext: string)
    requires stem != [] && stem[|stem| - 1] != '/' && stem[|stem| - 1] != '.'
    requires PlainExtension(ext)
    ensures ValidateFileType(stem + ext) <==> Lower(ext) in SupportedExtensions
  {
    ExtensionOfPlainName(stem, ext);
  }

  /** validate_file_type is false for a name with no dot at all. */
  lemma NoDotNoType(filePath: string)
    requires '.' !in filePath
    ensures !ValidateFileType(filePath)
  {
    var n := Name(Parse(filePath));
    assert '.' !in n by {
      if n != "" {
        assert n in Clean(Split(filePath));
        JoinSplit(filePath);
        PieceInJoin(Split(filePath), n);
      }
    }
    assert RFind(n, '.') == -1;
  }

  /** Every piece of a split appears inside the original string. */
  lemma PieceInJoin(pieces: seq<string>, n: string)
    requires n in pieces
    ensures forall k :: 0 <= k < |n| ==> n[k] in JoinParts(pieces)
  {
    var i :| 0 <= i < |pieces| && pieces[i] == n;
    PieceCharsInJoin(pieces, i);
  }

  lemma {:induction false} PieceCharsInJoin(pieces: seq<string>, i: int)
    requires 0 <= i < |pieces|
    ensures forall k :: 0 <= k < |pieces[i]| ==> pieces[i][k] in JoinParts(pieces)
  {
    if |pieces| > 1 {
      var rest := JoinParts(pieces[1..]);
      assert JoinParts(pieces) == pieces[0] + "/" + rest;
      if i == 0 {
        forall k | 0 <= k < |pieces[0]| ensures pieces[0][k] in JoinParts(pieces) {
          assert JoinParts(pieces)[k] == pieces[0][k];
        }
      } else {
        PieceCharsInJoin(pieces[1..], i - 1);
        forall k | 0 <= k < |pieces[i]| ensures pieces[i][k] in JoinParts(pieces) {
          var c := pieces[i][k];
          assert c in rest;
          var m :| 0 <= m < |rest| && rest[m] == c;
          assert JoinParts(pieces)[|pieces[0]| + 1 + m] == c;
        }
      }
    }
  }

  /** should_backup_file is false exactly for the assets directory and what lies below it. */
  lemma ShouldBackupFileMeaning(assets: PurePath, f: PurePath)
    ensures !ShouldBackupFile(Some(assets), f) <==> exists rest :: f == PurePath(assets.root, assets.parts + rest)
    ensures ShouldBackupFile(None, f)
  {
    if !ShouldBackupFile(Some(assets), f) {
      var rest := f.parts[|assets.parts|..];
      assert f.parts == assets.parts + rest;
    }
    if rest :| f == PurePath(assets.root, assets.parts + rest) {
      assert f.parts[..|assets.parts|] == assets.parts;
    }
  }

  /**
   * Cleaning a directory: a file under it is backed up unless its path
   * continues into the lc-cleaned-assets folder directly under that directory.
   */
  lemma DirectoryModeBackup(d: PurePath, f: PurePath)
    requires IsRelativeTo(f, d)
    ensures GetAssetsDirectory(Directory(d)).Some?
    ensures ShouldBackupFile(GetAssetsDirectory(Directory(d)), f) <==>
              !(|f.parts| > |d.parts| && f.parts[|d.parts|] == AssetsDirName)
  {
    var a := GetAssetsDirectory(Directory(d)).value;
    assert a.parts == d.parts + [AssetsDirName];
    if |f.parts| > |d.parts| && f.parts[|d.parts|] == AssetsDirName {
      assert f.parts[..|a.parts|] == f.parts[..|d.parts|] + [f.parts[|d.parts|]];
    }
    if IsRelativeTo(f, a) {
      assert f.parts[|d.parts|] == a.parts[|d.parts|];
    }
  }

  /** The parts of the parents of fs. */
  function ParentParts(fs: seq<PurePath>): (r: seq<seq<string>>)
    ensures |r| == |fs|
  {
    seq(|fs|, i requires 0 <= i < |fs| => Parent(fs[i]).parts)
  }

  /**
   * Cleaning a list of resolved files: commonpath raises only on an empty
   * list; otherwise the assets folder sits in the deepest directory that
   * holds every file's parent.
   */
  lemma FileListModeAssets(fs: seq<PurePath>)
    requires forall i :: 0 <= i < |fs| ==> Resolved(fs[i])
    ensures GetAssetsDirectory(FileList(fs)).None? <==> fs == []
    ensures fs != [] ==>
              exists c :: LongestCommonPrefix(c, ParentParts(fs)) &&
                          GetAssetsDirectory(FileList(fs)) == Some(PurePath("/", c + [AssetsDirName]))
  {
    var strs := seq(|fs|, i requires 0 <= i < |fs| => Str(Parent(fs[i])));
    forall i | 0 <= i < |fs|
      ensures IsAbs(strs[i]) && Components(strs[i]) == ParentParts(fs)[i]
    {
      var q := Parent(fs[i]);
      ParseStr(q);
      assert Str(q) == "/" + JoinParts(q.parts);
    }
    CommonPathMeaning(strs);
    if fs != [] {
      assert !exists i :: 0 <= i < |strs| && IsAbs(strs[i]) != IsAbs(strs[0]);
      var split := seq(|strs|, i requires 0 <= i < |strs| => Components(strs[i]));
      assert split == ParentParts(fs);
      var c :| LongestCommonPrefix(c, split) && CommonPath(strs).value == "/" + JoinParts(c);
      var q := PurePath("/", c);
      assert Wf(q) by {
        assert IsPrefix(c, split[0]);
        forall k | 0 <= k < |c| ensures ValidPart(c[k]) {
          assert c[k] == split[0][k];
        }
      }
      ParseStr(q);
      assert Str(q) == "/" + JoinParts(c);
      assert GetAssetsDirectory(FileList(fs)) == Some(PurePath("/", c + [AssetsDirName]));
    }
  }

  /** Files that share one parent directory get their assets folder inside it. */
  lemma SharedParentAssets(fs: seq<PurePath>, d: PurePath)
    requires fs != [] && forall i :: 0 <= i < |fs| ==> Resolved(fs[i]) && Parent(fs[i]) == d
    ensures GetAssetsDirectory(FileList(fs)) == Some(Child(d, AssetsDirName))
  {
    FileListModeAssets(fs);
    var c :| LongestCommonPrefix(c, ParentParts(fs)) &&
             GetAssetsDirectory(FileList(fs)) == Some(PurePath("/", c + [AssetsDirName]));
    assert PrefixOfAll(d.parts, ParentParts(fs));
    assert IsPrefix(d.parts, c);
    assert IsPrefix(c, ParentParts(fs)[0]);
    assert c == d.parts;
    assert d.root == "/" by {
      assert Parent(fs[0]).root == fs[0].root;
    }
  }

  /** The five supported extensions are plain and already lowercase. */
  lemma SupportedExtensionsShape()
    ensures forall e :: e in SupportedExtensions ==> PlainExtension(e) && Lower(e) == e
  {
    assert Lower(".js") == ".js";
    assert Lower(".jsx") == ".jsx";
    assert Lower(".ts") == ".ts";
    assert Lower(".tsx") == ".tsx";
    assert Lower(".py") == ".py";
  }

  lemma Accepted(s: string, stem: string, ext: string)
    requires s == stem + ext
    requires stem != [] && stem[|stem| - 1] != '/' && stem[|stem| - 1] != '.'
    requires ext in SupportedExtensions
    ensures ValidateFileType(s)
  {
    SupportedExtensionsShape();
    ValidateFileTypeOfPlainName(stem, ext);
  }

  lemma Rejected(s: string, stem: string, ext: string)
    requires s == stem + ext
    requires stem != [] && stem[|stem| - 1] != '/' && stem[|stem| - 1] != '.'
    requires PlainExtension(ext) && Lower(ext) == ext && ext !in SupportedExtensions
    ensures !ValidateFileType(s)
  {
    ValidateFileTypeOfPlainName(stem, ext);
  }

  // Names from the cleaner's validate_file_type test.

  lemma AcceptsTestJs()
    ensures ValidateFileType("test.js")
  {
    Accepted("test.js", "test", ".js");
  }

  lemma AcceptsTestTsx()
    ensures ValidateFileType("test.tsx")
  {
    Accepted("test.tsx", "test", ".tsx");
  }

  lemma AcceptsAbsoluteJs()
    ensures ValidateFileType("/path/to/test.js")
  {
    Accepted("/path/to/test.js", "/path/to/test", ".js");
  }

  /** Backslashes are ordinary characters in a POSIX name. */
  lemma AcceptsBackslashPy()
    ensures ValidateFileType("C:\\path\\to\\test.py")
  {
    Accepted("C:\\path\\to\\test.py", "C:\\path\\to\\test", ".py");
  }

  lemma RejectsTestTxt()
    ensures !ValidateFileType("test.txt")
  {
    assert Lower(".txt") == ".txt";
    Rejected("test.txt", "test", ".txt");
  }

  lemma RejectsBare()
    ensures !ValidateFileType("test")
  {
    NoDotNoType("test");
  }

  lemma RejectsBackslashDoc()
    ensures !ValidateFileType("C:\\path\\to\\test.doc")
  {
    assert Lower(".doc") == ".doc";
    Rejected("C:\\path\\to\\test.doc", "C:\\path\\to\\test", ".doc");
  }

  lemma UppercaseJS()
    ensures Lower(".JS") == ".js" && PlainExtension(".JS") && "test" + ".JS" == "test.JS"
  {
  }

  /**
   * validate_file_type lowercases, os.path.splitext does not: "test.JS" is
   * accepted, yet the type the rewrite works with is ".JS".
   */
  lemma UppercaseExtension()
    ensures ValidateFileType("test.JS") && SplitExt("test.JS") == ".JS"
  {
    UppercaseJS();
    ValidateFileTypeOfPlainName("test", ".JS");
    ExtensionOfPlainName("test", ".JS");
  }

  /**
   * A name made of dots and an extension: pathlib's suffix is ".js", while
   * os.path.splitext skips the leading dots and finds no extension.
   */
  lemma LeadingDotsName()
    ensures ValidateFileType("..js") && SplitExt("..js") == ""
  {
    LeadingDotsSuffix();
    LeadingDotsNoExtension();
  }

  /** os.path.splitext finds only dots before the last one, so no extension. */
  lemma LeadingDotsNoExtension()
    ensures SplitExt("..js") == ""
  {
    var s := "..js";
    RFindUnique(s, '.', 1);
    RFindUnique(s, '/', -1);
    assert s[0] == '.';
    assert !exists k :: -1 < k < 1 && s[k] != '.';
  }

  /** pathlib reads "..js" as one name with suffix ".js". */
  lemma LeadingDotsSuffix()
    ensures ValidateFileType("..js")
  {
    SplitNoSlash("..js");
    assert Clean(["..js"]) == ["..js"] by {
      assert Clean(["..js"][1..]) == [];
    }
    assert Name(Parse("..js")) == "..js";
    RFindUnique("..js", '.', 1);
    assert Suffix("..js") == ".js";
    SupportedExtensionsShape();
    assert ".js" in SupportedExtensions;
  }
}

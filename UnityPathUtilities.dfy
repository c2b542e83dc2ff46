/** Editor/UnityPathUtilities.cs: path helpers that always use `/`, the
    separator Unity uses on every platform. */
module UnityPathUtilities {
  import Strings

  const ValidCharacter: char := '/'
  const InvalidCharacter: char := '\\'

  /** `NormalizeSlashesInPath`: every `\` becomes `/`, nothing else changes. */
  function NormalizeSlashesInPath(path: string): (r: string)
    ensures |r| == |path|
    ensures InvalidCharacter !in r
  {
    if Strings.IndexOf(path, InvalidCharacter) != -1 then
      Strings.Replace(path, InvalidCharacter, ValidCharacter)
    else
      path
  }

  /** Position by position, `\` becomes `/` and every other character stays. */
  lemma NormalizeMapsEachCharacter(path: string)
    ensures var r := NormalizeSlashesInPath(path);
      forall i :: 0 <= i < |path| ==> r[i] == if path[i] == InvalidCharacter then ValidCharacter else path[i]
  {
  }

  /** The early return for a path without `\` is only a shortcut: the result
      is always what `Replace` gives. */
  lemma NormalizeIsReplace(path: string)
    ensures NormalizeSlashesInPath(path) == Strings.Replace(path, InvalidCharacter, ValidCharacter)
  {
    var r := NormalizeSlashesInPath(path);
    assert forall i :: 0 <= i < |path| ==> r[i] == Strings.Replace(path, InvalidCharacter, ValidCharacter)[i];
  }

  /** A path without `\` is returned as it is. */
  lemma NormalizeKeepsNormalizedPath(path: string)
    requires InvalidCharacter !in path
    ensures NormalizeSlashesInPath(path) == path
  {
  }

  /** Normalising twice is normalising once. */
  lemma NormalizeIsIdempotent(path: string)
    ensures NormalizeSlashesInPath(NormalizeSlashesInPath(path)) == NormalizeSlashesInPath(path)
  {
  }

  /** `GetFileNameLength`: the length of the longest `/`-free suffix of a
      normalised path. */
  function GetFileNameLength(normalizedPath: string): (len: nat)
    ensures len <= |normalizedPath|
    ensures ValidCharacter !in normalizedPath[|normalizedPath| - len..]
    ensures len < |normalizedPath| ==> normalizedPath[|normalizedPath| - len - 1] == ValidCharacter
  {
    var lastSlashPosition := Strings.LastIndexOf(normalizedPath, ValidCharacter);
    if lastSlashPosition == -1 then |normalizedPath|
    else |normalizedPath| - 1 - lastSlashPosition
  }

  /** `GetDirectoryName`: the normalised path up to its last `/`; empty when
      no `/` follows the first character. */
  function GetDirectoryName(path: string): (r: string)
    ensures var n := NormalizeSlashesInPath(path);
      r != [] ==> |r| < |n| && r == n[..|r|] && n[|r|] == ValidCharacter && ValidCharacter !in n[|r| + 1..]
    ensures var n := NormalizeSlashesInPath(path);
      r == [] <==> forall i :: 1 <= i < |n| ==> n[i] != ValidCharacter
  {
    var normalizedPath := NormalizeSlashesInPath(path);
    var lastSlashPosition := Strings.LastIndexOf(normalizedPath, ValidCharacter);
    LastSeparatorBelowOne(normalizedPath);
    if lastSlashPosition < 1 then
      []
    else
      normalizedPath[..lastSlashPosition]
  }

  /** The last `/` is at position 0 or missing exactly when no `/` follows
      the first character. */
  lemma LastSeparatorBelowOne(n: string)
    ensures Strings.LastIndexOf(n, ValidCharacter) < 1 <==> forall i :: 1 <= i < |n| ==> n[i] != ValidCharacter
  {
    var last := Strings.LastIndexOf(n, ValidCharacter);
    if last < 1 {
      forall i | 1 <= i < |n|
        ensures n[i] != ValidCharacter
      {
        assert n[i] == n[last + 1..][i - last - 1];
      }
    }
  }

  /** `GetFileName`: the normalised path after its last `/`
      (`FileNameIsLastName` states what that is). */
  function GetFileName(path: string): (r: string)
    ensures |r| <= |path| && ValidCharacter !in r
  {
    var normalizedPath := NormalizeSlashesInPath(path);
    var nameLength := GetFileNameLength(normalizedPath);
    if nameLength == 0 then [] else normalizedPath[|normalizedPath| - nameLength..]
  }

  /** The file name is the longest `/`-free suffix of the normalised path. */
  lemma FileNameIsLastName(path: string)
    ensures var n, r := NormalizeSlashesInPath(path), GetFileName(path);
      && |r| <= |n| && r == n[|n| - |r|..]
      && ValidCharacter !in r
      && (|r| < |n| ==> n[|n| - |r| - 1] == ValidCharacter)
  {
    var n := NormalizeSlashesInPath(path);
    var len := GetFileNameLength(n);
    if len == 0 {
      assert n[|n|..] == [];
    }
  }

  /** A normalised path is its directory name, `/` and its file name; when the
      directory name is empty, the path is the file name with at most one `/`
      in front of it. */
  lemma DirectoryNameAndFileNameReassemble(path: string)
    ensures var n, d, f := NormalizeSlashesInPath(path), GetDirectoryName(path), GetFileName(path);
      if d != [] then n == d + [ValidCharacter] + f
      else n == f || n == [ValidCharacter] + f
  {
    var n, d, f := NormalizeSlashesInPath(path), GetDirectoryName(path), GetFileName(path);
    FileNameIsLastName(path);
    if d != [] {
      assert ValidCharacter !in n[|d| + 1..];
      assert |f| == |n| - |d| - 1;
      assert n == n[..|d|] + [n[|d|]] + n[|d| + 1..];
    } else if |f| < |n| {
      assert |n| - |f| - 1 == 0;
      assert n == [n[0]] + n[1..];
    }
  }

  /** The directory name of `d/f` is `d` when `f` has no separator. */
  lemma DirectoryNameOfChild(d: string, f: string)
    requires d != [] && InvalidCharacter !in d
    requires ValidCharacter !in f && InvalidCharacter !in f
    ensures GetDirectoryName(d + [ValidCharacter] + f) == d
  {
    var n := d + [ValidCharacter] + f;
    NormalizeKeepsNormalizedPath(n);
    assert n[|d| + 1..] == f;
    Strings.LastIndexOfIsLast(n, ValidCharacter, |d|);
    assert n[..|d|] == d;
  }

  /** The file name of `d/f` is `f` when `f` has no separator. */
  lemma FileNameOfChild(d: string, f: string)
    requires InvalidCharacter !in d
    requires ValidCharacter !in f && InvalidCharacter !in f
    ensures GetFileName(d + [ValidCharacter] + f) == f
  {
    var n := d + [ValidCharacter] + f;
    NormalizeKeepsNormalizedPath(n);
    assert n[|d| + 1..] == f;
    Strings.LastIndexOfIsLast(n, ValidCharacter, |d|);
  }

  /** A path without separators is its own file name. */
  lemma FileNameOfName(f: string)
    requires ValidCharacter !in f && InvalidCharacter !in f
    ensures GetFileName(f) == f
  {
    NormalizeKeepsNormalizedPath(f);
  }

  /** `GetFileNameWithoutExtension`: the file name up to its last `.`, or the
      whole file name when it has no `.`. */
  function GetFileNameWithoutExtension(path: string): (r: string)
    ensures |r| <= |path| && ValidCharacter !in r
  {
    var normalizedPath := NormalizeSlashesInPath(path);
    var nameLength := GetFileNameLength(normalizedPath);
    if nameLength == 0 then []
    else
      var lastCharacterPosition := |normalizedPath| - 1;
      var lastDotPosition := Strings.LastIndexOfRange(normalizedPath, '.', lastCharacterPosition, nameLength);
      if lastDotPosition == -1 then
        normalizedPath[|normalizedPath| - nameLength..]
      else
        var extensionLength := lastCharacterPosition - lastDotPosition;
        var nameWithoutExtensionLength := nameLength - extensionLength - 1;
        if nameWithoutExtensionLength == 0 then []
        else
          normalizedPath[|normalizedPath| - nameLength..][..nameWithoutExtensionLength]
  }

  /** `GetFileNameWithoutExtension` is the file name up to its last `.`, or
      the whole file name when it has none. */
  lemma FileNameWithoutExtensionIsNameBeforeLastDot(path: string)
    ensures var f := GetFileName(path);
      var dot := Strings.LastIndexOf(f, '.');
      GetFileNameWithoutExtension(path) == if dot == -1 then f else f[..dot]
  {
    var n := NormalizeSlashesInPath(path);
    var len := GetFileNameLength(n);
    if len == 0 {
      assert GetFileName(path) == [] && GetFileNameWithoutExtension(path) == [];
    } else {
      var f := n[|n| - len..];
      FileNameIsSuffix(path, n, len);
      LastDotOfSuffix(n, len);
      NameBeforeDotOfSuffix(path, n, len, Strings.LastIndexOf(f, '.'));
    }
  }

  /** A non-empty file name is the suffix `GetFileNameLength` measures. */
  lemma FileNameIsSuffix(path: string, n: string, len: nat)
    requires n == NormalizeSlashesInPath(path) && len == GetFileNameLength(n) && len != 0
    ensures GetFileName(path) == n[|n| - len..]
  {
  }

  /** The branches of `GetFileNameWithoutExtension` once the ranged search
      has found the dot at position `dot` of the file name (or none). */
  lemma NameBeforeDotOfSuffix(path: string, n: string, len: nat, dot: int)
    requires n == NormalizeSlashesInPath(path) && len == GetFileNameLength(n) && len != 0
    requires -1 <= dot < len
    requires Strings.LastIndexOfRange(n, '.', |n| - 1, len) == if dot == -1 then -1 else |n| - len + dot
    ensures GetFileNameWithoutExtension(path) == if dot == -1 then n[|n| - len..] else n[|n| - len..][..dot]
  {
    if dot > 0 {
      var extensionLength := |n| - 1 - Strings.LastIndexOfRange(n, '.', |n| - 1, len);
      assert len - extensionLength - 1 == dot;
    }
  }

  /** The index arithmetic of `GetFileNameWithoutExtension`: the ranged search
      over the last `len` characters finds the last `.` of that suffix. */
  lemma LastDotOfSuffix(n: string, len: nat)
    requires 1 <= len <= |n|
    ensures var f := n[|n| - len..];
      var dot := Strings.LastIndexOf(f, '.');
      Strings.LastIndexOfRange(n, '.', |n| - 1, len) == if dot == -1 then -1 else |n| - len + dot
  {
    Strings.LastIndexOfRangeIsShiftedLastIndexOf(n, '.', |n| - 1, len);
    assert n[|n| - len..|n|] == n[|n| - len..];
  }

  /** A file name `base.ext` with a dot-free `ext` loses `.ext`. */
  lemma ExtensionIsRemoved(path: string, base: string, ext: string)
    requires GetFileName(path) == base + ['.'] + ext
    requires '.' !in ext
    ensures GetFileNameWithoutExtension(path) == base
  {
    LastDotOfExtension(base, ext);
    FileNameWithoutExtensionIsNameBeforeLastDot(path);
    Strings.PrefixBeforeSeparator(base, '.', ext);
  }

  /** The last dot of `base.ext` with a dot-free `ext` is the one after `base`. */
  lemma LastDotOfExtension(base: string, ext: string)
    requires '.' !in ext
    ensures Strings.LastIndexOf(base + ['.'] + ext, '.') == |base|
  {
    var f := base + ['.'] + ext;
    assert f[|base| + 1..] == ext;
    Strings.LastIndexOfIsLast(f, '.', |base|);
  }

  /** A file name without a dot is kept whole. */
  lemma NameWithoutDotIsKept(path: string)
    requires '.' !in GetFileName(path)
    ensures GetFileNameWithoutExtension(path) == GetFileName(path)
  {
    FileNameWithoutExtensionIsNameBeforeLastDot(path);
  }

  /** `Combine`: both parts normalised and stripped of `/` at their ends, then
      joined by one `/` unless one of them is empty. */
  function Combine(path1: string, path2: string): (r: string)
    ensures r == [] || (r[0] != ValidCharacter && r[|r| - 1] != ValidCharacter)
    ensures InvalidCharacter !in r
  {
    var normalizedPath1 := Strings.Trim(NormalizeSlashesInPath(path1), ValidCharacter);
    var normalizedPath2 := Strings.Trim(NormalizeSlashesInPath(path2), ValidCharacter);
    Strings.TrimKeepsAbsence(NormalizeSlashesInPath(path1), ValidCharacter, InvalidCharacter);
    Strings.TrimKeepsAbsence(NormalizeSlashesInPath(path2), ValidCharacter, InvalidCharacter);
    Strings.TrimIsSlice(NormalizeSlashesInPath(path1), ValidCharacter);
    Strings.TrimIsSlice(NormalizeSlashesInPath(path2), ValidCharacter);
    if |normalizedPath1| == 0 then normalizedPath2
    else if |normalizedPath2| == 0 then normalizedPath1
    else
      JoinedKeepsEnds(normalizedPath1, normalizedPath2);
      normalizedPath1 + [ValidCharacter] + normalizedPath2
  }

  /** Joining two parts by `/` keeps their outer ends and adds no `\`. */
  lemma JoinedKeepsEnds(a: string, b: string)
    requires a != [] && b != []
    ensures var r := a + [ValidCharacter] + b;
      && r[0] == a[0] && r[|r| - 1] == b[|b| - 1]
      && (InvalidCharacter !in a && InvalidCharacter !in b ==> InvalidCharacter !in r)
  {
  }

  /** A part that is normalised and stripped of `/` at both ends is left as
      it is by normalising and stripping it again. */
  lemma StrippedPartIsStable(path: string)
    ensures var t := Strings.Trim(NormalizeSlashesInPath(path), ValidCharacter);
      Strings.Trim(NormalizeSlashesInPath(t), ValidCharacter) == t
  {
    var n := NormalizeSlashesInPath(path);
    var t := Strings.Trim(n, ValidCharacter);
    Strings.TrimKeepsAbsence(n, ValidCharacter, InvalidCharacter);
    Strings.TrimIsSlice(n, ValidCharacter);
    NormalizeKeepsNormalizedPath(t);
    Strings.TrimOfTrimmed(t, ValidCharacter);
  }

  /** `Combine` looks only at what is left of each part once it is
      normalised and stripped of `/` at both ends: combining those stripped
      parts gives the same path. */
  lemma CombineIgnoresOuterSeparators(path1: string, path2: string)
    ensures Combine(path1, path2)
         == Combine(Strings.Trim(NormalizeSlashesInPath(path1), ValidCharacter),
                    Strings.Trim(NormalizeSlashesInPath(path2), ValidCharacter))
  {
    StrippedPartIsStable(path1);
    StrippedPartIsStable(path2);
  }

  /** A first part made of separators only is dropped: the result is the
      second part, normalised and stripped of `/` at both ends. */
  lemma CombineWithSeparatorsOnlyFirst(path1: string, path2: string)
    requires forall c :: c in NormalizeSlashesInPath(path1) ==> c == ValidCharacter
    ensures Combine(path1, path2) == Strings.Trim(NormalizeSlashesInPath(path2), ValidCharacter)
  {
    Strings.TrimOfSeparatorsOnly(NormalizeSlashesInPath(path1), ValidCharacter);
  }

  /** A second part made of separators only is dropped: the result is the
      first part, normalised and stripped of `/` at both ends. */
  lemma CombineWithSeparatorsOnlySecond(path1: string, path2: string)
    requires forall c :: c in NormalizeSlashesInPath(path2) ==> c == ValidCharacter
    ensures Combine(path1, path2) == Strings.Trim(NormalizeSlashesInPath(path1), ValidCharacter)
  {
    Strings.TrimOfSeparatorsOnly(NormalizeSlashesInPath(path2), ValidCharacter);
  }

  /** Two parts that already are normalised and have no `/` at their ends are
      joined unchanged, so a doubled `/` inside a part stays. */
  lemma {:induction false} CombineOfTrimmedParts(a: string, b: string)
    requires a != [] && a[0] != ValidCharacter && a[|a| - 1] != ValidCharacter && InvalidCharacter !in a
    requires b != [] && b[0] != ValidCharacter && b[|b| - 1] != ValidCharacter && InvalidCharacter !in b
    ensures Combine(a, b) == a + [ValidCharacter] + b
  {
    NormalizeKeepsNormalizedPath(a);
    NormalizeKeepsNormalizedPath(b);
    Strings.TrimOfTrimmed(a, ValidCharacter);
    Strings.TrimOfTrimmed(b, ValidCharacter);
  }

  /** `a//b` combined with `c` is `a//b/c`: only the ends are stripped. */
  lemma CombineKeepsInnerDoubleSeparator()
    ensures Combine("a//b", "c") == "a//b/c"
  {
    assert "a//b/c" == "a//b" + [ValidCharacter] + "c";
    CombineOfTrimmedParts("a//b", "c");
  }

  /** The non-empty `/`-separated names of a path. */
  function Names(path: string): seq<string> {
    Strings.Split(NormalizeSlashesInPath(path), ValidCharacter)
  }

  /** The names of a combined path are the names of the first part followed by
      those of the second. */
  lemma CombineConcatenatesNames(path1: string, path2: string)
    ensures Names(Combine(path1, path2)) == Names(path1) + Names(path2)
  {
    var n1, n2 := NormalizeSlashesInPath(path1), NormalizeSlashesInPath(path2);
    var t1, t2 := Strings.Trim(n1, ValidCharacter), Strings.Trim(n2, ValidCharacter);
    Strings.SplitOfTrim(n1, ValidCharacter);
    Strings.SplitOfTrim(n2, ValidCharacter);
    var r := Combine(path1, path2);
    NormalizeKeepsNormalizedPath(r);
    assert Names(r) == Strings.Split(r, ValidCharacter);
    assert Names(path1) == Strings.Split(t1, ValidCharacter);
    assert Names(path2) == Strings.Split(t2, ValidCharacter);
    assert r == if t1 == [] then t2 else if t2 == [] then t1 else t1 + [ValidCharacter] + t2;
    SplitOfJoined(t1, t2, r);
  }

  /** Splitting two parts joined as `Combine` joins them splits each part. */
  lemma SplitOfJoined(t1: string, t2: string, r: string)
    requires r == if t1 == [] then t2 else if t2 == [] then t1 else t1 + [ValidCharacter] + t2
    ensures Strings.Split(r, ValidCharacter) == Strings.Split(t1, ValidCharacter) + Strings.Split(t2, ValidCharacter)
  {
    Strings.SplitOfEmpty(ValidCharacter);
    if t1 != [] && t2 != [] {
      Strings.SplitConcat(t1, t2, ValidCharacter);
    }
  }

  /** Combining is associative on names. */
  lemma CombineIsAssociativeOnNames(a: string, b: string, c: string)
    ensures Names(Combine(Combine(a, b), c)) == Names(Combine(a, Combine(b, c)))
  {
    CombineConcatenatesNames(a, b);
    CombineConcatenatesNames(Combine(a, b), c);
    CombineConcatenatesNames(b, c);
    CombineConcatenatesNames(a, Combine(b, c));
    Strings.ConcatAssoc(Names(a), Names(b), Names(c));
  }

  /** The literal paths of the unit-test rows, cut where the rows act. */
  lemma TestRowLiterals()
    ensures "foo/bar/baz" == "foo/bar" + [ValidCharacter] + "baz"
    ensures "//" == "/" + [ValidCharacter] + ""
    ensures ".foo" == "" + ['.'] + "foo"
    ensures "foo.bar.baz" == "foo.bar" + ['.'] + "baz"
    ensures "./foo." == "." + [ValidCharacter] + "foo."
    ensures "foo." == "foo" + ['.'] + ""
    ensures "foo/bar" + [ValidCharacter] + "baz/qux" == "foo/bar/baz/qux"
  {
  }

  /** Unit-test row: the directory of `foo/bar/baz` is `foo/bar`. */
  lemma DirectoryNameOfNestedPath()
    ensures GetDirectoryName("foo/bar/baz") == "foo/bar"
  {
    TestRowLiterals();
    DirectoryNameOfChild("foo/bar", "baz");
  }

  /** `//` has directory name `/`: the last separator is at position 1. */
  lemma DirectoryNameOfDoubleSeparator()
    ensures GetDirectoryName("//") == "/"
  {
    TestRowLiterals();
    DirectoryNameOfChild("/", "");
  }

  /** Unit-test row: the file name of `foo/bar/baz` is `baz`. */
  lemma FileNameOfNestedPath()
    ensures GetFileName("foo/bar/baz") == "baz"
  {
    TestRowLiterals();
    FileNameOfChild("foo/bar", "baz");
  }

  /** Unit-test row: `.foo` is all extension, so nothing is left. */
  lemma ExtensionOnlyName()
    ensures GetFileNameWithoutExtension(".foo") == ""
  {
    FileNameOfName(".foo");
    TestRowLiterals();
    ExtensionIsRemoved(".foo", "", "foo");
  }

  /** Unit-test row: only the last extension of `foo.bar.baz` goes. */
  lemma ExtensionOfDoubleDottedName()
    ensures GetFileNameWithoutExtension("foo.bar.baz") == "foo.bar"
  {
    var p := "foo.bar" + ['.'] + "baz";
    TestRowLiterals();
    assert ValidCharacter !in "foo.bar" && InvalidCharacter !in "foo.bar";
    assert ValidCharacter !in p && InvalidCharacter !in p;
    FileNameOfName(p);
    ExtensionIsRemoved(p, "foo.bar", "baz");
  }

  /** Unit-test row: `./foo.` keeps `foo`. */
  lemma ExtensionOfTrailingDot()
    ensures GetFileNameWithoutExtension("./foo.") == "foo"
  {
    TestRowLiterals();
    FileNameOfChild(".", "foo.");
    ExtensionIsRemoved("./foo.", "foo", "");
  }

  /** Unit-test row: a file directly below the leading `/` has no directory name. */
  lemma DirectoryNameBelowRoot()
    ensures GetDirectoryName("/foo.bar") == ""
  {
    NormalizeKeepsNormalizedPath("/foo.bar");
  }

  /** Unit-test row: a separator-only part disappears. */
  lemma CombineWithSeparatorOnly()
    ensures Combine("/", "foo") == "foo"
  {
    NormalizeKeepsNormalizedPath("/");
    NormalizeKeepsNormalizedPath("foo");
    assert Strings.Trim("/", ValidCharacter) == [];
    Strings.TrimOfTrimmed("foo", ValidCharacter);
  }

  /** Unit-test row: two relative paths are joined by one separator. */
  lemma CombineTwoRelativePaths()
    ensures Combine("foo/bar", "baz/qux") == "foo/bar/baz/qux"
  {
    NormalizeKeepsNormalizedPath("foo/bar");
    NormalizeKeepsNormalizedPath("baz/qux");
    Strings.TrimOfTrimmed("foo/bar", ValidCharacter);
    Strings.TrimOfTrimmed("baz/qux", ValidCharacter);
    TestRowLiterals();
  }
}

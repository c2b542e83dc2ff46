/** Editor/PathUtilities.cs: separator normalisation with the platform's
    separator pair. `Path.DirectorySeparatorChar` is a parameter. */
module PathUtilities {
  import Strings

  /** The platform's canonical separator and the one that is replaced by it. */
  datatype Separators = Separators(valid: char, invalid: char)

  /** `DirectorySeparators`: the valid character is the platform's own, the
      invalid one is `\` when that is `/` and `/` otherwise. */
  function DirectorySeparators(platformSeparator: char): (s: Separators)
    ensures s.valid == platformSeparator
    ensures s.valid != s.invalid
    ensures s.invalid == '/' || s.invalid == '\\'
  {
    Separators(platformSeparator, if platformSeparator == '/' then '\\' else '/')
  }

  /** On the platforms .NET knows (`/` or `\`) the pair is exactly `/` and `\`. */
  lemma SeparatorsAreTheTwoSlashes(platformSeparator: char)
    requires platformSeparator == '/' || platformSeparator == '\\'
    ensures var s := DirectorySeparators(platformSeparator);
      {s.valid, s.invalid} == {'/', '\\'}
  {
  }

  /** `NormalizeSlashesInPath`: every invalid separator becomes the valid one;
      the length and every other character stay as they were. */
  function NormalizeSlashesInPath(path: string, platformSeparator: char): (r: string)
    ensures var s := DirectorySeparators(platformSeparator);
      && |r| == |path|
      && s.invalid !in r
      && (forall i :: 0 <= i < |path| && path[i] != s.invalid ==> r[i] == path[i])
      && (forall i :: 0 <= i < |path| && path[i] == s.invalid ==> r[i] == s.valid)
  {
    var separators := DirectorySeparators(platformSeparator);
    Strings.Replace(path, separators.invalid, separators.valid)
  }

  /** A path without the invalid separator is returned unchanged. */
  lemma NormalizeKeepsNormalizedPath(path: string, platformSeparator: char)
    requires DirectorySeparators(platformSeparator).invalid !in path
    ensures NormalizeSlashesInPath(path, platformSeparator) == path
  {
    var r := NormalizeSlashesInPath(path, platformSeparator);
    assert forall i :: 0 <= i < |path| ==> r[i] == path[i];
  }

  /** Normalising twice is normalising once. */
  lemma NormalizeIsIdempotent(path: string, platformSeparator: char)
    ensures var once := NormalizeSlashesInPath(path, platformSeparator);
      NormalizeSlashesInPath(once, platformSeparator) == once
  {
    NormalizeKeepsNormalizedPath(NormalizeSlashesInPath(path, platformSeparator), platformSeparator);
  }

  /** A candidate result that agrees with the contract character by character
      is the result. */
  lemma NormalizeIsPointwise(path: string, platformSeparator: char, expected: string)
    requires |expected| == |path|
    requires var s := DirectorySeparators(platformSeparator);
      forall i :: 0 <= i < |path| ==> expected[i] == if path[i] == s.invalid then s.valid else path[i]
    ensures NormalizeSlashesInPath(path, platformSeparator) == expected
  {
  }

  /** Unit-test rows without a separator or made of one, on both platforms. */
  lemma NormalizeTestTableShort(v: char)
    requires v == '/' || v == '\\'
    ensures NormalizeSlashesInPath("", v) == ""
    ensures NormalizeSlashesInPath("/", v) == [v]
    ensures NormalizeSlashesInPath("\\", v) == [v]
    ensures NormalizeSlashesInPath("foo.bar", v) == "foo.bar"
  {
    Pointwise(v, "", "");
    Pointwise(v, "/", [v]);
    Pointwise(v, "\\", [v]);
    Pointwise(v, "foo.bar", "foo.bar");
  }

  /** Unit-test rows with a name between a leading `/` and a separator. */
  lemma NormalizeTestTableSlashEnclosed(v: char)
    requires v == '/' || v == '\\'
    ensures NormalizeSlashesInPath("/foo/", v) == [v] + "foo" + [v]
    ensures NormalizeSlashesInPath("/foo\\", v) == [v] + "foo" + [v]
  {
    Pointwise(v, "/foo/", [v] + "foo" + [v]);
    Pointwise(v, "/foo\\", [v] + "foo" + [v]);
  }

  /** Unit-test rows with a name between a leading `\` and a separator. */
  lemma NormalizeTestTableBackslashEnclosed(v: char)
    requires v == '/' || v == '\\'
    ensures NormalizeSlashesInPath("\\foo/", v) == [v] + "foo" + [v]
    ensures NormalizeSlashesInPath("\\foo\\", v) == [v] + "foo" + [v]
  {
    Pointwise(v, "\\foo/", [v] + "foo" + [v]);
    Pointwise(v, "\\foo\\", [v] + "foo" + [v]);
  }

  /** Unit-test row with a file name below a forward slash. */
  lemma NormalizeTestTableForward(v: char)
    requires v == '/' || v == '\\'
    ensures NormalizeSlashesInPath("foo/bar.baz", v) == "foo" + [v] + "bar.baz"
  {
    Pointwise(v, "foo/bar.baz", "foo" + [v] + "bar.baz");
  }

  /** Unit-test row with a file name below a backslash. */
  lemma NormalizeTestTableBackward(v: char)
    requires v == '/' || v == '\\'
    ensures NormalizeSlashesInPath("foo\\bar.baz", v) == "foo" + [v] + "bar.baz"
  {
    Pointwise(v, "foo\\bar.baz", "foo" + [v] + "bar.baz");
  }

  /** Helper for the table: on a slash platform a path normalises to the
      candidate when they agree on every position, slashes becoming `v`. */
  lemma Pointwise(v: char, path: string, expected: string)
    requires v == '/' || v == '\\'
    requires |expected| == |path|
    requires forall i :: 0 <= i < |path| ==>
      expected[i] == if path[i] == '/' || path[i] == '\\' then v else path[i]
    ensures NormalizeSlashesInPath(path, v) == expected
  {
    var r := NormalizeSlashesInPath(path, v);
    assert forall i :: 0 <= i < |path| ==> r[i] == expected[i];
  }
}

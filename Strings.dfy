/** The .NET string operations the repository relies on, over `seq<char>`:
    `Replace`, `IndexOf`, `LastIndexOf`, `Trim`, `Split` with
    `RemoveEmptyEntries`, `Join`, ordinal comparison and ordinal
    case-insensitive equality. */
module Strings {
  import Sorting

  /** `String.Replace(char, char)`: every `from` becomes `to`, nothing else moves. */
  function Replace(s: string, from: char, to: char): (r: string)
    ensures |r| == |s|
    ensures forall i :: 0 <= i < |s| ==> r[i] == if s[i] == from then to else s[i]
  {
    if s == [] then [] else [if s[0] == from then to else s[0]] + Replace(s[1..], from, to)
  }

  /** `String.IndexOf(char)`: the first position of `c`, or -1. */
  function IndexOf(s: string, c: char): (r: int)
    ensures -1 <= r < |s|
    ensures r == -1 <==> c !in s
    ensures r >= 0 ==> s[r] == c && c !in s[..r]
  {
    if s == [] then -1
    else if s[0] == c then 0
    else
      var k := IndexOf(s[1..], c);
      assert s == [s[0]] + s[1..];
      if k == -1 then -1
      else
        assert s[..k + 1] == [s[0]] + s[1..][..k];
        k + 1
  }

  /** `String.LastIndexOf(char)`: the last position of `c`, or -1. */
  function LastIndexOf(s: string, c: char): (r: int)
    ensures -1 <= r < |s|
    ensures r == -1 <==> c !in s
    ensures r >= 0 ==> s[r] == c && c !in s[r + 1..]
  {
    if s == [] then -1
    else if s[|s| - 1] == c then |s| - 1
    else
      var k := LastIndexOf(s[..|s| - 1], c);
      assert s == s[..|s| - 1] + [s[|s| - 1]];
      LastIndexOfStep(s[..|s| - 1], s[|s| - 1], c, k);
      k
  }

  /** Appending a character other than `c` keeps the last `c`. */
  lemma LastIndexOfStep(p: string, x: char, c: char, k: int)
    requires x != c && -1 <= k < |p|
    requires k == -1 <==> c !in p
    requires k >= 0 ==> p[k] == c && c !in p[k + 1..]
    ensures k == -1 <==> c !in p + [x]
    ensures k >= 0 ==> (p + [x])[k] == c && c !in (p + [x])[k + 1..]
  {
    if k >= 0 {
      assert (p + [x])[k + 1..] == p[k + 1..] + [x];
    }
  }

  /** `LastIndexOf` is determined by its contract: the last occurrence. */
  lemma LastIndexOfIsLast(s: string, c: char, i: nat)
    requires i < |s| && s[i] == c && c !in s[i + 1..]
    ensures LastIndexOf(s, c) == i
  {
  }

  /** `String.LastIndexOf(char, startIndex, count)`: the last position of `c`
      among the `count` characters that end at `startIndex`, or -1. */
  function LastIndexOfRange(s: string, c: char, startIndex: int, count: int): (r: int)
    requires 0 <= startIndex < |s| && 0 <= count <= startIndex + 1
    ensures r == -1 || startIndex + 1 - count <= r <= startIndex
  {
    var lo := startIndex + 1 - count;
    var k := LastIndexOf(s[lo..startIndex + 1], c);
    if k == -1 then -1 else lo + k
  }

  /** `LastIndexOfRange` finds the last `c` of the searched range, and -1
      exactly when the range has none. */
  lemma LastIndexOfRangeIsLastInRange(s: string, c: char, startIndex: int, count: int)
    requires 0 <= startIndex < |s| && 0 <= count <= startIndex + 1
    ensures var r := LastIndexOfRange(s, c, startIndex, count);
      && (r == -1 <==> c !in s[startIndex + 1 - count..startIndex + 1])
      && (r >= 0 ==> s[r] == c && c !in s[r + 1..startIndex + 1])
  {
    var lo := startIndex + 1 - count;
    var k := LastIndexOf(s[lo..startIndex + 1], c);
    if k != -1 {
      assert s[lo + k + 1..startIndex + 1] == s[lo..startIndex + 1][k + 1..];
    }
  }

  /** `TrimStart(c)`: drops every leading `c`. */
  function TrimStart(s: string, c: char): (r: string)
    ensures |r| <= |s| && r == s[|s| - |r|..]
    ensures r == [] || r[0] != c
    ensures forall i :: 0 <= i < |s| - |r| ==> s[i] == c
  {
    if s != [] && s[0] == c then TrimStart(s[1..], c) else s
  }

  /** `TrimEnd(c)`: drops every trailing `c`. */
  function TrimEnd(s: string, c: char): (r: string)
    ensures |r| <= |s| && r == s[..|r|]
    ensures r == [] || r[|r| - 1] != c
    ensures forall i :: |r| <= i < |s| ==> s[i] == c
  {
    if s != [] && s[|s| - 1] == c then TrimEnd(s[..|s| - 1], c) else s
  }

  /** `Trim(c)`: drops every leading and every trailing `c` (`TrimIsSlice`
      states what remains). */
  function Trim(s: string, c: char): string
  {
    TrimStart(TrimEnd(s, c), c)
  }

  /** What `Trim` leaves is a slice of `s` that neither starts nor ends with
      `c`, with only `c` around it. */
  lemma TrimIsSlice(s: string, c: char)
    ensures var r, hi := Trim(s, c), |TrimEnd(s, c)|;
      && (r == [] || (r[0] != c && r[|r| - 1] != c))
      && |r| <= hi <= |s| && r == s[hi - |r|..hi]
      && (forall i :: 0 <= i < hi - |r| ==> s[i] == c)
      && (forall i :: hi <= i < |s| ==> s[i] == c)
  {
    var e := TrimEnd(s, c);
    TrimOfTrimmedEnd(s, c, e, TrimStart(e, c));
  }

  /** The facts `TrimIsSlice` states, from those of `TrimEnd` and `TrimStart`. */
  lemma TrimOfTrimmedEnd(s: string, c: char, e: string, r: string)
    requires |e| <= |s| && e == s[..|e|] && (e == [] || e[|e| - 1] != c)
    requires |r| <= |e| && r == e[|e| - |r|..] && (r == [] || r[0] != c)
    requires forall i :: 0 <= i < |e| - |r| ==> e[i] == c
    ensures r == [] || (r[0] != c && r[|r| - 1] != c)
    ensures r == s[|e| - |r|..|e|]
    ensures forall i :: 0 <= i < |e| - |r| ==> s[i] == c
  {
    assert forall i :: 0 <= i < |e| ==> s[i] == e[i];
    if r != [] {
      assert r[|r| - 1] == e[|e| - 1];
    }
  }

  /** `LastIndexOfRange` is `LastIndexOf` on the searched slice, shifted to
      positions of the whole string. */
  lemma LastIndexOfRangeIsShiftedLastIndexOf(s: string, c: char, startIndex: int, count: int)
    requires 0 <= startIndex < |s| && 0 <= count <= startIndex + 1
    ensures var lo := startIndex + 1 - count;
      var k := LastIndexOf(s[lo..startIndex + 1], c);
      LastIndexOfRange(s, c, startIndex, count) == if k == -1 then -1 else lo + k
  {
  }

  /** `Trim` removes characters, so a character absent before is absent after. */
  lemma TrimKeepsAbsence(s: string, c: char, d: char)
    requires d !in s
    ensures d !in Trim(s, c)
  {
    var r := Trim(s, c);
    var hi := |TrimEnd(s, c)|;
    TrimIsSlice(s, c);
    assert r == s[hi - |r|..hi];
  }

  /** `Trim` on a string with no `c` at either end returns it unchanged. */
  lemma TrimOfTrimmed(s: string, c: char)
    requires s == [] || (s[0] != c && s[|s| - 1] != c)
    ensures Trim(s, c) == s
  {
  }

  /** A string holding nothing but `c` trims to the empty string. */
  lemma {:induction false} TrimOfSeparatorsOnly(s: string, c: char)
    requires forall x :: x in s ==> x == c
    ensures TrimEnd(s, c) == [] && Trim(s, c) == []
  {
    if s != [] {
      assert s[|s| - 1] in s;
      var p := s[..|s| - 1];
      assert forall x :: x in p ==> x in s;
      TrimOfSeparatorsOnly(p, c);
    }
  }

  /** The `sep`-separated segments of `s`, empty ones included (`String.Split`). */
  function Segments(s: string, sep: char): (r: seq<string>)
    ensures |r| >= 1
    ensures forall k :: 0 <= k < |r| ==> sep !in r[k]
    decreases |s|
  {
    var i := IndexOf(s, sep);
    if i == -1 then [s] else [s[..i]] + Segments(s[i + 1..], sep)
  }

  /** The non-empty strings of `xs`, in order. */
  function NonEmpty(xs: seq<string>): (r: seq<string>)
    ensures forall k :: 0 <= k < |r| ==> r[k] != [] && r[k] in xs
  {
    if xs == [] then []
    else if xs[0] == [] then NonEmpty(xs[1..])
    else [xs[0]] + NonEmpty(xs[1..])
  }

  /** A list without empty strings is kept whole. */
  lemma {:induction false} NonEmptyOfNonEmpties(xs: seq<string>)
    requires forall k :: 0 <= k < |xs| ==> xs[k] != []
    ensures NonEmpty(xs) == xs
  {
    if xs != [] {
      NonEmptyOfNonEmpties(xs[1..]);
      assert xs == [xs[0]] + xs[1..];
    }
  }

  /** `String.Split(sep, StringSplitOptions.RemoveEmptyEntries)`. */
  function Split(s: string, sep: char): (r: seq<string>)
    ensures forall k :: 0 <= k < |r| ==> r[k] != [] && sep !in r[k]
  {
    NonEmpty(Segments(s, sep))
  }

  /** `String.Join(sep, xs)`. */
  function Join(xs: seq<string>, sep: char): string {
    if xs == [] then []
    else if |xs| == 1 then xs[0]
    else xs[0] + [sep] + Join(xs[1..], sep)
  }

  /** A string is the part before position `i`, the character there and the rest. */
  lemma SplitAround<T>(s: seq<T>, i: int)
    requires 0 <= i < |s|
    ensures s == s[..i] + [s[i]] + s[i + 1..]
  {
  }

  /** What comes before the separator of `a + [c] + b` is `a`. */
  lemma PrefixBeforeSeparator<T>(a: seq<T>, c: T, b: seq<T>)
    ensures (a + [c] + b)[..|a|] == a
  {
  }

  /** Joining the segments of a string gives the string back. */
  lemma {:induction false} JoinSegments(s: string, sep: char)
    ensures Join(Segments(s, sep), sep) == s
    decreases |s|
  {
    var i := IndexOf(s, sep);
    if i != -1 {
      var rest := Segments(s[i + 1..], sep);
      var segments := [s[..i]] + rest;
      assert Segments(s, sep) == segments;
      assert segments[0] == s[..i] && segments[1..] == rest && |segments| > 1;
      assert Join(segments, sep) == s[..i] + [sep] + Join(rest, sep);
      JoinSegments(s[i + 1..], sep);
      SplitAround(s, i);
    }
  }

  /** The first separator of `a + [sep] + b` is the one after `a` when `a` has none. */
  lemma IndexOfAfterPrefix(a: string, sep: char, b: string)
    requires sep !in a
    ensures IndexOf(a + [sep] + b, sep) == |a|
  {
    var s := a + [sep] + b;
    assert s[|a|] == sep;
    assert s[..|a|] == a;
  }

  /** A separator-free prefix is the first segment. */
  lemma SegmentsAfterPrefix(a: string, sep: char, b: string)
    requires sep !in a
    ensures Segments(a + [sep] + b, sep) == [a] + Segments(b, sep)
  {
    var s := a + [sep] + b;
    IndexOfAfterPrefix(a, sep, b);
    assert s[..|a|] == a;
    assert s[|a| + 1..] == b;
  }

  /** Splitting a join of separator-free strings gives them back. */
  lemma {:induction false} SegmentsJoin(xs: seq<string>, sep: char)
    requires |xs| >= 1
    requires forall k :: 0 <= k < |xs| ==> sep !in xs[k]
    ensures Segments(Join(xs, sep), sep) == xs
  {
    if |xs| > 1 {
      var rest := Join(xs[1..], sep);
      assert Join(xs, sep) == xs[0] + [sep] + rest;
      SegmentsAfterPrefix(xs[0], sep, rest);
      SegmentsJoin(xs[1..], sep);
      assert xs == [xs[0]] + xs[1..];
    }
  }

  /** `Split` with `RemoveEmptyEntries` undoes `Join` of non-empty separator-free strings. */
  lemma SplitJoin(xs: seq<string>, sep: char)
    requires forall k :: 0 <= k < |xs| ==> xs[k] != [] && sep !in xs[k]
    ensures Split(Join(xs, sep), sep) == xs
  {
    if xs == [] {
      SplitOfEmpty(sep);
    } else {
      SegmentsJoin(xs, sep);
      NonEmptyOfNonEmpties(xs);
    }
  }

  /** Joining two non-empty lists puts one separator between their joins. */
  lemma {:induction false} JoinConcat(xs: seq<string>, ys: seq<string>, sep: char)
    requires |xs| >= 1 && |ys| >= 1
    ensures Join(xs + ys, sep) == Join(xs, sep) + [sep] + Join(ys, sep)
  {
    assert (xs + ys)[0] == xs[0];
    assert (xs + ys)[1..] == xs[1..] + ys;
    if |xs| > 1 {
      JoinConcat(xs[1..], ys, sep);
      ConcatAssoc(xs[0] + [sep], Join(xs[1..], sep), [sep] + Join(ys, sep));
    } else {
      assert xs[1..] + ys == ys;
    }
  }

  /** A separator splits the segments in two. */
  lemma SegmentsConcat(a: string, b: string, sep: char)
    ensures Segments(a + [sep] + b, sep) == Segments(a, sep) + Segments(b, sep)
  {
    var xs, ys := Segments(a, sep), Segments(b, sep);
    JoinSegments(a, sep);
    JoinSegments(b, sep);
    JoinConcat(xs, ys, sep);
    SegmentsJoin(xs + ys, sep);
  }

  /** Concatenation is associative (stated once, so that the solver does not
      rediscover it inside larger proofs). */
  lemma ConcatAssoc<T>(x: seq<T>, y: seq<T>, z: seq<T>)
    ensures x + (y + z) == (x + y) + z
  {
  }

  /** Dropping empty strings distributes over concatenation. */
  lemma {:induction false} NonEmptyConcat(xs: seq<string>, ys: seq<string>)
    ensures NonEmpty(xs + ys) == NonEmpty(xs) + NonEmpty(ys)
  {
    if xs == [] {
      assert xs + ys == ys;
    } else {
      var x, rest := xs[0], xs[1..];
      assert xs == [x] + rest;
      ConcatAssoc([x], rest, ys);
      NonEmptyCons(x, rest);
      NonEmptyCons(x, rest + ys);
      NonEmptyConcat(rest, ys);
      if x != [] {
        ConcatAssoc([x], NonEmpty(rest), NonEmpty(ys));
      }
    }
  }

  /** `NonEmpty` keeps a leading string exactly when it is not empty. */
  lemma NonEmptyCons(x: string, xs: seq<string>)
    ensures NonEmpty([x] + xs) == if x == [] then NonEmpty(xs) else [x] + NonEmpty(xs)
  {
    assert ([x] + xs)[0] == x && ([x] + xs)[1..] == xs;
  }

  /** The empty string has no entries. */
  lemma SplitOfEmpty(sep: char)
    ensures Split([], sep) == []
  {
    assert Segments([], sep) == [[]];
    assert NonEmpty([[]]) == NonEmpty([]);
  }

  /** The entries of `a + [sep] + b` are those of `a` followed by those of `b`. */
  lemma SplitConcat(a: string, b: string, sep: char)
    ensures Split(a + [sep] + b, sep) == Split(a, sep) + Split(b, sep)
  {
    SegmentsConcat(a, b, sep);
    NonEmptyConcat(Segments(a, sep), Segments(b, sep));
  }

  /** Leading separators add only empty entries. */
  lemma {:induction false} SplitOfTrimStart(s: string, sep: char)
    ensures Split(TrimStart(s, sep), sep) == Split(s, sep)
  {
    if s != [] && s[0] == sep {
      SplitOfTrimStart(s[1..], sep);
      SplitConcat([], s[1..], sep);
      SplitOfEmpty(sep);
      assert s == [] + [sep] + s[1..];
    }
  }

  /** Trailing separators add only empty entries. */
  lemma {:induction false} SplitOfTrimEnd(s: string, sep: char)
    ensures Split(TrimEnd(s, sep), sep) == Split(s, sep)
  {
    if s != [] && s[|s| - 1] == sep {
      SplitOfTrimEnd(s[..|s| - 1], sep);
      SplitConcat(s[..|s| - 1], [], sep);
      SplitOfEmpty(sep);
      assert s == s[..|s| - 1] + [sep] + [];
    }
  }

  /** Trimming separators does not change the entries. */
  lemma SplitOfTrim(s: string, sep: char)
    ensures Split(Trim(s, sep), sep) == Split(s, sep)
  {
    SplitOfTrimEnd(s, sep);
    SplitOfTrimStart(TrimEnd(s, sep), sep);
  }

  /** Ordinal comparison (`StringComparison.Ordinal`): lexicographic by
      character code, a proper prefix first. */
  predicate OrdinalLessOrEqual(a: string, b: string) {
    a == [] || (b != [] && (a[0] < b[0] || (a[0] == b[0] && OrdinalLessOrEqual(a[1..], b[1..]))))
  }

  lemma {:induction false} OrdinalTotal(a: string, b: string)
    ensures OrdinalLessOrEqual(a, b) || OrdinalLessOrEqual(b, a)
  {
    if a != [] && b != [] && a[0] == b[0] {
      OrdinalTotal(a[1..], b[1..]);
    }
  }

  lemma {:induction false} OrdinalTransitive(a: string, b: string, c: string)
    requires OrdinalLessOrEqual(a, b) && OrdinalLessOrEqual(b, c)
    ensures OrdinalLessOrEqual(a, c)
  {
    if a != [] && a[0] == b[0] && b[0] == c[0] {
      OrdinalTransitive(a[1..], b[1..], c[1..]);
    }
  }

  lemma {:induction false} OrdinalAntisymmetric(a: string, b: string)
    requires OrdinalLessOrEqual(a, b) && OrdinalLessOrEqual(b, a)
    ensures a == b
  {
    if a != [] {
      OrdinalAntisymmetric(a[1..], b[1..]);
      assert a == [a[0]] + a[1..] && b == [b[0]] + b[1..];
    }
  }

  /** Ordinal comparison is a total order on strings. */
  lemma OrdinalIsTotalOrder()
    ensures Sorting.TotalOrder(OrdinalLessOrEqual)
  {
    forall a, b ensures OrdinalLessOrEqual(a, b) || OrdinalLessOrEqual(b, a) {
      OrdinalTotal(a, b);
    }
    forall a, b, c | OrdinalLessOrEqual(a, b) && OrdinalLessOrEqual(b, c)
      ensures OrdinalLessOrEqual(a, c)
    {
      OrdinalTransitive(a, b, c);
    }
    forall a, b | OrdinalLessOrEqual(a, b) && OrdinalLessOrEqual(b, a) ensures a == b {
      OrdinalAntisymmetric(a, b);
    }
  }

  /** `Array.Sort(strings, StringComparer.Ordinal)`. */
  function SortOrdinal(xs: seq<string>): (r: seq<string>)
    ensures multiset(r) == multiset(xs)
    ensures Sorting.SortedBy(r, OrdinalLessOrEqual)
  {
    OrdinalIsTotalOrder();
    Sorting.SortBy(xs, OrdinalLessOrEqual)
  }

  /** The case folding used for `StringComparison.OrdinalIgnoreCase`,
      restricted to the ASCII letters. */
  function FoldCase(c: char): char {
    if 'a' <= c <= 'z' then (c as int - 32) as char else c
  }

  /** `String.Equals(a, b, StringComparison.OrdinalIgnoreCase)`. */
  predicate EqualsIgnoreCase(a: string, b: string) {
    |a| == |b| && forall i :: 0 <= i < |a| ==> FoldCase(a[i]) == FoldCase(b[i])
  }
}

/**
 * The path-string rules of .NET Framework on Windows that the core relies on:
 * String.Split on separator characters, Path.GetFileName, Path.Combine and
 * Path.IsPathRooted. Separators are explicit sets of characters rather than
 * host behaviour.
 */
module Paths {
  import opened Wrappers

  const DirectorySeparatorChar: char := '\\'
  const AltDirectorySeparatorChar: char := '/'
  const VolumeSeparatorChar: char := ':'

  /** The characters Path.GetFileName stops at. */
  const FileNameSeparators: set<char> := {DirectorySeparatorChar, AltDirectorySeparatorChar, VolumeSeparatorChar}

  predicate NoSeparator(s: string, seps: set<char>) {
    forall i | 0 <= i < |s| :: s[i] !in seps
  }

  /** The text after the last separator (the whole string when there is none). */
  function LastSegment(s: string, seps: set<char>): (r: string)
    ensures |r| <= |s|
    decreases |s|
  {
    if s == [] || s[|s| - 1] in seps then []
    else LastSegment(s[..|s| - 1], seps) + [s[|s| - 1]]
  }

  /** The text before the last separator; None when there is no separator. */
  function DirectoryPart(s: string, seps: set<char>): (r: Option<string>)
    ensures r.Some? ==> |r.value| < |s|
    decreases |s|
  {
    if s == [] then None
    else if s[|s| - 1] in seps then Some(s[..|s| - 1])
    else DirectoryPart(s[..|s| - 1], seps)
  }

  /** Path.GetFileName: the text after the last directory or volume separator. */
  function GetFileName(path: string): string {
    LastSegment(path, FileNameSeparators)
  }

  /** String.Split(separators): every piece, empty ones included, in order. */
  function Split(s: string, seps: set<char>): (r: seq<string>)
    ensures |r| >= 1
    decreases |s|
  {
    if s == [] then [[]]
    else
      var rest := Split(s[1..], seps);
      if s[0] in seps then [[]] + rest
      else [[s[0]] + rest[0]] + rest[1..]
  }

  /** String.Join with one separator character. */
  function Join(parts: seq<string>, sep: char): string
    requires |parts| >= 1
  {
    if |parts| == 1 then parts[0] else parts[0] + [sep] + Join(parts[1..], sep)
  }

  /** Path.IsPathRooted: a leading directory separator, or a drive letter and a colon. */
  predicate IsPathRooted(path: string) {
    (|path| >= 1 && (path[0] == DirectorySeparatorChar || path[0] == AltDirectorySeparatorChar))
    || (|path| >= 2 && path[1] == VolumeSeparatorChar)
  }

  /**
   * Path.Combine(path1, path2): an empty side yields the other, a rooted second
   * path wins, otherwise the two are joined with a directory separator unless
   * the first already ends with a separator.
   */
  function Combine(path1: string, path2: string): string {
    if path2 == [] then path1
    else if path1 == [] then path2
    else if IsPathRooted(path2) then path2
    else if path1[|path1| - 1] in FileNameSeparators then path1 + path2
    else path1 + [DirectorySeparatorChar] + path2
  }

  /**
   * Path.Combine keeps the first path when the second is empty, and otherwise
   * ends with the second path when that is not rooted.
   */
  lemma CombineEndsWithSecond(path1: string, path2: string)
    ensures path2 == [] ==> Combine(path1, path2) == path1
    ensures path2 != [] && !IsPathRooted(path2) ==>
      var r := Combine(path1, path2);
      |r| >= |path2| && r[|r| - |path2|..] == path2
  {
  }

  /**
   * Path.Combine of two plain names puts one directory separator between them
   * when the first does not already end with a separator.
   */
  lemma CombineJoins(path1: string, path2: string)
    requires path1 != [] && path1[|path1| - 1] !in FileNameSeparators
    requires path2 != [] && NoSeparator(path2, FileNameSeparators)
    ensures Combine(path1, path2) == path1 + [DirectorySeparatorChar] + path2
  {
    assert path2[0] !in FileNameSeparators;
    if |path2| >= 2 { assert path2[1] !in FileNameSeparators; }
  }

  // ---------------------------------------------------------------------------
  // Properties of the last segment and the directory part

  /** LastSegment is the longest separator-free suffix. */
  lemma {:induction false} LastSegmentIsSeparatorFreeSuffix(s: string, seps: set<char>)
    ensures var r := LastSegment(s, seps);
      && NoSeparator(r, seps)
      && r == s[|s| - |r|..]
      && (|r| < |s| ==> s[|s| - |r| - 1] in seps)
      && (NoSeparator(s, seps) ==> r == s)
    decreases |s|
  {
    if s != [] && s[|s| - 1] !in seps {
      var init := s[..|s| - 1];
      LastSegmentIsSeparatorFreeSuffix(init, seps);
      var r0 := LastSegment(init, seps);
      assert init[|init| - |r0|..] + [s[|s| - 1]] == s[|s| - |r0| - 1..];
      if |r0| < |init| {
        assert s[|s| - |r0| - 2] == init[|init| - |r0| - 1];
      }
      if NoSeparator(s, seps) {
        assert NoSeparator(init, seps) by {
          forall i | 0 <= i < |init| ensures init[i] !in seps { assert init[i] == s[i]; }
        }
        assert init + [s[|s| - 1]] == s;
      }
    }
  }

  /** The directory part, a separator and the last segment make up the whole path. */
  lemma {:induction false} DirectoryPartAndLastSegment(s: string, seps: set<char>)
    ensures DirectoryPart(s, seps).None? <==> NoSeparator(s, seps)
    ensures DirectoryPart(s, seps).Some? ==>
      var q := DirectoryPart(s, seps).value;
      s[|q|] in seps && s == q + [s[|q|]] + LastSegment(s, seps)
    decreases |s|
  {
    if s != [] {
      var init := s[..|s| - 1];
      if s[|s| - 1] in seps {
        assert s == init + [s[|s| - 1]] + [];
      } else {
        DirectoryPartAndLastSegment(init, seps);
        match DirectoryPart(init, seps)
        case None =>
          assert NoSeparator(s, seps) by {
            forall i | 0 <= i < |s| ensures s[i] !in seps {
              if i < |init| { assert s[i] == init[i]; }
            }
          }
        case Some(q) =>
          assert s[|q|] == init[|q|];
          assert s == init + [s[|s| - 1]];
          assert !NoSeparator(s, seps) by { assert s[|q|] in seps; }
      }
    }
  }

  /** Text after a separator that contains no separator is the last segment. */
  lemma {:induction false} LastSegmentAfterSeparator(q: string, c: char, tail: string, seps: set<char>)
    requires c in seps && NoSeparator(tail, seps)
    ensures LastSegment(q + [c] + tail, seps) == tail
    decreases |tail|
  {
    if tail != [] {
      var init := tail[..|tail| - 1];
      assert NoSeparator(init, seps) by {
        forall i | 0 <= i < |init| ensures init[i] !in seps { assert init[i] == tail[i]; }
      }
      LastSegmentAfterSeparator(q, c, init, seps);
      var s := q + [c] + tail;
      assert s[..|s| - 1] == q + [c] + init;
      assert init + [tail[|tail| - 1]] == tail;
    }
  }

  /** Path.GetFileName of a combined path is the second part when that part is a bare name. */
  lemma CombineThenGetFileName(path1: string, name: string)
    requires name != [] && NoSeparator(name, FileNameSeparators)
    ensures GetFileName(Combine(path1, name)) == name
  {
    var r := Combine(path1, name);
    CombineEndsWithSecond(path1, name);
    assert !IsPathRooted(name) by {
      assert name[0] !in FileNameSeparators;
      if |name| >= 2 { assert name[1] !in FileNameSeparators; }
    }
    LastSegmentIsSeparatorFreeSuffix(r, FileNameSeparators);
    var l := GetFileName(r);
    if |r| > |name| {
      assert r[|r| - |name| - 1] in FileNameSeparators;
    }
  }

  // ---------------------------------------------------------------------------
  // Properties of Split

  /** The shape of Split after appending one character. */
  ghost predicate SplitSnocShape(s: string, c: char, seps: set<char>) {
    var p := Split(s, seps);
    Split(s + [c], seps) == if c in seps then p + [[]] else p[..|p| - 1] + [p[|p| - 1] + [c]]
  }

  /** Appending one character to a string extends its last piece or opens a new one. */
  lemma {:induction false} SplitSnoc(s: string, c: char, seps: set<char>)
    ensures SplitSnocShape(s, c, seps)
    decreases |s|
  {
    if s == [] {
      assert s + [c] == [c] && [c][1..] == [];
      assert Split([], seps) == [[]];
      if c in seps {
        assert Split([c], seps) == [[], []];
      } else {
        var rest := Split([c][1..], seps);
        assert rest == [[]];
        assert Split([c], seps) == [[c] + rest[0]] + rest[1..];
        assert [c] + rest[0] == [c];
      }
    } else {
      SplitSnoc(s[1..], c, seps);
      if s[0] in seps {
        SplitSnocAfterSeparator(s, c, seps);
      } else {
        SplitSnocAfterChar(s, c, seps);
      }
    }
  }

  /** Induction step of SplitSnoc when `s` starts with a separator. */
  lemma SplitSnocAfterSeparator(s: string, c: char, seps: set<char>)
    requires s != [] && s[0] in seps && SplitSnocShape(s[1..], c, seps)
    ensures SplitSnocShape(s, c, seps)
  {
    var t := s[1..];
    assert (s + [c])[1..] == t + [c];
    var pt := Split(t, seps);
    var p := [[]] + pt;
    assert Split(s, seps) == p;
    if c !in seps {
      assert p[..|p| - 1] == [[]] + pt[..|pt| - 1];
    }
  }

  /** Induction step of SplitSnoc when `s` starts with an ordinary character. */
  lemma SplitSnocAfterChar(s: string, c: char, seps: set<char>)
    requires s != [] && s[0] !in seps && SplitSnocShape(s[1..], c, seps)
    ensures SplitSnocShape(s, c, seps)
  {
    var t := s[1..];
    assert (s + [c])[1..] == t + [c];
    assert (s + [c])[0] == s[0];
    var pt := Split(t, seps);
    var rest := Split(t + [c], seps);
    assert Split(s, seps) == [[s[0]] + pt[0]] + pt[1..];
    assert Split(s + [c], seps) == [[s[0]] + rest[0]] + rest[1..];
    PrependToFirstPiece(s[0], pt, rest, c, c in seps);
  }

  /** Prepending a character to the first piece commutes with the change SplitSnoc describes. */
  lemma PrependToFirstPiece(a: char, pt: seq<string>, rest: seq<string>, c: char, opens: bool)
    requires |pt| >= 1
    requires rest == if opens then pt + [[]] else pt[..|pt| - 1] + [pt[|pt| - 1] + [c]]
    ensures var p := [[a] + pt[0]] + pt[1..];
      [[a] + rest[0]] + rest[1..] == if opens then p + [[]] else p[..|p| - 1] + [p[|p| - 1] + [c]]
  {
    var p := [[a] + pt[0]] + pt[1..];
    var n := |pt|;
    if opens {
      assert rest[0] == pt[0] && rest[1..] == pt[1..] + [[]];
    } else if n == 1 {
      assert rest == [pt[0] + [c]];
      assert [a] + (pt[0] + [c]) == ([a] + pt[0]) + [c];
    } else {
      assert rest[0] == pt[0] && rest[1..] == pt[1..n - 1] + [pt[n - 1] + [c]];
      assert p[..|p| - 1] == [[a] + pt[0]] + pt[1..n - 1];
    }
  }

  /** The last piece Split produces is exactly the text after the last separator. */
  lemma {:induction false} SplitLastIsLastSegment(s: string, seps: set<char>)
    ensures Split(s, seps)[|Split(s, seps)| - 1] == LastSegment(s, seps)
    decreases |s|
  {
    if s != [] {
      var init := s[..|s| - 1];
      SplitLastIsLastSegment(init, seps);
      SplitSnoc(init, s[|s| - 1], seps);
      assert init + [s[|s| - 1]] == s;
    }
  }

  /** A separator-free string splits into itself. */
  lemma {:induction false} SplitSeparatorFree(s: string, seps: set<char>)
    requires NoSeparator(s, seps)
    ensures Split(s, seps) == [s]
    decreases |s|
  {
    if s != [] {
      assert NoSeparator(s[1..], seps) by {
        forall i | 0 <= i < |s[1..]| ensures s[1..][i] !in seps { assert s[1..][i] == s[i + 1]; }
      }
      SplitSeparatorFree(s[1..], seps);
      assert [s[0]] + s[1..] == s;
    }
  }

  /** Splitting `a + [sep] + b` with separator-free `a` puts `a` in front of the pieces of `b`. */
  lemma {:induction false} SplitAppend(a: string, b: string, sep: char, seps: set<char>)
    requires sep in seps && NoSeparator(a, seps)
    ensures Split(a + [sep] + b, seps) == [a] + Split(b, seps)
    decreases |a|
  {
    if a == [] {
      assert a + [sep] + b == [sep] + b;
      assert ([sep] + b)[1..] == b;
    } else {
      var s := a + [sep] + b;
      assert s[1..] == a[1..] + [sep] + b;
      assert NoSeparator(a[1..], seps) by {
        forall i | 0 <= i < |a[1..]| ensures a[1..][i] !in seps { assert a[1..][i] == a[i + 1]; }
      }
      SplitAppend(a[1..], b, sep, seps);
      assert s[0] == a[0];
      assert [a[0]] + a[1..] == a;
    }
  }

  /** Splitting joined separator-free pieces gives the pieces back. */
  lemma {:induction false} SplitJoin(parts: seq<string>, sep: char, seps: set<char>)
    requires |parts| >= 1 && sep in seps
    requires forall k | 0 <= k < |parts| :: NoSeparator(parts[k], seps)
    ensures Split(Join(parts, sep), seps) == parts
    decreases |parts|
  {
    if |parts| == 1 {
      SplitSeparatorFree(parts[0], seps);
    } else {
      SplitJoin(parts[1..], sep, seps);
      SplitAppend(parts[0], Join(parts[1..], sep), sep, seps);
    }
  }
}

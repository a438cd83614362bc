/**
 * The path handling of `handleDirectory` (components/CollapsibleSidebar.tsx):
 * `split("/")`, `filter(Boolean)`, the chapter-folder regular expression
 * `/^chapter_\d{4}-\d{2}$/i` and `find`, which together choose the chapter
 * folder a picked file belongs to.
 */
module Paths {
  import opened Wrappers

  // ---------------------------------------------------------------------
  // split("/") and filter(Boolean)
  // ---------------------------------------------------------------------

  /** `s.split("/")`: the pieces between slashes, empty pieces included. */
  function Split(s: string): (parts: seq<string>)
    ensures |parts| >= 1
    ensures forall i :: 0 <= i < |parts| ==> '/' !in parts[i]
    decreases |s|
  {
    if s == [] then [[]]
    else
      var rest := Split(s[1..]);
      if s[0] == '/' then [[]] + rest
      else [[s[0]] + rest[0]] + rest[1..]
  }

  /** `parts.join("/")`, the inverse of `Split`. */
  function Join(parts: seq<string>): string
    requires |parts| >= 1
    decreases |parts|
  {
    if |parts| == 1 then parts[0] else parts[0] + "/" + Join(parts[1..])
  }

  /** Splitting loses nothing: joining the pieces gives the path back. */
  lemma {:induction false} JoinSplit(s: string)
    ensures Join(Split(s)) == s
    decreases |s|
  {
    if s != [] {
      JoinSplit(s[1..]);
      var rest := Split(s[1..]);
      if s[0] == '/' {
        assert Split(s) == [[]] + rest;
        assert ([[]] + rest)[1..] == rest;
      } else {
        var head := [s[0]] + rest[0];
        assert Split(s) == [head] + rest[1..];
        if |rest| > 1 {
          assert ([head] + rest[1..])[1..] == rest[1..];
          assert Join(rest) == rest[0] + "/" + Join(rest[1..]);
        }
      }
    }
  }

  /** `parts.filter(Boolean)`: the non-empty pieces, in order. */
  function NonEmpty(parts: seq<string>): (kept: seq<string>)
    ensures |kept| <= |parts|
    ensures forall x :: x in kept <==> x in parts && x != []
  {
    if parts == [] then []
    else if parts[0] == [] then NonEmpty(parts[1..])
    else [parts[0]] + NonEmpty(parts[1..])
  }

  /**
   * `filter(Boolean)` keeps order and repeats: it works piece by piece,
   * keeping a non-empty piece and dropping an empty one.
   */
  lemma {:induction false} NonEmptyPiecewise(a: seq<string>, b: seq<string>)
    ensures NonEmpty(a + b) == NonEmpty(a) + NonEmpty(b)
    ensures forall x :: NonEmpty([x]) == if x == [] then [] else [x]
    decreases |a|
  {
    if a != [] {
      assert (a + b)[1..] == a[1..] + b;
      NonEmptyPiecewise(a[1..], b);
    } else {
      assert a + b == b;
    }
    forall x ensures NonEmpty([x]) == if x == [] then [] else [x] {
      assert [x][1..] == [];
    }
  }

  /** The non-empty `/`-separated segments of a relative path. */
  function Segments(path: string): (segs: seq<string>)
    ensures forall x :: x in segs <==> x in Split(path) && x != []
  {
    NonEmpty(Split(path))
  }

  /** `path.split("/").pop()`: the part after the last slash (the display name of a page). */
  function LastSegment(path: string): (name: string)
    ensures '/' !in name
  {
    var parts := Split(path);
    parts[|parts| - 1]
  }

  /** Joining splits off the last part after the last separator. */
  lemma {:induction false} JoinLast(parts: seq<string>)
    requires |parts| >= 2
    ensures Join(parts) == Join(parts[..|parts| - 1]) + "/" + parts[|parts| - 1]
    decreases |parts|
  {
    if |parts| > 2 {
      JoinLast(parts[1..]);
      assert parts[..|parts| - 1][1..] == parts[1..][..|parts| - 2];
    }
  }

  /** The last segment is exactly the path's tail after its last slash. */
  lemma LastSegmentIsTail(path: string)
    ensures |LastSegment(path)| <= |path|
    ensures LastSegment(path) == path[|path| - |LastSegment(path)|..]
    ensures |LastSegment(path)| < |path| ==> path[|path| - |LastSegment(path)| - 1] == '/'
  {
    var parts := Split(path);
    var name := LastSegment(path);
    assert name == parts[|parts| - 1];
    JoinSplit(path);
    if |parts| == 1 {
      assert path == name;
    } else {
      JoinLast(parts);
      var init := Join(parts[..|parts| - 1]) + "/";
      assert path == init + name;
      assert |path| - |name| == |init|;
      assert path[|init|..] == name;
      assert path[|init| - 1] == init[|init| - 1];
    }
  }

  // ---------------------------------------------------------------------
  // The regular expression /^chapter_\d{4}-\d{2}$/i
  // ---------------------------------------------------------------------

  /** One single-character atom of a regular expression: a literal or `\d`. */
  datatype Atom = Char(c: char) | Digit

  /**
   * The canonical form the `i` flag compares when the expression has no
   * `u` flag: ASCII letters are upper-cased. A non-ASCII character never
   * canonicalises to an ASCII one in that mode, so for the ASCII literals
   * of the chapter pattern leaving it alone is exact.
   */
  function AsciiUpper(c: char): (u: char)
    ensures ('a' <= c <= 'z') ==> 'A' <= u <= 'Z'
    ensures !('a' <= c <= 'z') ==> u == c
  {
    if 'a' <= c <= 'z' then (c as int - 32) as char else c
  }

  /** Does character `c` match atom `a` under the `i` flag (`\d` is ASCII `0-9`)? */
  predicate AtomMatches(a: Atom, c: char)
  {
    match a
    case Char(x) => AsciiUpper(c) == AsciiUpper(x)
    case Digit => '0' <= c <= '9'
  }

  /** `^a1…an$`: the whole string matches the atoms one for one. */
  predicate MatchesWhole(s: string, atoms: seq<Atom>)
    decreases atoms
  {
    if atoms == [] then s == []
    else s != [] && AtomMatches(atoms[0], s[0]) && MatchesWhole(s[1..], atoms[1..])
  }

  /** `/^chapter_\d{4}-\d{2}$/i` as a sequence of atoms. */
  const ChapterPattern: seq<Atom> :=
    [Char('c'), Char('h'), Char('a'), Char('p'), Char('t'), Char('e'), Char('r'), Char('_'),
     Digit, Digit, Digit, Digit, Char('-'), Digit, Digit]

  /** `chapterRegex.test(s)`: fifteen characters, each matching its atom of the pattern. */
  predicate IsChapterFolder(s: string)
    ensures IsChapterFolder(s) ==> |s| == 15 && '/' !in s && s[12] == '-'
  {
    |s| == |ChapterPattern| && forall i :: 0 <= i < |s| ==> AtomMatches(ChapterPattern[i], s[i])
  }

  /** An anchored match of single-character atoms is a position-by-position match. */
  lemma {:induction false} MatchesWholeAt(s: string, atoms: seq<Atom>)
    ensures MatchesWhole(s, atoms) <==>
              |s| == |atoms| && forall i :: 0 <= i < |s| ==> AtomMatches(atoms[i], s[i])
    decreases atoms
  {
    if atoms != [] && s != [] {
      MatchesWholeAt(s[1..], atoms[1..]);
      if |s| == |atoms| && (forall i :: 0 <= i < |s| ==> AtomMatches(atoms[i], s[i])) {
        forall i | 0 <= i < |s[1..]| ensures AtomMatches(atoms[1..][i], s[1..][i]) {
          assert AtomMatches(atoms[i + 1], s[i + 1]);
        }
      }
      if MatchesWhole(s, atoms) {
        forall i | 0 <= i < |s| ensures AtomMatches(atoms[i], s[i]) {
          if i > 0 { assert AtomMatches(atoms[1..][i - 1], s[1..][i - 1]); }
        }
      }
    }
  }

  /** `chapterRegex.test` is the anchored match of the whole name against the pattern. */
  lemma ChapterFolderIsAnchoredMatch(s: string)
    ensures IsChapterFolder(s) <==> MatchesWhole(s, ChapterPattern)
  {
    MatchesWholeAt(s, ChapterPattern);
  }

  /**
   * A chapter folder name is exactly fifteen characters: `chapter_` in any
   * ASCII letter case, four ASCII digits, `-`, two ASCII digits.
   */
  lemma ChapterFolderShape(s: string)
    ensures IsChapterFolder(s) <==>
              && |s| == 15
              && (forall i :: 0 <= i < 8 ==> AsciiUpper(s[i]) == "CHAPTER_"[i])
              && (forall i :: 8 <= i < 12 ==> '0' <= s[i] <= '9')
              && s[12] == '-'
              && '0' <= s[13] <= '9' && '0' <= s[14] <= '9'
  {
    if |s| == 15 {
      forall i | 0 <= i < 15
        ensures AtomMatches(ChapterPattern[i], s[i]) <==>
                  if i < 8 then AsciiUpper(s[i]) == "CHAPTER_"[i]
                  else if i == 12 then s[i] == '-'
                  else '0' <= s[i] <= '9'
      {
      }
    }
  }

  // ---------------------------------------------------------------------
  // find
  // ---------------------------------------------------------------------

  /** `parts.find((p) => chapterRegex.test(p))`: the first part that is a chapter folder name. */
  function FindChapterFolder(parts: seq<string>): (r: Option<string>)
    ensures r.None? <==> forall i :: 0 <= i < |parts| ==> !IsChapterFolder(parts[i])
    ensures r.Some? ==> exists i :: 0 <= i < |parts| && parts[i] == r.value && IsChapterFolder(parts[i])
                                  && forall j :: 0 <= j < i ==> !IsChapterFolder(parts[j])
  {
    if parts == [] then None
    else if IsChapterFolder(parts[0]) then Some(parts[0])
    else
      FindChapterFolder(parts[1..])
  }

  /** Dropping empty segments never changes which folder is found: an empty string is no chapter folder. */
  lemma {:induction false} FindIgnoresEmptySegments(parts: seq<string>)
    ensures FindChapterFolder(NonEmpty(parts)) == FindChapterFolder(parts)
  {
    if parts != [] {
      FindIgnoresEmptySegments(parts[1..]);
      if parts[0] != [] {
        assert ([parts[0]] + NonEmpty(parts[1..]))[1..] == NonEmpty(parts[1..]);
      }
    }
  }

  /**
   * The chapter folder `handleDirectory` files a path under: none for an
   * empty path; otherwise the first non-empty `/`-segment that is a
   * chapter folder name.
   */
  function ChapterFolderOf(path: string): Option<string>
  {
    if path == [] then None else FindChapterFolder(Segments(path))
  }

  /**
   * A path is filed under its first `/`-segment that is a chapter folder
   * name, and under nothing when no segment is one; the empty-path check and
   * the dropping of empty segments change nothing.
   */
  lemma ChapterFolderOfChoosesFirst(path: string)
    ensures ChapterFolderOf(path) == FindChapterFolder(Split(path))
    ensures var r := ChapterFolderOf(path);
            && (r.None? <==> forall seg :: seg in Split(path) ==> !IsChapterFolder(seg))
            && (r.Some? ==> IsChapterFolder(r.value) && '/' !in r.value)
            && (r.Some? ==> var parts := Split(path);
                            exists i :: 0 <= i < |parts| && parts[i] == r.value
                                        && forall j :: 0 <= j < i ==> !IsChapterFolder(parts[j]))
  {
    FindIgnoresEmptySegments(Split(path));
  }
}

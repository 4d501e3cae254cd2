/** Path strings of the virtual file system.

    A path is a `/`-separated string; it names a folder exactly when it ends
    with `/`. The functions here are the string operations the editor's file
    explorer performs with JavaScript's `split`, `join`, `lastIndexOf`,
    `startsWith`, `endsWith` and `toLowerCase`, written out so that their
    edge cases (empty strings, no separator, empty segments) are explicit. */
module Paths {

  /** `s.startsWith(prefix)`: a raw character prefix test, not anchored at
      a `/` boundary. */
  predicate StartsWith(s: string, prefix: string)
    ensures StartsWith(s, prefix) <==> |prefix| <= |s| && s[..|prefix|] == prefix
  {
    prefix <= s
  }

  /** `p.endsWith("/")`: the path names a folder. */
  predicate IsFolder(p: string) {
    |p| > 0 && p[|p| - 1] == '/'
  }

  /** `s.lastIndexOf(c)`: the position of the last `c`, or -1 if none. */
  function LastIndexOf(s: string, c: char): (r: int)
    ensures -1 <= r < |s|
    ensures r >= 0 ==> s[r] == c
    ensures forall k :: r < k < |s| ==> s[k] != c
  {
    if |s| == 0 then -1
    else if s[|s| - 1] == c then |s| - 1
    else LastIndexOf(s[..|s| - 1], c)
  }

  /** Appending text without `c` does not move the last `c`. */
  lemma {:induction false} LastIndexOfAppend(s: string, t: string, c: char)
    requires c !in t
    ensures LastIndexOf(s + t, c) == LastIndexOf(s, c)
  {
    if |t| == 0 {
      assert s + t == s;
    } else {
      assert (s + t)[..|s + t| - 1] == s + t[..|t| - 1];
      LastIndexOfAppend(s, t[..|t| - 1], c);
    }
  }

  /** A `c` followed only by other characters is the last one. */
  lemma LastIndexOfIs(s: string, c: char, r: nat)
    requires r < |s| && s[r] == c && c !in s[r + 1..]
    ensures LastIndexOf(s, c) == r
  {
    assert s == s[..r + 1] + s[r + 1..];
    LastIndexOfAppend(s[..r + 1], s[r + 1..], c);
  }

  /** `parts.join(sep)`. */
  function Join(parts: seq<string>, sep: char): string {
    if |parts| == 0 then ""
    else if |parts| == 1 then parts[0]
    else Join(parts[..|parts| - 1], sep) + [sep] + parts[|parts| - 1]
  }

  /** `s.split(sep)`: the maximal runs between separators, empty runs
      included, so there is always one part more than there are separators. */
  function Split(s: string, sep: char): (parts: seq<string>)
    ensures |parts| >= 1
    ensures forall i :: 0 <= i < |parts| ==> sep !in parts[i]
    ensures Join(parts, sep) == s
    decreases |s|
  {
    var j := LastIndexOf(s, sep);
    if j < 0 then [s]
    else
      var init, last := Split(s[..j], sep), s[j + 1..];
      JoinSnoc(init, last, sep);
      assert s == s[..j] + [sep] + last;
      init + [last]
  }

  /** Joining one more part appends a separator and that part. */
  lemma JoinSnoc(init: seq<string>, last: string, sep: char)
    requires |init| >= 1
    ensures Join(init + [last], sep) == Join(init, sep) + [sep] + last
  {
    assert (init + [last])[..|init|] == init;
  }

  /** Splitting after the last separator: the last part is the text after
      the last separator and the others are the split of the text before it. */
  lemma SplitAtLast(s: string, sep: char)
    requires sep in s
    ensures var j := LastIndexOf(s, sep);
      j >= 0 && Split(s, sep) == Split(s[..j], sep) + [s[j + 1..]]
  {
  }

  /** The last part of `s.split(sep)`, which `.pop()` returns. */
  lemma SplitLast(s: string, sep: char)
    ensures var parts := Split(s, sep);
      parts[|parts| - 1] == s[LastIndexOf(s, sep) + 1..]
  {
  }

  /** Joining parts that contain no separator and splitting again gives the
      parts back. */
  lemma {:induction false} SplitJoin(parts: seq<string>, sep: char)
    requires |parts| >= 1
    requires forall i :: 0 <= i < |parts| ==> sep !in parts[i]
    ensures Split(Join(parts, sep), sep) == parts
  {
    if |parts| == 1 {
      LastIndexOfAppend("", parts[0], sep);
      assert "" + parts[0] == parts[0];
    } else {
      var init, last := parts[..|parts| - 1], parts[|parts| - 1];
      var a := Join(init, sep);
      var s := Join(parts, sep);
      assert s == a + [sep] + last;
      assert s[|a|] == sep && s[|a| + 1..] == last;
      LastIndexOfIs(s, sep, |a|);
      assert s[..|a|] == a;
      SplitJoin(init, sep);
      assert init + [last] == parts;
    }
  }

  /** `.filter((p) => p.length > 0)`. */
  function NonEmpty(parts: seq<string>): (r: seq<string>)
    ensures forall x :: x in r <==> x in parts && x != ""
  {
    if |parts| == 0 then []
    else (if parts[0] != "" then [parts[0]] else []) + NonEmpty(parts[1..])
  }

  /** A filter drops nothing when no part is empty. */
  lemma {:induction false} NonEmptyKeepsAll(parts: seq<string>)
    requires forall i :: 0 <= i < |parts| ==> parts[i] != ""
    ensures NonEmpty(parts) == parts
  {
    if |parts| > 0 {
      NonEmptyKeepsAll(parts[1..]);
      assert [parts[0]] + parts[1..] == parts;
    }
  }

  /** The segments of a path: its `/`-separated parts with empty parts dropped. */
  function Segments(p: string): (r: seq<string>)
    ensures forall i :: 0 <= i < |r| ==> r[i] != "" && '/' !in r[i]
  {
    var parts := Split(p, '/');
    var r := NonEmpty(parts);
    assert forall i :: 0 <= i < |r| ==> r[i] in parts;
    r
  }

  /** A path with no empty segment: no leading `/`, no `//`, and the only
      empty part is the one after the trailing `/` of a folder. */
  predicate WellFormed(p: string) {
    var parts := Split(p, '/');
    && (forall i :: 0 <= i < |parts| - 1 ==> parts[i] != "")
    && (parts[|parts| - 1] == "" <==> IsFolder(p))
  }

  /** The segments of a well-formed path, joined and followed by `/` for a
      folder, are the path itself. */
  lemma SegmentsOfWellFormed(p: string)
    requires WellFormed(p)
    ensures |Segments(p)| >= 1
    ensures Join(Segments(p), '/') + (if IsFolder(p) then "/" else "") == p
  {
    var parts := Split(p, '/');
    if IsFolder(p) {
      var x := p[..|p| - 1];
      LastIndexOfIs(p, '/', |p| - 1);
      SplitAtLast(p, '/');
      assert parts == Split(x, '/') + [""];
      assert |parts| >= 2;
      var init := parts[..|parts| - 1];
      assert init == Split(x, '/');
      NonEmptyKeepsAll(init);
      assert NonEmpty([""]) == [];
      NonEmptyAppend(init, [""]);
      assert Segments(p) == init;
      assert p == x + "/";
    } else {
      NonEmptyKeepsAll(parts);
    }
  }

  lemma {:induction false} NonEmptyAppend(a: seq<string>, b: seq<string>)
    ensures NonEmpty(a + b) == NonEmpty(a) + NonEmpty(b)
  {
    if |a| > 0 {
      assert (a + b)[1..] == a[1..] + b;
      NonEmptyAppend(a[1..], b);
    } else {
      assert a + b == b;
    }
  }

  /** One character of `toLowerCase`, on the ASCII letters (see README). */
  function LowerChar(c: char): (r: char)
    ensures 'A' <= c <= 'Z' ==> 'a' <= r <= 'z' && r as int - 'a' as int == c as int - 'A' as int
    ensures !('A' <= c <= 'Z') ==> r == c
  {
    if 'A' <= c <= 'Z' then (c as int - 'A' as int + 'a' as int) as char else c
  }

  function ToLower(s: string): (r: string)
    ensures |r| == |s|
    ensures forall i :: 0 <= i < |s| ==> r[i] == LowerChar(s[i])
  {
    seq(|s|, i requires 0 <= i < |s| => LowerChar(s[i]))
  }

  /** `fileName.split(".").pop().toLowerCase()`: the lower-cased text after
      the last `.`, or the whole lower-cased name when it has no `.`. */
  function Extension(fileName: string): (r: string)
    ensures r == ToLower(fileName[LastIndexOf(fileName, '.') + 1..])
    ensures '.' !in r
  {
    var parts := Split(fileName, '.');
    SplitLast(fileName, '.');
    ToLower(parts[|parts| - 1])
  }

  /** `p.replace(/\/$/, "")`: drop one trailing `/`. */
  function StripTrailingSlash(p: string): (r: string)
    ensures IsFolder(p) ==> r + "/" == p
    ensures !IsFolder(p) ==> r == p
  {
    if IsFolder(p) then p[..|p| - 1] else p
  }

  /** The parent folder `addFile` uses when it is given none: a selected
      folder is its own parent; for anything else it is the text up to and
      including the last `/`, which is empty at the root. */
  function ParentForNewFile(active: string): (r: string)
    ensures StartsWith(active, r)
    ensures r == "" || IsFolder(r)
    ensures IsFolder(active) ==> r == active
    ensures !IsFolder(active) ==> '/' !in active[|r|..]
  {
    if IsFolder(active) then active
    else active[..LastIndexOf(active, '/') + 1]
  }

  /** The key `addFile` creates for `name` in `parent`: the parent with one
      trailing `/` removed, then `/`, then the name; just the name at the
      root. */
  function NewFilePath(parent: string, name: string): (r: string)
    ensures parent == "" ==> r == name
    ensures IsFolder(parent) ==> r == parent + name
    ensures parent != "" && !IsFolder(parent) ==> r == parent + "/" + name
  {
    if parent != "" then StripTrailingSlash(parent) + "/" + name else name
  }

  /** The key `addFolder` creates for `name` in `parent`: always a folder
      path, the new-file path of the same name followed by `/`. */
  function NewFolderPath(parent: string, name: string): (r: string)
    ensures IsFolder(r)
    ensures r == NewFilePath(parent, name) + "/"
  {
    if parent != "" then StripTrailingSlash(parent) + "/" + name + "/"
    else name + "/"
  }

  /** A file created by `addFile` in a folder has that folder as the parent
      `addFile` would pick when the new file itself is selected: new files
      are siblings of the selected file. */
  lemma NewFileParentRoundTrip(parent: string, name: string)
    requires parent == "" || IsFolder(parent)
    requires '/' !in name && name != ""
    ensures ParentForNewFile(NewFilePath(parent, name)) == parent
  {
    var path := NewFilePath(parent, name);
    assert path == parent + name;
    assert !IsFolder(path) by {
      assert path[|path| - 1] == name[|name| - 1];
    }
    LastIndexOfAppend(parent, name, '/');
    if parent != "" {
      LastIndexOfIs(parent, '/', |parent| - 1);
    } else {
      assert LastIndexOf(parent, '/') == -1;
    }
    assert path[..|parent|] == parent;
  }

  /** The name the rename prompt shows: the last segment of a file path, or
      the segment before the trailing `/` of a folder path. */
  function RenameOldName(oldPath: string): (r: string)
    ensures !IsFolder(oldPath) ==> r == oldPath[LastIndexOf(oldPath, '/') + 1..]
    ensures IsFolder(oldPath) ==>
      var x := oldPath[..|oldPath| - 1]; r == x[LastIndexOf(x, '/') + 1..]
  {
    var parts := Split(oldPath, '/');
    if IsFolder(oldPath) then
      FolderSplit(oldPath);
      SplitLast(oldPath[..|oldPath| - 1], '/');
      parts[|parts| - 2]
    else
      SplitLast(oldPath, '/');
      parts[|parts| - 1]
  }

  /** A folder path splits into the parts of its text before the trailing
      `/`, followed by one empty part. */
  lemma FolderSplit(p: string)
    requires IsFolder(p)
    ensures Split(p, '/') == Split(p[..|p| - 1], '/') + [""]
  {
    LastIndexOfIs(p, '/', |p| - 1);
  }

  /** The parts before the last of `s.split(sep)`, joined again, are the
      text before the last separator (empty when there is none). */
  lemma JoinInit(s: string, sep: char)
    ensures var parts := Split(s, sep); var j := LastIndexOf(s, sep);
      Join(parts[..|parts| - 1], sep) == (if j < 0 then "" else s[..j])
      && (|parts| > 1 <==> j >= 0)
  {
    var parts := Split(s, sep);
    var j := LastIndexOf(s, sep);
    if j >= 0 {
      assert parts[..|parts| - 1] == Split(s[..j], sep);
    } else {
      assert parts == [s];
    }
  }

  /** `parentPath` in `renameItem`: the parts before the renamed name,
      joined, with a `/` added only for a folder nested below the root. */
  function RenameParent(oldPath: string): (r: string)
    ensures IsFolder(oldPath) ==>
      var x := oldPath[..|oldPath| - 1]; r == x[..LastIndexOf(x, '/') + 1]
    ensures !IsFolder(oldPath) ==>
      var j := LastIndexOf(oldPath, '/'); r == if j < 0 then "" else oldPath[..j]
  {
    var parts := Split(oldPath, '/');
    if IsFolder(oldPath) then
      FolderParent(oldPath);
      Join(parts[..|parts| - 2], '/') + (if |parts| > 2 then "/" else "")
    else
      JoinInit(oldPath, '/');
      Join(parts[..|parts| - 1], '/')
  }

  lemma FolderParent(p: string)
    requires IsFolder(p)
    ensures var parts := Split(p, '/'); var x := p[..|p| - 1];
      |parts| >= 2 &&
      Join(parts[..|parts| - 2], '/') + (if |parts| > 2 then "/" else "")
        == x[..LastIndexOf(x, '/') + 1]
  {
    var x := p[..|p| - 1];
    FolderSplit(p);
    JoinInit(x, '/');
    var parts := Split(p, '/');
    var px := Split(x, '/');
    assert parts == px + [""];
    assert |parts| - 2 == |px| - 1;
    assert parts[..|parts| - 2] == px[..|px| - 1];
    var jx := LastIndexOf(x, '/');
    if jx >= 0 {
      assert x[..jx] + "/" == x[..jx + 1];
    }
  }

  /** `newPath` in `renameItem`. For a folder it replaces the segment before
      the trailing `/` and keeps the `/`. For a file it is the text before
      the last `/`, WITHOUT that `/`, followed by the new name. */
  function RenameTarget(oldPath: string, newName: string): (r: string)
    ensures IsFolder(oldPath) ==> IsFolder(r)
    ensures IsFolder(oldPath) ==>
      var x := oldPath[..|oldPath| - 1];
      r == x[..LastIndexOf(x, '/') + 1] + newName + "/"
    ensures !IsFolder(oldPath) ==>
      var j := LastIndexOf(oldPath, '/');
      r == (if j < 0 then "" else oldPath[..j]) + newName
  {
    var parent := RenameParent(oldPath);
    var newPath := if parent != "" then parent + newName else newName;
    if IsFolder(oldPath) then newPath + "/" else newPath
  }
}

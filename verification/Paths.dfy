/** Slash-separated paths: splitting, and cleaning as Go's path packages do it. */
module Paths {
  import opened Common

  /** An absolute path, as the names on the way from the root. */
  type Path = seq<string>

  function Split(s: string): (r: seq<string>)
    ensures r != []
  {
    if s == "" then [""]
    else
      var rest := Split(s[1..]);
      if s[0] == '/' then [""] + rest else [[s[0]] + rest[0]] + rest[1..]
  }

  /** The segment stack of path.Clean on a relative path. */
  function Cleaned(parts: seq<string>): seq<string> {
    if parts == [] then []
    else
      var before, last := Cleaned(parts[..|parts| - 1]), parts[|parts| - 1];
      if last == "" || last == "." then before
      else if last == ".." && before != [] && before[|before| - 1] != ".." then before[..|before| - 1]
      else before + [last]
  }

  /** path.Clean of a relative path. */
  function Clean(s: string): string {
    var parts := Cleaned(Split(s));
    if parts == [] then "." else Join(parts, "/")
  }

  /** A piece of a path between slashes. */
  predicate Segment(s: string) {
    '/' !in s
  }

  predicate ProperSegment(s: string) {
    s != "" && s != "." && Segment(s)
  }

  /** A segment that names an entry of a directory. */
  predicate EntryName(s: string) {
    ProperSegment(s) && s != ".."
  }

  predicate Proper(path: Path) {
    forall s | s in path :: EntryName(s)
  }

  /** filepath.Clean of an absolute path: above the root there is only the root. */
  function Rooted(parts: seq<string>): Path {
    if parts == [] then []
    else
      var before, last := Rooted(parts[..|parts| - 1]), parts[|parts| - 1];
      if last == "" || last == "." then before
      else if last == ".." then (if before == [] then [] else before[..|before| - 1])
      else before + [last]
  }

  /** filepath.Join of a directory and a relative text. */
  function Joined(dir: Path, text: string): Path {
    Rooted(dir + Split(text))
  }

  // ----- Splitting and joining undo each other

  lemma {:induction false} SplitSegments(s: string)
    ensures forall k | 0 <= k < |Split(s)| :: Segment(Split(s)[k])
    ensures Join(Split(s), "/") == s
  {
    if s != "" {
      SplitSegments(s[1..]);
      var rest := Split(s[1..]);
      if s[0] == '/' {
        assert Join([""] + rest, "/") == "" + "/" + Join(rest, "/");
      } else {
        var parts := [[s[0]] + rest[0]] + rest[1..];
        assert parts[1..] == rest[1..];
      }
    }
  }

  lemma {:induction false} SplitJoin(parts: seq<string>)
    requires parts != [] && forall k | 0 <= k < |parts| :: Segment(parts[k])
    ensures Split(Join(parts, "/")) == parts
  {
    if |parts| == 1 {
      SplitPlain(parts[0]);
    } else {
      SplitJoin(parts[1..]);
      SplitAfter(parts[0], Join(parts[1..], "/"));
      assert parts[0] + "/" + Join(parts[1..], "/") == parts[0] + ("/" + Join(parts[1..], "/"));
    }
  }

  lemma {:induction false} SplitPlain(s: string)
    requires '/' !in s
    ensures Split(s) == [s]
  {
    if s != "" {
      assert s[0] in s && s == [s[0]] + s[1..];
      SplitPlain(s[1..]);
    }
  }

  lemma {:induction false} SplitAfter(head: string, tail: string)
    requires '/' !in head
    ensures Split(head + ("/" + tail)) == [head] + Split(tail)
  {
    var s := head + ("/" + tail);
    if head == "" {
      assert s[1..] == tail;
    } else {
      SplitAfter(head[1..], tail);
      assert s[0] == head[0] && head[0] in head && s[1..] == head[1..] + ("/" + tail);
      var rest := [head[1..]] + Split(tail);
      assert rest[1..] == Split(tail) && head == [head[0]] + head[1..];
    }
  }

  /** A cleaned stack has no empty or dot segment, and ".." only at its front. */
  lemma {:induction false} CleanedShape(parts: seq<string>)
    requires forall k | 0 <= k < |parts| :: Segment(parts[k])
    ensures forall k | 0 <= k < |Cleaned(parts)| :: ProperSegment(Cleaned(parts)[k])
    ensures forall i, j | 0 <= i < j < |Cleaned(parts)| && Cleaned(parts)[j] == ".." :: Cleaned(parts)[i] == ".."
  {
    hide Segment;
    if parts != [] {
      var front, last := parts[..|parts| - 1], parts[|parts| - 1];
      assert forall k | 0 <= k < |front| :: front[k] == parts[k];
      CleanedShape(front);
      var before := Cleaned(front);
      if last != "" && last != "." && !(last == ".." && before != [] && before[|before| - 1] != "..") {
        assert Segment(last);
        assert Cleaned(parts) == before + [last];
      }
    }
  }

  lemma {:induction false} SplitPrefix(l: string, s: string)
    requires '/' !in l
    ensures Split(l + s) == [l + Split(s)[0]] + Split(s)[1..]
  {
    if l == "" {
      assert l + s == s && "" + Split(s)[0] == Split(s)[0];
    } else {
      assert l[0] in l && (l + s)[1..] == l[1..] + s;
      SplitPrefix(l[1..], s);
      assert [l[0]] + (l[1..] + Split(s)[0]) == l + Split(s)[0];
    }
  }

  function Last(s: seq<string>): string
    requires s != []
  {
    s[|s| - 1]
  }

  lemma {:induction false} SplitSuffix(s: string, r: string)
    requires '/' !in r
    ensures Split(s + r) == Split(s)[..|Split(s)| - 1] + [Last(Split(s)) + r]
  {
    if s == "" {
      SplitPlain(r);
      assert s + r == r && "" + r == r;
    } else {
      assert (s + r)[1..] == s[1..] + r && (s + r)[0] == s[0];
      SplitSuffix(s[1..], r);
      var rest := Split(s[1..]);
      if s[0] != '/' && |rest| == 1 {
        assert [s[0]] + (rest[0] + r) == [s[0]] + rest[0] + r;
      }
    }
  }

  // ----- Joining below a directory

  lemma {:induction false} RootedExtends(dir: seq<string>, path: Path)
    requires Proper(path)
    ensures Rooted(dir + path) == Rooted(dir) + path
  {
    hide ProperSegment;
    if path == [] {
      assert dir + path == dir;
    } else {
      var front, last := path[..|path| - 1], path[|path| - 1];
      assert last in path && ProperSegment(last);
      NotSkipped(last);
      RootedExtends(dir, front);
      assert (dir + path)[..|dir + path| - 1] == dir + front;
      assert Rooted(dir) + path == Rooted(dir) + front + [last];
    }
  }

  lemma NotSkipped(s: string)
    requires ProperSegment(s)
    ensures s != "" && s != "."
  {
  }

  lemma RootedProper(path: Path)
    requires Proper(path)
    ensures Rooted(path) == path
  {
    RootedExtends([], path);
    assert [] + path == path;
  }

  /** A name is joined as itself. */
  lemma JoinedName(dir: Path, name: string)
    requires Proper(dir) && EntryName(name)
    ensures Joined(dir, name) == dir + [name]
  {
    SplitPlain(name);
    RootedProper(dir + [name]);
  }

  /** Two dots lead to the directory above. */
  lemma JoinedUp(dir: Path, name: string)
    requires Proper(dir) && EntryName(name)
    ensures Joined(dir + [name], "..") == dir
  {
    SplitPlain("..");
    RootedProper(dir + [name]);
    assert (dir + [name] + [".."])[..|dir| + 1] == dir + [name];
  }
}

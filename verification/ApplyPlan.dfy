/** The values of a landing: manifest entries, file changes, and the path rules they must meet. */
module ApplyPlan {
  import opened Common
  import opened Lifecycle
  import opened Paths

  datatype Action = Create | Modify | OtherAction(text: string)

  /** One manifest entry: which artifact goes where. */
  datatype Entry = Entry(artifact: string, path: string, action: Action)

  datatype FileChange = FileChange(path: string, action: Action, ref: ArtifactRef, baseDigest: string)

  // ----- Paths

  /** validatePath. */
  predicate PathValid(raw: string) {
    var path := TrimSpace(raw);
    && path != "" && '\\' !in path
    && path[0] != '/'
    && path == Clean(path)
    && path != ".." && !("../" <= path)
  }

  predicate ChangeValid(c: FileChange) {
    && PathValid(c.path)
    && (match c.action
        case Create => c.baseDigest == ""
        case Modify => IsDigest(c.baseDigest)
        case OtherAction(_) => false)
    && ValidRef(c.ref) && c.ref.kind != Evidence
  }

  predicate PathsDiffer(plan: seq<FileChange>) {
    forall i, j | 0 <= i < j < |plan| :: plan[i].path != plan[j].path
  }

  predicate PlanValid(plan: seq<FileChange>, diff: ArtifactRef) {
    && plan != []
    && (forall c | c in plan :: ChangeValid(c))
    && PathsDiffer(plan)
    && ValidRef(diff) && diff.kind == Diff
  }

  method ValidatePlan(plan: seq<FileChange>, diff: ArtifactRef) returns (ok: bool)
    ensures ok <==> PlanValid(plan, diff)
  {
    hide ChangeValid, ValidRef;
    if |plan| == 0 {
      return false;
    }
    var seen: set<string> := {};
    for i := 0 to |plan|
      invariant seen == set k | 0 <= k < i :: plan[k].path
      invariant forall k | 0 <= k < i :: ChangeValid(plan[k])
      invariant PathsDiffer(plan[..i])
    {
      assert plan[i] in plan;
      if !ChangeValid(plan[i]) || plan[i].path in seen {
        return false;
      }
      seen := seen + {plan[i].path};
    }
    assert plan[..|plan|] == plan;
    return ValidRef(diff) && diff.kind == Diff;
  }

  // ----- An accepted path is one file inside the tree

  lemma TrimmedSegments(raw: string)
    requires PathValid(raw) && TrimSpace(raw) != "."
    ensures forall segment | segment in Split(TrimSpace(raw)) :: EntryName(segment)
  {
    hide TrimSpace, Split, Join, Cleaned, Segment;
    var path := TrimSpace(raw);
    var parts := Cleaned(Split(path));
    SplitSegments(path);
    CleanedShape(Split(path));
    assert parts != [];
    SplitJoin(parts);
    assert Split(path) == parts;
    FirstSegment(parts);
    var first := parts[0];
    assert first != "..";
    assert forall k | 0 <= k < |parts| :: ProperSegment(parts[k]) && (parts[k] == ".." ==> first == "..");
  }

  lemma FirstSegment(parts: seq<string>)
    requires parts != []
    ensures parts[0] == ".." ==> Join(parts, "/") == ".." || "../" <= Join(parts, "/")
  {
  }

  lemma BlankHasNoSlash(s: string)
    requires Blank(s)
    ensures '/' !in s && (s != "" ==> s[0] != '.')
  {
    assert !IsSpace('/') && !IsSpace('.');
  }

  /** Space around a name makes another name of it. */
  lemma SpacedName(l: string, name: string, r: string)
    requires Blank(l) && Blank(r) && '/' !in name && name != ""
    ensures EntryName(name) || l != "" || r != "" ==> EntryName(l + name + r)
    ensures l + name + r != ""
  {
    BlankHasNoSlash(l);
    BlankHasNoSlash(r);
    hide IsSpace;
    var s := l + name + r;
    assert forall c | c in s :: c in l || c in name || c in r;
    if l == "" && r == "" {
      assert s == name;
    } else if l != "" {
      assert s[0] == l[0];
    } else {
      NotDots(s, r);
    }
  }

  lemma NotDots(s: string, r: string)
    requires r != "" && |r| < |s| && s[|s| - |r|..] == r && r[0] != '.'
    ensures s != "." && s != ".."
  {
    assert s[|s| - |r|] == r[0];
  }

  /** The segments of an accepted path, as it was given and with any space around it, are names of entries
      if and only if the path is not the dot, which stands for the tree itself. */
  lemma AcceptedPathStaysInside(raw: string)
    requires PathValid(raw)
    ensures (forall segment | segment in Split(raw) :: EntryName(segment)) <==> raw != "."
  {
    hide TrimSpace, Clean, Blank, Split;
    var path := TrimSpace(raw);
    var l, r := Surrounded(raw);
    BlankHasNoSlash(l);
    BlankHasNoSlash(r);
    assert raw == l + path + r;
    SplitSegments(path);
    if path == "." {
      SplitPlain(".");
      SplitSuffix(path, r);
      SplitPrefix(l, path + r);
      assert Split(raw) == [l + path + r] by { assert l + (path + r) == raw; }
      SpacedName(l, ".", r);
      if l == "" && r == "" {
        assert raw == ".";
      } else {
        OnlyDot(raw, l, r);
      }
    } else {
      TrimmedSegments(raw);
      SpacedSegments(path, l, r);
      PathIsNotDot(raw, l, path, r);
    }
  }

  lemma OnlyDot(raw: string, l: string, r: string)
    requires raw == l + "." + r && (l != "" || r != "")
    ensures raw != "."
  {
    assert |raw| > 1;
  }

  lemma PathIsNotDot(raw: string, l: string, path: string, r: string)
    requires raw == l + path + r && path != "." && path != ""
    ensures raw != "."
  {
    assert raw[|l|..|l| + |path|] == path;
  }

  lemma SpacedSegments(path: string, l: string, r: string)
    requires Blank(l) && Blank(r) && forall segment | segment in Split(path) :: EntryName(segment)
    ensures forall segment | segment in Split(l + path + r) :: EntryName(segment)
  {
    hide Blank, Split;
    BlankHasNoSlash(l);
    BlankHasNoSlash(r);
    var parts := Split(path);
    SplitSuffix(path, r);
    SplitPrefix(l, path + r);
    assert l + path + r == l + (path + r);
    assert forall k | 0 <= k < |parts| :: EntryName(parts[k]);
    if |parts| == 1 {
      SpacedName(l, parts[0], r);
      assert l + (parts[0] + r) == l + parts[0] + r;
    } else {
      NoSpace();
      SpacedName(l, parts[0], "");
      SpacedName("", Last(parts), r);
      assert l + parts[0] + "" == l + parts[0] && "" + Last(parts) + r == Last(parts) + r;
    }
  }

  lemma NoSpace()
    ensures Blank("")
  {
  }

  /** Exactly the paths without a backslash that, but for space around them, are the dot or made of names of
      entries are accepted. */
  lemma PathValidExactly(raw: string)
    ensures PathValid(raw) <==>
            && '\\' !in TrimSpace(raw)
            && (TrimSpace(raw) == "." || forall segment | segment in Split(TrimSpace(raw)) :: EntryName(segment))
  {
    hide TrimSpace;
    var path := TrimSpace(raw);
    if PathValid(raw) && path != "." {
      TrimmedSegments(raw);
    }
    if path == "." {
      SplitPlain(".");
      assert Cleaned([".."[..1]]) == [];
      assert Clean(".") == "." && !("../" <= ".");
    } else if forall segment | segment in Split(path) :: EntryName(segment) {
      NamesAreClean(path);
    }
  }

  lemma NamesAreClean(path: string)
    requires forall segment | segment in Split(path) :: EntryName(segment)
    ensures path != "" && path[0] != '/' && path == Clean(path) && path != ".." && !("../" <= path)
  {
    var parts := Split(path);
    SplitSegments(path);
    assert parts[0] in parts;
    CleanedNames(parts);
    if path == ".." {
      SplitPlain("..");
    }
  }

  lemma {:induction false} CleanedNames(parts: seq<string>)
    requires forall segment | segment in parts :: EntryName(segment)
    ensures Cleaned(parts) == parts
  {
    if parts != [] {
      assert parts[|parts| - 1] in parts;
      CleanedNames(parts[..|parts| - 1]);
    }
  }

  /** What the applier resolves an accepted path to: the path itself below the root of the tree. */
  lemma AcceptedPathResolves(root: Path, raw: string)
    requires Proper(root) && PathValid(raw)
    ensures Joined(root, raw) == if raw == "." then root else root + Split(raw)
  {
    hide PathValid, EntryName;
    AcceptedPathStaysInside(raw);
    if raw == "." {
      SplitPlain(".");
      RootedProper(root);
      assert (root + ["."])[..|root|] == root;
    } else {
      RootedProper(root + Split(raw));
    }
  }

  /** Different accepted paths are different files, so a plan whose paths differ as texts, with the space
      around them, names no file twice. */
  lemma DifferentPathsDifferentFiles(root: Path, a: string, b: string)
    requires Proper(root) && PathValid(a) && PathValid(b)
    ensures root <= Joined(root, a)
    ensures Joined(root, a) == Joined(root, b) <==> a == b
  {
    hide PathValid, Joined, Split;
    AcceptedPathResolves(root, a);
    AcceptedPathResolves(root, b);
    SplitSegments(a);
    SplitSegments(b);
    if Joined(root, a) == Joined(root, b) && a != "." && b != "." {
      assert Split(a) == (root + Split(a))[|root|..] && Split(b) == (root + Split(b))[|root|..];
    }
  }
}

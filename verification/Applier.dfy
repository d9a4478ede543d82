/** Landing a manifest in a source tree: plan, prepare everything, then write one file at a time through
    a tool that writes exactly or refuses, and stop at the first refusal. */
module Applier {
  import opened Common
  import opened Lifecycle
  import opened ApplyPlan

  /** What a path of the tree holds; anything but a regular file is unusable. */
  datatype Node = File(body: Bytes) | NotRegular

  type Tree = map<string, Node>

  const MAX_APPLY_BYTES := 0x80_0000
  const NEWLINE: Byte := 10

  /** The artifact bytes behind each reference, where they can be read at all. */
  type Bodies = map<ArtifactRef, Bytes>

  // ----- Planning

  /** readTarget: absent, present with its bytes, or an error. */
  datatype Target = Absent | Present(body: Bytes) | Unusable

  function TargetAt(t: Tree, path: string): Target {
    if path !in t then Absent
    else
      match t[path]
      case NotRegular => Unusable
      case File(body) => if |body| > MAX_APPLY_BYTES then Unusable else Present(body)
  }

  function Change(refs: seq<ArtifactRef>, entry: Entry, seen: Tree): Option<FileChange> {
    match LastNamed(refs, entry.artifact)
    case None => None
    case Some(ref) =>
      if !PathValid(entry.path) then None
      else
        var target := TargetAt(seen, entry.path);
        var change := FileChange(entry.path, entry.action, ref,
                                 if entry.action.Modify? && target.Present? then Sha256(target.body) else "");
        if target.Unusable? || (entry.action.Create? && !target.Absent?) || (entry.action.Modify? && !target.Present?)
           || !ChangeValid(change)
        then None else Some(change)
  }

  function Changes(refs: seq<ArtifactRef>, manifest: seq<Entry>, seen: seq<Tree>): Option<seq<FileChange>>
    requires |seen| == |manifest|
  {
    if manifest == [] then Some([])
    else
      var n := |manifest| - 1;
      match Changes(refs, manifest[..n], seen[..n])
      case None => None
      case Some(before) =>
        match Change(refs, manifest[n], seen[n])
        case None => None
        case Some(change) => Some(before + [change])
  }

  function Plan(refs: seq<ArtifactRef>, manifest: seq<Entry>, diff: ArtifactRef, seen: seq<Tree>): Option<seq<FileChange>>
    requires |seen| == |manifest|
  {
    match Changes(refs, manifest, seen)
    case None => None
    case Some(changes) => if PlanValid(changes, diff) then Some(changes) else None
  }

  // ----- Preparing

  datatype PendingWrite = PendingWrite(path: string, content: Bytes)

  function Glue(body: Bytes, fragment: Bytes): Bytes {
    body + (if body != [] && body[|body| - 1] != NEWLINE then [NEWLINE] else []) + fragment
  }

  function Compose(change: FileChange, artifact: Bytes, target: Target): Option<Bytes> {
    match change.action
    case Create => if target.Absent? then Some(artifact) else None
    case Modify =>
      if target.Present? && Sha256(target.body) == change.baseDigest then Some(Glue(target.body, artifact)) else None
    case OtherAction(_) => None
  }

  /** The artifact's bytes with the digest checked once more. */
  function Read(bodies: Bodies, ref: ArtifactRef): Option<Bytes> {
    if ref in bodies && |bodies[ref]| <= MAX_APPLY_BYTES && Sha256(bodies[ref]) == ref.digest then Some(bodies[ref])
    else None
  }

  function PrepareOne(change: FileChange, bodies: Bodies, seen: Tree): Option<PendingWrite> {
    var target := TargetAt(seen, change.path);
    var artifact := Read(bodies, change.ref);
    if !ChangeValid(change) || artifact.None? || target.Unusable? then None
    else
      match Compose(change, artifact.value, target)
      case None => None
      case Some(content) => Some(PendingWrite(change.path, content))
  }

  function PrepareAll(plan: seq<FileChange>, bodies: Bodies, seen: seq<Tree>): (r: Option<seq<PendingWrite>>)
    requires |seen| == |plan|
  {
    if plan == [] then Some([])
    else
      var n := |plan| - 1;
      match PrepareAll(plan[..n], bodies, seen[..n])
      case None => None
      case Some(before) =>
        match PrepareOne(plan[n], bodies, seen[n])
        case None => None
        case Some(p) => Some(before + [p])
  }

  lemma {:induction false} PreparedFollow(plan: seq<FileChange>, bodies: Bodies, seen: seq<Tree>)
    requires |seen| == |plan|
    ensures var r := PrepareAll(plan, bodies, seen);
            r.Some? ==> |r.value| == |plan|
                        && forall i | 0 <= i < |plan| :: PrepareOne(plan[i], bodies, seen[i]) == Some(r.value[i])
  {
    hide PrepareOne;
    if plan != [] {
      PreparedFollow(plan[..|plan| - 1], bodies, seen[..|plan| - 1]);
    }
  }

  // ----- Writing

  /** The first write the tool refuses, or the end. */
  function Landed(allowed: seq<bool>): (n: nat)
    ensures n <= |allowed| && (forall i | 0 <= i < n :: allowed[i]) && (n < |allowed| ==> !allowed[n])
  {
    if allowed == [] || !allowed[0] then 0 else 1 + Landed(allowed[1..])
  }

  function PathOf(w: PendingWrite): string {
    w.path
  }

  function EntryPath(e: Entry): string {
    e.path
  }

  function WriteAll(t: Tree, pending: seq<PendingWrite>): Tree {
    if pending == [] then t
    else WriteAll(t, pending[..|pending| - 1])[pending[|pending| - 1].path := File(pending[|pending| - 1].content)]
  }

  /** The report of a landing. */
  datatype Report = Report(written: seq<string>, skipped: seq<string>)

  /** One attempt: what plan and prepare saw of the tree at each of their reads (others may edit it
      meanwhile), and which writes the tool allows. */
  datatype Attempt = Attempt(planSaw: seq<Tree>, prepareSaw: seq<Tree>, allowed: seq<bool>)

  predicate Shaped(manifest: seq<Entry>, a: Attempt) {
    |a.planSaw| == |manifest| && |a.prepareSaw| == |manifest| && |a.allowed| == |manifest|
  }

  /** The pending writes of an attempt, if no check refused. */
  function Ready(refs: seq<ArtifactRef>, manifest: seq<Entry>, diff: ArtifactRef, bodies: Bodies, a: Attempt)
    : Option<seq<PendingWrite>>
    requires Shaped(manifest, a)
  {
    match Plan(refs, manifest, diff, a.planSaw)
    case None => None
    case Some(plan) => ChangesFollow(refs, manifest, a.planSaw); PrepareAll(plan, bodies, a.prepareSaw)
  }

  /** The tree an attempt leaves, starting from the tree at the first write, and its report. */
  function Outcome(t: Tree, refs: seq<ArtifactRef>, manifest: seq<Entry>, diff: ArtifactRef, bodies: Bodies, a: Attempt)
    : (Tree, Report)
    requires Shaped(manifest, a)
  {
    match Ready(refs, manifest, diff, bodies, a)
    case None => (t, Report([], []))
    case Some(pending) =>
      ReadyFollows(refs, manifest, diff, bodies, a);
      var n := Landed(a.allowed);
      (WriteAll(t, pending[..n]), Report(Map(PathOf, pending[..n]), Map(PathOf, pending[n..])))
  }

  lemma {:induction false} ChangesFollow(refs: seq<ArtifactRef>, manifest: seq<Entry>, seen: seq<Tree>)
    requires |seen| == |manifest|
    ensures var r := Changes(refs, manifest, seen);
            r.Some? ==> |r.value| == |manifest|
                        && forall i | 0 <= i < |manifest| :: Change(refs, manifest[i], seen[i]) == Some(r.value[i])
  {
    hide Change;
    if manifest != [] {
      ChangesFollow(refs, manifest[..|manifest| - 1], seen[..|manifest| - 1]);
    }
  }

  lemma ReadyFollows(refs: seq<ArtifactRef>, manifest: seq<Entry>, diff: ArtifactRef, bodies: Bodies, a: Attempt)
    requires Shaped(manifest, a)
    ensures var r := Ready(refs, manifest, diff, bodies, a);
            r.Some? ==> |r.value| == |manifest|
                        && Changes(refs, manifest, a.planSaw).Some?
                        && |Changes(refs, manifest, a.planSaw).value| == |manifest|
                        && PathsDiffer(Changes(refs, manifest, a.planSaw).value)
                        && forall i | 0 <= i < |manifest| ::
                             PrepareOne(Changes(refs, manifest, a.planSaw).value[i], bodies, a.prepareSaw[i]) == Some(r.value[i])
  {
    hide PrepareOne, Change, ChangeValid, ValidRef, PrepareAll;
    ChangesFollow(refs, manifest, a.planSaw);
    if Plan(refs, manifest, diff, a.planSaw).Some? {
      PreparedFollow(Plan(refs, manifest, diff, a.planSaw).value, bodies, a.prepareSaw);
    }
  }

  // ----- As it is performed

  method MakePlan(refs: seq<ArtifactRef>, manifest: seq<Entry>, diff: ArtifactRef, seen: seq<Tree>)
    returns (r: Option<seq<FileChange>>)
    requires |seen| == |manifest|
    ensures r == Plan(refs, manifest, diff, seen)
  {
    hide Change, PlanValid;
    var changes: seq<FileChange> := [];
    for i := 0 to |manifest|
      invariant Changes(refs, manifest[..i], seen[..i]) == Some(changes)
    {
      assert manifest[..i + 1][..i] == manifest[..i] && seen[..i + 1][..i] == seen[..i];
      var change := Change(refs, manifest[i], seen[i]);
      if change.None? {
        RefusedEarly(refs, manifest, seen, i + 1);
        return None;
      }
      changes := changes + [change.value];
    }
    assert manifest[..|manifest|] == manifest && seen[..|manifest|] == seen;
    var ok := ValidatePlan(changes, diff);
    if !ok {
      return None;
    }
    return Some(changes);
  }

  lemma {:induction false} RefusedEarly(refs: seq<ArtifactRef>, manifest: seq<Entry>, seen: seq<Tree>, n: nat)
    requires |seen| == |manifest| && n <= |manifest| && Changes(refs, manifest[..n], seen[..n]).None?
    ensures Changes(refs, manifest, seen).None?
  {
    hide Change;
    if n == |manifest| {
      assert manifest[..n] == manifest && seen[..n] == seen;
    } else {
      var m := |manifest| - 1;
      assert manifest[..m][..n] == manifest[..n] && seen[..m][..n] == seen[..n];
      RefusedEarly(refs, manifest[..m], seen[..m], n);
    }
  }

  method Prepare(plan: seq<FileChange>, bodies: Bodies, seen: seq<Tree>) returns (r: Option<seq<PendingWrite>>)
    requires |seen| == |plan|
    ensures r == PrepareAll(plan, bodies, seen)
  {
    hide PrepareOne;
    var pending: seq<PendingWrite> := [];
    for i := 0 to |plan|
      invariant PrepareAll(plan[..i], bodies, seen[..i]) == Some(pending)
    {
      assert plan[..i + 1][..i] == plan[..i] && seen[..i + 1][..i] == seen[..i];
      var next := PrepareOne(plan[i], bodies, seen[i]);
      if next.None? {
        UnpreparedEarly(plan, bodies, seen, i + 1);
        return None;
      }
      pending := pending + [next.value];
    }
    assert plan[..|plan|] == plan && seen[..|plan|] == seen;
    return Some(pending);
  }

  lemma {:induction false} UnpreparedEarly(plan: seq<FileChange>, bodies: Bodies, seen: seq<Tree>, n: nat)
    requires |seen| == |plan| && n <= |plan| && PrepareAll(plan[..n], bodies, seen[..n]).None?
    ensures PrepareAll(plan, bodies, seen).None?
  {
    hide PrepareOne;
    if n == |plan| {
      assert plan[..n] == plan && seen[..n] == seen;
    } else {
      var m := |plan| - 1;
      assert plan[..m][..n] == plan[..n] && seen[..m][..n] == seen[..n];
      UnpreparedEarly(plan[..m], bodies, seen[..m], n);
    }
  }

  /** The tree being written, behind the write tool. */
  class SourceTree {
    var files: Tree

    /** The audited write tool: it writes exactly or refuses. */
    method Write(path: string, content: Bytes, allowed: bool) returns (ok: bool)
      modifies this
      ensures ok == allowed
      ensures files == if ok then old(files)[path := File(content)] else old(files)
    {
      if allowed {
        files := files[path := File(content)];
      }
      return allowed;
    }

    /** The write loop: stop at the first refusal and report exactly what is on disk. */
    method WritePending(pending: seq<PendingWrite>, allowed: seq<bool>) returns (report: Report)
      requires |allowed| == |pending|
      modifies this
      ensures var n := Landed(allowed);
              files == WriteAll(old(files), pending[..n]) && report == Report(Map(PathOf, pending[..n]), Map(PathOf, pending[n..]))
    {
      report := Report([], []);
      for i := 0 to |pending|
        invariant i <= Landed(allowed)
        invariant files == WriteAll(old(files), pending[..i])
        invariant report == Report(Map(PathOf, pending[..i]), [])
      {
        assert pending[..i + 1][..i] == pending[..i];
        var ok := Write(pending[i].path, pending[i].content, allowed[i]);
        if !ok {
          var skipped := Remaining(pending, i);
          return report.(skipped := skipped);
        }
        report := report.(written := report.written + [pending[i].path]);
      }
      assert pending[|pending|..] == [];
    }

    method Remaining(pending: seq<PendingWrite>, from: nat) returns (skipped: seq<string>)
      requires from <= |pending|
      ensures skipped == Map(PathOf, pending[from..])
    {
      skipped := [];
      for k := from to |pending|
        invariant skipped == Map(PathOf, pending[from..k])
      {
        skipped := skipped + [pending[k].path];
      }
      assert pending[from..|pending|] == pending[from..];
    }

    method Apply(refs: seq<ArtifactRef>, manifest: seq<Entry>, diff: ArtifactRef, bodies: Bodies, a: Attempt)
      returns (report: Report)
      requires Shaped(manifest, a)
      modifies this
      ensures (files, report) == Outcome(old(files), refs, manifest, diff, bodies, a)
    {
      hide PrepareAll, Changes, PlanValid, WriteAll, Landed;
      report := Report([], []);
      var plan := MakePlan(refs, manifest, diff, a.planSaw);
      if plan.None? {
        return;
      }
      ChangesFollow(refs, manifest, a.planSaw);
      var ready := Prepare(plan.value, bodies, a.prepareSaw);
      if ready.None? {
        return;
      }
      PreparedFollow(plan.value, bodies, a.prepareSaw);
      report := WritePending(ready.value, a.allowed);
    }
  }

  // ----- Exact accounting

  /** From prepare's read of a planned path to the first write, nobody else edits that path. */
  predicate Undisturbed(t: Tree, manifest: seq<Entry>, a: Attempt)
    requires Shaped(manifest, a)
  {
    forall i | 0 <= i < |manifest| :: TargetAt(t, manifest[i].path) == TargetAt(a.prepareSaw[i], manifest[i].path)
  }

  /** The artifact the manifest entry names, as it is among the references. */
  predicate WrittenFrom(refs: seq<ArtifactRef>, bodies: Bodies, artifact: string, body: Bytes) {
    var ref := LastNamed(refs, artifact);
    ref.Some? && ref.value in bodies && bodies[ref.value] == body && Sha256(body) == ref.value.digest
  }

  lemma {:induction false} WriteAllWrites(t: Tree, pending: seq<PendingWrite>)
    requires forall i, j | 0 <= i < j < |pending| :: pending[i].path != pending[j].path
    ensures forall i | 0 <= i < |pending| ::
              pending[i].path in WriteAll(t, pending) && WriteAll(t, pending)[pending[i].path] == File(pending[i].content)
    ensures forall p | p !in Map(PathOf, pending) ::
              (p in WriteAll(t, pending) <==> p in t) && (p in t ==> WriteAll(t, pending)[p] == t[p])
  {
    if pending != [] {
      var front, last := pending[..|pending| - 1], pending[|pending| - 1];
      WriteAllWrites(t, front);
      forall p | p !in Map(PathOf, pending) ensures p !in Map(PathOf, front) && p != last.path {
        assert Map(PathOf, pending) == Map(PathOf, front) + [last.path];
      }
    }
  }

  /** The new file is the old one, the fragment, and between them nothing but a newline where the old one does not
      end in one. */
  predicate Appended(before: Bytes, fragment: Bytes, after: Bytes) {
    && |after| >= |before| + |fragment| && after[..|before|] == before && after[|after| - |fragment|..] == fragment
    && after[|before|..|after| - |fragment|] == if before == [] || before[|before| - 1] == 10 then [] else [10]
  }

  lemma GlueAppends(body: Bytes, fragment: Bytes)
    ensures Appended(body, fragment, Glue(body, fragment))
  {
    var middle := if body != [] && body[|body| - 1] != NEWLINE then [NEWLINE] else [];
    assert Glue(body, fragment)[|body|..|Glue(body, fragment)| - |fragment|] == middle;
  }

  lemma PreparedEntry(refs: seq<ArtifactRef>, entry: Entry, bodies: Bodies, planSaw: Tree, prepareSaw: Tree)
    requires Change(refs, entry, planSaw).Some?
    requires PrepareOne(Change(refs, entry, planSaw).value, bodies, prepareSaw).Some?
    ensures var p := PrepareOne(Change(refs, entry, planSaw).value, bodies, prepareSaw).value;
            && p.path == entry.path
            && (entry.action.Create? ==>
                  TargetAt(prepareSaw, entry.path).Absent? && WrittenFrom(refs, bodies, entry.artifact, p.content))
            && (!entry.action.Create? ==>
                  && entry.action.Modify?
                  && TargetAt(prepareSaw, entry.path).Present?
                  && exists fragment :: WrittenFrom(refs, bodies, entry.artifact, fragment)
                                        && Appended(TargetAt(prepareSaw, entry.path).body, fragment, p.content))
  {
    hide PathValid, ValidRef;
    var ref := LastNamed(refs, entry.artifact).value;
    var fragment := bodies[ref];
    assert WrittenFrom(refs, bodies, entry.artifact, fragment);
    if entry.action.Modify? {
      GlueAppends(TargetAt(prepareSaw, entry.path).body, fragment);
    }
  }

  /** What a written manifest entry did to its path. */
  ghost predicate Accounted(refs: seq<ArtifactRef>, bodies: Bodies, entry: Entry, t: Tree, after: Tree) {
    && entry.path in after && after[entry.path].File?
    && (entry.action.Create? ==>
          entry.path !in t && WrittenFrom(refs, bodies, entry.artifact, after[entry.path].body))
    && (!entry.action.Create? ==>
          && entry.action.Modify?
          && entry.path in t && t[entry.path].File?
          && exists fragment :: WrittenFrom(refs, bodies, entry.artifact, fragment)
                                && Appended(t[entry.path].body, fragment, after[entry.path].body))
  }

  /** For every tree, manifest and pattern of refusals. A refused check leaves the tree untouched.
      Otherwise written ++ skipped is the manifest's path list in order; the writes are those before the
      first refusal; each did exactly its entry's effect; and no other path changed. */
  lemma LandingIsExact(t: Tree, refs: seq<ArtifactRef>, manifest: seq<Entry>, diff: ArtifactRef, bodies: Bodies, a: Attempt)
    requires Shaped(manifest, a) && Undisturbed(t, manifest, a)
    ensures var (after, report) := Outcome(t, refs, manifest, diff, bodies, a);
            if Ready(refs, manifest, diff, bodies, a).None? then after == t && report == Report([], [])
            else
              && report.written + report.skipped == Map(EntryPath, manifest)
              && |report.written| == Landed(a.allowed)
              && (forall i | 0 <= i < |report.written| :: Accounted(refs, bodies, manifest[i], t, after))
              && (forall p | p !in report.written :: (p in after <==> p in t) && (p in t ==> after[p] == t[p]))
  {
    hide PrepareAll, Changes, Change, PrepareOne, WriteAll, Landed, TargetAt, WrittenFrom, Accounted;
    if Ready(refs, manifest, diff, bodies, a).Some? {
      var pending := Ready(refs, manifest, diff, bodies, a).value;
      ReadyFollows(refs, manifest, diff, bodies, a);
      ChangesFollow(refs, manifest, a.planSaw);
      var n := Landed(a.allowed);
      forall i | 0 <= i < |manifest| ensures pending[i].path == manifest[i].path {
        PreparedEntry(refs, manifest[i], bodies, a.planSaw[i], a.prepareSaw[i]);
      }
      PendingDiffer(refs, manifest, pending, a);
      WriteAllWrites(t, pending[..n]);
      forall i | 0 <= i < n ensures Accounted(refs, bodies, manifest[i], t, WriteAll(t, pending[..n])) {
        PreparedEntry(refs, manifest[i], bodies, a.planSaw[i], a.prepareSaw[i]);
        EntryAccounted(t, refs, manifest[i], bodies, a.planSaw[i], a.prepareSaw[i], pending[i].content,
                       WriteAll(t, pending[..n]));
      }
      assert Map(PathOf, pending[..n]) + Map(PathOf, pending[n..]) == Map(EntryPath, manifest);
    }
  }

  lemma PendingDiffer(refs: seq<ArtifactRef>, manifest: seq<Entry>, pending: seq<PendingWrite>, a: Attempt)
    requires Shaped(manifest, a) && |pending| == |manifest|
    requires forall i | 0 <= i < |manifest| :: pending[i].path == manifest[i].path
    requires Changes(refs, manifest, a.planSaw).Some? && PathsDiffer(Changes(refs, manifest, a.planSaw).value)
    ensures forall i, j | 0 <= i < j < |pending| :: pending[i].path != pending[j].path
  {
    hide ChangeValid, PathValid, TargetAt;
    ChangesFollow(refs, manifest, a.planSaw);
    var changes := Changes(refs, manifest, a.planSaw).value;
    assert forall i | 0 <= i < |manifest| :: changes[i].path == manifest[i].path;
  }

  lemma EntryAccounted(t: Tree, refs: seq<ArtifactRef>, entry: Entry, bodies: Bodies, planSaw: Tree, prepareSaw: Tree,
                       content: Bytes, after: Tree)
    requires Change(refs, entry, planSaw).Some?
    requires PrepareOne(Change(refs, entry, planSaw).value, bodies, prepareSaw) == Some(PendingWrite(entry.path, content))
    requires TargetAt(t, entry.path) == TargetAt(prepareSaw, entry.path)
    requires entry.path in after && after[entry.path] == File(content)
    ensures Accounted(refs, bodies, entry, t, after)
  {
    hide Change, PrepareOne, WrittenFrom, Glue, Appended;
    PreparedEntry(refs, entry, bodies, planSaw, prepareSaw);
  }

  /** An edit made between prepare's read of a path and the write is lost: what is written is composed
      from the bytes that were read, whatever the tree holds by then. */
  lemma LateEditIsOverwritten(t: Tree, refs: seq<ArtifactRef>, manifest: seq<Entry>, diff: ArtifactRef, bodies: Bodies,
                              a: Attempt, i: nat)
    requires Shaped(manifest, a) && Ready(refs, manifest, diff, bodies, a).Some?
    requires i < Landed(a.allowed) && manifest[i].action.Modify?
    ensures TargetAt(a.prepareSaw[i], manifest[i].path).Present?
    ensures var (after, report) := Outcome(t, refs, manifest, diff, bodies, a);
            && manifest[i].path in after && after[manifest[i].path].File?
            && exists fragment :: WrittenFrom(refs, bodies, manifest[i].artifact, fragment)
                 && Appended(TargetAt(a.prepareSaw[i], manifest[i].path).body, fragment, after[manifest[i].path].body)
  {
    hide PrepareAll, Changes, Change, PrepareOne, WriteAll, Landed, TargetAt, WrittenFrom, Glue, Appended;
    var pending := Ready(refs, manifest, diff, bodies, a).value;
    ReadyFollows(refs, manifest, diff, bodies, a);
    ChangesFollow(refs, manifest, a.planSaw);
    var n := Landed(a.allowed);
    forall k | 0 <= k < |manifest| ensures pending[k].path == manifest[k].path {
      PreparedEntry(refs, manifest[k], bodies, a.planSaw[k], a.prepareSaw[k]);
    }
    PendingDiffer(refs, manifest, pending, a);
    WriteAllWrites(t, pending[..n]);
    PreparedEntry(refs, manifest[i], bodies, a.planSaw[i], a.prepareSaw[i]);
    assert pending[..n][i] == pending[i];
  }

  // ----- When an apply goes through

  /** The artifact of the entry is there, whole, and may be landed. */
  predicate ArtifactReady(refs: seq<ArtifactRef>, bodies: Bodies, artifact: string) {
    var ref := LastNamed(refs, artifact);
    && ref.Some? && ValidRef(ref.value) && ref.value.kind != Evidence
    && ref.value in bodies && |bodies[ref.value]| <= MAX_APPLY_BYTES && Sha256(bodies[ref.value]) == ref.value.digest
  }

  predicate Usable(t: Tree, path: string) {
    path in t && t[path].File? && |t[path].body| <= MAX_APPLY_BYTES
  }

  /** The tree is as the entry needs it, at both looks: nothing where a file is created, and where one is appended to
      a file of the same content. */
  predicate TreeReady(entry: Entry, planSaw: Tree, prepareSaw: Tree) {
    && (entry.action.Create? || entry.action.Modify?)
    && (entry.action.Create? ==> entry.path !in planSaw && entry.path !in prepareSaw)
    && (entry.action.Modify? ==>
          && Usable(planSaw, entry.path) && Usable(prepareSaw, entry.path)
          && Sha256(planSaw[entry.path].body) == Sha256(prepareSaw[entry.path].body))
  }

  predicate EntryReady(refs: seq<ArtifactRef>, bodies: Bodies, entry: Entry, planSaw: Tree, prepareSaw: Tree) {
    PathValid(entry.path) && ArtifactReady(refs, bodies, entry.artifact) && TreeReady(entry, planSaw, prepareSaw)
  }

  lemma EntryPasses(refs: seq<ArtifactRef>, bodies: Bodies, entry: Entry, planSaw: Tree, prepareSaw: Tree)
    ensures EntryReady(refs, bodies, entry, planSaw, prepareSaw) <==>
            && Change(refs, entry, planSaw).Some?
            && PrepareOne(Change(refs, entry, planSaw).value, bodies, prepareSaw).Some?
  {
    hide PathValid, ValidRef, LastNamed, Glue;
  }

  lemma {:induction false} ChangesExist(refs: seq<ArtifactRef>, manifest: seq<Entry>, seen: seq<Tree>)
    requires |seen| == |manifest| && forall i | 0 <= i < |manifest| :: Change(refs, manifest[i], seen[i]).Some?
    ensures Changes(refs, manifest, seen).Some?
  {
    hide Change;
    if manifest != [] {
      ChangesExist(refs, manifest[..|manifest| - 1], seen[..|manifest| - 1]);
    }
  }

  lemma {:induction false} PreparedExist(plan: seq<FileChange>, bodies: Bodies, seen: seq<Tree>)
    requires |seen| == |plan| && forall i | 0 <= i < |plan| :: PrepareOne(plan[i], bodies, seen[i]).Some?
    ensures PrepareAll(plan, bodies, seen).Some?
  {
    hide PrepareOne;
    if plan != [] {
      PreparedExist(plan[..|plan| - 1], bodies, seen[..|plan| - 1]);
    }
  }

  predicate ManifestReady(refs: seq<ArtifactRef>, manifest: seq<Entry>, diff: ArtifactRef, bodies: Bodies, a: Attempt)
    requires Shaped(manifest, a)
  {
    && manifest != [] && ValidRef(diff) && diff.kind == Diff
    && (forall i, j | 0 <= i < j < |manifest| :: manifest[i].path != manifest[j].path)
    && (forall i | 0 <= i < |manifest| :: EntryReady(refs, bodies, manifest[i], a.planSaw[i], a.prepareSaw[i]))
  }

  lemma ChangeKeepsPath(refs: seq<ArtifactRef>, entry: Entry, seen: Tree)
    requires Change(refs, entry, seen).Some?
    ensures Change(refs, entry, seen).value.path == entry.path && ChangeValid(Change(refs, entry, seen).value)
  {
    hide PathValid, ValidRef, LastNamed;
  }

  /** All checks pass if and only if the manifest is not empty, its paths differ and are valid, the diff is one, every
      artifact is there, and the tree is as each entry needs it. */
  lemma ReadyExactly(refs: seq<ArtifactRef>, manifest: seq<Entry>, diff: ArtifactRef, bodies: Bodies, a: Attempt)
    requires Shaped(manifest, a)
    ensures Ready(refs, manifest, diff, bodies, a).Some? <==> ManifestReady(refs, manifest, diff, bodies, a)
  {
    hide Change, PrepareOne, PrepareAll, Changes, EntryReady, ValidRef, ChangeValid;
    ChangesFollow(refs, manifest, a.planSaw);
    forall i | 0 <= i < |manifest|
      ensures EntryReady(refs, bodies, manifest[i], a.planSaw[i], a.prepareSaw[i]) <==>
              && Change(refs, manifest[i], a.planSaw[i]).Some?
              && PrepareOne(Change(refs, manifest[i], a.planSaw[i]).value, bodies, a.prepareSaw[i]).Some?
    {
      EntryPasses(refs, bodies, manifest[i], a.planSaw[i], a.prepareSaw[i]);
    }
    if Changes(refs, manifest, a.planSaw).Some? {
      var plan := Changes(refs, manifest, a.planSaw).value;
      forall i | 0 <= i < |plan| ensures plan[i].path == manifest[i].path && ChangeValid(plan[i]) {
        ChangeKeepsPath(refs, manifest[i], a.planSaw[i]);
      }
      PreparedFollow(plan, bodies, a.prepareSaw);
      if forall i | 0 <= i < |plan| :: PrepareOne(plan[i], bodies, a.prepareSaw[i]).Some? {
        PreparedExist(plan, bodies, a.prepareSaw);
      }
    } else if forall i | 0 <= i < |manifest| :: Change(refs, manifest[i], a.planSaw[i]).Some? {
      ChangesExist(refs, manifest, a.planSaw);
    }
  }

  /** Then, and if no write is refused, everything lands; with `LandingIsExact` this says what is on disk. */
  lemma EverythingLands(t: Tree, refs: seq<ArtifactRef>, manifest: seq<Entry>, diff: ArtifactRef, bodies: Bodies,
                        a: Attempt)
    requires Shaped(manifest, a) && ManifestReady(refs, manifest, diff, bodies, a) && Undisturbed(t, manifest, a)
    requires forall i | 0 <= i < |a.allowed| :: a.allowed[i]
    ensures var report := Outcome(t, refs, manifest, diff, bodies, a).1;
            report.written == Map(EntryPath, manifest) && report.skipped == []
  {
    hide Ready, ManifestReady, Undisturbed, Accounted, Map;
    ReadyExactly(refs, manifest, diff, bodies, a);
    LandingIsExact(t, refs, manifest, diff, bodies, a);
    NothingRefused(a.allowed);
  }

  lemma {:induction false} NothingRefused(allowed: seq<bool>)
    requires forall i | 0 <= i < |allowed| :: allowed[i]
    ensures Landed(allowed) == |allowed|
  {
    if allowed != [] {
      NothingRefused(allowed[1..]);
    }
  }

  // ----- Many applies

  /** One apply of a run: the tree as others left it, and what the project holds by then. References, diff and
      artifact bytes may differ from apply to apply: a recorded apply adds its receipt, a redo of emit replaces
      all of them. */
  datatype Apply = Apply(
    before: Tree, refs: seq<ArtifactRef>, manifest: seq<Entry>, diff: ArtifactRef, bodies: Bodies, attempt: Attempt)

  predicate AllShaped(runs: seq<Apply>) {
    forall r | r in runs :: Shaped(r.manifest, r.attempt)
  }

  function Done(run: Apply): (Tree, Report)
    requires Shaped(run.manifest, run.attempt)
  {
    Outcome(run.before, run.refs, run.manifest, run.diff, run.bodies, run.attempt)
  }

  predicate CreatesFirst(path: string, manifest: seq<Entry>) {
    manifest != [] && manifest[0].action.Create? && manifest[0].path == path
  }

  /** Nobody but the applier takes the device file away: once an apply has written it, every later one that
      looks for it finds it. */
  predicate DeviceStays(path: string, runs: seq<Apply>)
    requires AllShaped(runs)
  {
    forall i, j | 0 <= i < j < |runs| && Wrote(path, runs, i) :: forall seen | seen in runs[j].attempt.planSaw :: path in seen
  }

  predicate Wrote(path: string, runs: seq<Apply>, i: nat)
    requires AllShaped(runs) && i < |runs|
  {
    assert runs[i] in runs;
    path in Done(runs[i]).1.written
  }

  /** An apply that writes anything writes its manifest's first entry. */
  lemma FirstIsWritten(run: Apply)
    requires Shaped(run.manifest, run.attempt) && run.manifest != [] && Done(run).1.written != []
    ensures run.manifest[0].path in Done(run).1.written
    ensures run.manifest[0].path in Done(run).0
  {
    hide PrepareAll, Changes, Change, PrepareOne, WriteAll, Landed, WrittenFrom;
    var pending := Ready(run.refs, run.manifest, run.diff, run.bodies, run.attempt).value;
    ReadyFollows(run.refs, run.manifest, run.diff, run.bodies, run.attempt);
    ChangesFollow(run.refs, run.manifest, run.attempt.planSaw);
    forall i | 0 <= i < |run.manifest| ensures pending[i].path == run.manifest[i].path {
      PreparedEntry(run.refs, run.manifest[i], run.bodies, run.attempt.planSaw[i], run.attempt.prepareSaw[i]);
    }
    PendingDiffer(run.refs, run.manifest, pending, run.attempt);
    var n := Landed(run.attempt.allowed);
    WriteAllWrites(run.before, pending[..n]);
    assert Done(run).1.written[0] == pending[..n][0].path;
  }

  /** A plan is refused where the file to create is there. */
  lemma RefusedWherePresent(run: Apply)
    requires Shaped(run.manifest, run.attempt) && run.manifest != [] && run.manifest[0].action.Create?
    requires run.manifest[0].path in run.attempt.planSaw[0]
    ensures Done(run) == (run.before, Report([], []))
  {
    hide PrepareAll, Changes, PrepareOne, WriteAll, ChangeValid, PathValid;
    ChangesFollow(run.refs, run.manifest, run.attempt.planSaw);
    assert Change(run.refs, run.manifest[0], run.attempt.planSaw[0]).None?;
  }

  /** When every manifest creates the device file first, at most one apply of a run writes anything, whatever
      was recorded or emitted anew in between and whoever edits the tree, so each build fragment is appended at
      most once. */
  lemma AtMostOneAttemptWrites(path: string, runs: seq<Apply>, i: nat, j: nat)
    requires AllShaped(runs) && (forall r | r in runs :: CreatesFirst(path, r.manifest)) && DeviceStays(path, runs)
    requires i < j < |runs| && Done(runs[i]).1.written != []
    ensures Done(runs[j]) == (runs[j].before, Report([], []))
  {
    hide Done;
    assert runs[i] in runs && runs[j] in runs;
    FirstIsWritten(runs[i]);
    assert Wrote(path, runs, i);
    assert runs[j].attempt.planSaw[0] in runs[j].attempt.planSaw;
    RefusedWherePresent(runs[j]);
  }
}

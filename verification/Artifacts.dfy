/** The content-addressed artifact store, on a file system of which it uses the directory of one project:
    staged files, committed files and the manifest. Writes, renames and removals are atomic and may fail;
    `io` counts how many disk operations of a call succeed before the one that ends it. */
module Artifacts {
  import opened Common
  import opened Lifecycle
  import opened Paths

  datatype Draft = Draft(stage: Stage, name: string, kind: Kind, body: Bytes)

  /** `home` is the directory of the project. `files` are all regular files there are, but for its
      manifest, whose lines are `manifest`. */
  datatype Tree = Tree(home: Path, files: map<Path, Bytes>, manifest: seq<ArtifactRef>)

  /** The handle of a staged batch; `dir` is the staging directory it claims, cleaned. */
  datatype Batch = Batch(project: string, id: string, dir: Path, refs: seq<ArtifactRef>)

  datatype Limits = Limits(maxArtifact: nat, maxProject: nat)

  // ----- Places

  const STAGING := "staging"
  const MANIFEST_FILE := "manifest.jsonl"

  function StageName(s: Stage): string {
    match s
    case Plan => "plan"
    case Extract => "extract"
    case Infer => "infer"
    case Emit => "emit"
    case Verify => "verify"
    case Unknown(name) => name
  }

  predicate IsStageName(s: string) {
    s == "plan" || s == "extract" || s == "infer" || s == "emit" || s == "verify"
  }

  /** <home>/<stage>/<id>-<name>. */
  function PathOf(home: Path, ref: ArtifactRef): Path {
    home + [StageName(ref.stage), ref.id + "-" + ref.name]
  }

  function StagingRoot(home: Path): Path {
    home + [STAGING]
  }

  /** The directory a batch id stands for: the id is joined as it is. */
  function DirOf(home: Path, id: string): Path {
    Joined(StagingRoot(home), id)
  }

  /** <dir>/<stage>/<name>. */
  function SourceOf(dir: Path, stage: Stage, name: string): Path {
    dir + [StageName(stage), name]
  }

  predicate Staged(home: Path, path: Path) {
    StagingRoot(home) <= path
  }

  /** The path of a committed artifact of the project. */
  predicate IsCommitted(home: Path, path: Path) {
    home <= path && |path| == |home| + 2 && IsStageName(path[|home|])
  }

  /** The staging directory of the handle is the project's staging directory or below it. */
  predicate Contained(home: Path, id: string) {
    Staged(home, DirOf(home, id))
  }

  lemma StageNames(s: Stage)
    ensures Known(s) ==> IsStageName(StageName(s))
    ensures !IsStageName(STAGING) && !IsStageName(MANIFEST_FILE) && STAGING != MANIFEST_FILE
    ensures EntryName(STAGING)
  {
    assert |STAGING| == 7 && STAGING[0] == 's' && |"extract"| == 7 && "extract"[0] == 'e' && |MANIFEST_FILE| == 14;
  }

  lemma CommittedPath(home: Path, ref: ArtifactRef)
    requires Known(ref.stage)
    ensures IsCommitted(home, PathOf(home, ref))
  {
    hide IsStageName, StageName;
    StageNames(ref.stage);
  }

  /** No staged file is a committed one. */
  lemma StagedIsNotCommitted(home: Path, path: Path)
    requires Staged(home, path)
    ensures !IsCommitted(home, path) && home <= path
  {
    hide IsStageName;
    StageNames(Plan);
    assert path[|home|] == STAGING;
  }

  function RefOf(d: Draft, now: nat): ArtifactRef {
    ArtifactRef(IdOf(Sha256(d.body)), d.stage, d.name, d.kind, |d.body|, Sha256(d.body), now)
  }

  function RefsOfDrafts(drafts: seq<Draft>, now: nat): (refs: seq<ArtifactRef>)
    ensures |refs| == |drafts|
  {
    seq(|drafts|, i requires 0 <= i < |drafts| => RefOf(drafts[i], now))
  }

  // ----- Reading

  function Open(t: Tree, ref: ArtifactRef): Option<Bytes> {
    var path := PathOf(t.home, ref);
    if ValidRef(ref) && path in t.files && Sha256(t.files[path]) == ref.digest then Some(t.files[path]) else None
  }

  predicate Opens(t: Tree, ref: ArtifactRef) {
    Open(t, ref).Some?
  }

  predicate AllOpen(t: Tree, refs: seq<ArtifactRef>) {
    forall ref | ref in refs :: Opens(t, ref)
  }

  // ----- Staging

  predicate DraftOk(d: Draft, limits: Limits) {
    && ValidName(d.name) && Known(d.stage) && KindAccepted(d.kind)
    && 0 < |d.body| <= limits.maxArtifact
  }

  predicate SameFile(a: Draft, b: Draft) {
    a.stage == b.stage && a.name == b.name
  }

  predicate DraftsOk(drafts: seq<Draft>, limits: Limits) {
    && drafts != []
    && (forall d | d in drafts :: DraftOk(d, limits))
    && (forall i, j | 0 <= i < j < |drafts| :: !SameFile(drafts[i], drafts[j]))
  }

  function BodyBytes(drafts: seq<Draft>): nat {
    if drafts == [] then 0 else BodyBytes(drafts[..|drafts| - 1]) + |drafts[|drafts| - 1].body|
  }

  /** The files after the drafts were written in order. */
  function WriteDrafts(files: map<Path, Bytes>, dir: Path, drafts: seq<Draft>): map<Path, Bytes> {
    if drafts == [] then files
    else
      var d := drafts[|drafts| - 1];
      WriteDrafts(files, dir, drafts[..|drafts| - 1])[SourceOf(dir, d.stage, d.name) := d.body]
  }

  /** Everything is checked before the first byte is written. */
  ghost predicate StageAccepts(t: Tree, project: string, drafts: seq<Draft>, batch: string, limits: Limits) {
    && ValidProjectId(project) && ValidName(TrimSpace(batch))
    && DraftsOk(drafts, limits)
    && Used(t) + BodyBytes(drafts) <= limits.maxProject
  }

  /** `batch` is what the generator of batch ids gave. */
  ghost function Stage(t: Tree, project: string, drafts: seq<Draft>, batch: string, now: nat, limits: Limits, io: nat)
    : (Tree, Option<Batch>)
  {
    var id := TrimSpace(batch);
    var dir := DirOf(t.home, id);
    if !StageAccepts(t, project, drafts, batch, limits) then (t, None)
    else if io < |drafts| then (t.(files := WriteDrafts(t.files, dir, drafts[..io])), None)
    else (t.(files := WriteDrafts(t.files, dir, drafts)), Some(Batch(project, id, dir, RefsOfDrafts(drafts, now))))
  }

  // ----- Committing

  /** checkBatch: the id itself is not looked at. */
  predicate BatchOk(home: Path, project: string, batch: Batch) {
    && batch.project == project && ValidProjectId(project)
    && batch.refs != []
    && batch.dir == DirOf(home, batch.id)
    && forall ref | ref in batch.refs :: ValidRef(ref)
  }

  /** The check and the rename of one reference; None when the content does not match. */
  function CommitRef(t: Tree, dir: Path, ref: ArtifactRef): Option<Tree> {
    var target, source := PathOf(t.home, ref), SourceOf(dir, ref.stage, ref.name);
    if target in t.files then
      if Sha256(t.files[target]) == ref.digest then Some(t) else None
    else if source in t.files && Sha256(t.files[source]) == ref.digest then
      Some(t.(files := (t.files - {source})[target := t.files[source]]))
    else None
  }

  function CommitRefs(t: Tree, dir: Path, refs: seq<ArtifactRef>, io: nat): (Tree, bool)
    decreases |refs|
  {
    if refs == [] then (t, true)
    else if io == 0 then (t, false)
    else
      match CommitRef(t, dir, refs[0])
      case None => (t, false)
      case Some(t') => CommitRefs(t', dir, refs[1..], io - 1)
  }

  /** os.RemoveAll of a directory. */
  function RemoveAll(t: Tree, dir: Path): Tree {
    t.(files := map p | p in t.files && !(dir <= p) :: t.files[p],
       manifest := if dir <= t.home + [MANIFEST_FILE] then [] else t.manifest)
  }

  function Commit(t: Tree, project: string, batch: Batch, io: nat): (Tree, bool) {
    if !BatchOk(t.home, project, batch) then (t, false)
    else
      var (t1, ok) := CommitRefs(t, batch.dir, batch.refs, io);
      if !ok || io < |batch.refs| + 1 then (t1, false)
      else
        var t2 := t1.(manifest := t1.manifest + batch.refs);
        if io < |batch.refs| + 2 then (t2, false) else (RemoveAll(t2, batch.dir), true)
  }

  function Discard(t: Tree, project: string, batch: Batch, io: nat): (Tree, bool) {
    if BatchOk(t.home, project, batch) && io > 0 then (RemoveAll(t, batch.dir), true) else (t, false)
  }

  // ----- The bytes a project occupies

  ghost function Size<K>(m: map<K, Bytes>): nat {
    if m == map[] then 0 else var k :| k in m; |m[k]| + Size(m - {k})
  }

  lemma {:induction false} SizeRemove<K>(m: map<K, Bytes>, k: K)
    requires k in m
    ensures Size(m) == |m[k]| + Size(m - {k})
    decreases |m|
  {
    var j :| j in m && Size(m) == |m[j]| + Size(m - {j});
    if j != k {
      SizeRemove(m - {j}, k);
      SizeRemove(m - {k}, j);
      assert m - {j} - {k} == m - {k} - {j};
    }
  }

  lemma SizeUpdate<K>(m: map<K, Bytes>, k: K, b: Bytes)
    ensures Size(m[k := b]) <= Size(m) + |b|
    ensures k !in m ==> Size(m[k := b]) == Size(m) + |b|
  {
    SizeRemove(m[k := b], k);
    if k in m {
      SizeRemove(m, k);
      assert m[k := b] - {k} == m - {k};
    } else {
      assert m[k := b] - {k} == m;
    }
  }

  lemma {:induction false} SizeSubset<K>(small: map<K, Bytes>, big: map<K, Bytes>)
    requires Extends(small, big)
    ensures Size(small) <= Size(big)
    decreases |small|
  {
    if small != map[] {
      var k :| k in small;
      SizeRemove(small, k);
      SizeRemove(big, k);
      SizeSubset(small - {k}, big - {k});
    }
  }

  function Below(files: map<Path, Bytes>, dir: Path): map<Path, Bytes> {
    map p | p in files && dir <= p :: files[p]
  }

  /** What projectBytes measures: every file below the project, the manifest excluded. */
  ghost function Used(t: Tree): nat {
    Size(Below(t.files, t.home))
  }

  lemma BelowUpdate(files: map<Path, Bytes>, dir: Path, p: Path, b: Bytes)
    ensures Below(files[p := b], dir) == if dir <= p then Below(files, dir)[p := b] else Below(files, dir)
  {
  }

  lemma BelowRemove(files: map<Path, Bytes>, dir: Path, p: Path)
    ensures Below(files - {p}, dir) == Below(files, dir) - {p}
  {
  }

  lemma {:induction false} WriteDraftsSize(files: map<Path, Bytes>, home: Path, dir: Path, drafts: seq<Draft>)
    ensures Size(Below(WriteDrafts(files, dir, drafts), home)) <= Size(Below(files, home)) + BodyBytes(drafts)
  {
    hide Size, Below;
    if drafts != [] {
      var d := drafts[|drafts| - 1];
      var before := WriteDrafts(files, dir, drafts[..|drafts| - 1]);
      var path := SourceOf(dir, d.stage, d.name);
      WriteDraftsSize(files, home, dir, drafts[..|drafts| - 1]);
      BelowUpdate(before, home, path, d.body);
      SizeUpdate(Below(before, home), path, d.body);
    }
  }

  lemma {:induction false} BodyBytesPrefix(drafts: seq<Draft>, n: nat)
    requires n <= |drafts|
    ensures BodyBytes(drafts[..n]) <= BodyBytes(drafts)
  {
    if n < |drafts| {
      BodyBytesPrefix(drafts[..|drafts| - 1], n);
      assert drafts[..|drafts| - 1][..n] == drafts[..n];
    } else {
      assert drafts[..n] == drafts;
    }
  }

  // ----- Where a handle leads

  /** A usable name is joined below the staging directory as itself. */
  lemma NameIsContained(home: Path, id: string)
    requires Proper(home) && ValidName(id) && TrimSpace(id) == id
    ensures DirOf(home, id) == StagingRoot(home) + [id] && Contained(home, id)
  {
    hide TrimSpace;
    StageNames(Plan);
    assert EntryName(id);
    JoinedName(StagingRoot(home), id);
  }

  /** So every handle that Stage returned is contained. */
  lemma StagedIsContained(t: Tree, project: string, drafts: seq<Draft>, batch: string, now: nat, limits: Limits, io: nat)
    requires Proper(t.home)
    ensures var (t', handle) := Stage(t, project, drafts, batch, now, limits, io);
            handle.Some? ==> BatchIsContained(t.home, handle.value) && t'.home == t.home
  {
    hide ValidName, DraftsOk, Used, Contained, DirOf;
    TrimSpaceTrims(batch);
    TrimSpaceTrims(TrimSpace(batch));
    if StageAccepts(t, project, drafts, batch, limits) {
      NameIsContained(t.home, TrimSpace(batch));
    }
  }

  predicate BatchIsContained(home: Path, batch: Batch) {
    batch.dir == DirOf(home, batch.id) && Contained(home, batch.id)
  }

  // ----- Committed artifacts are permanent

  /** No committed artifact is changed or removed, and no line of the manifest. */
  ghost predicate Keeps(t: Tree, t': Tree) {
    && t'.home == t.home
    && (forall p | p in t.files && IsCommitted(t.home, p) :: p in t'.files && t'.files[p] == t.files[p])
    && t.manifest <= t'.manifest
  }

  lemma KeepsTransitive(a: Tree, b: Tree, c: Tree)
    requires Keeps(a, b) && Keeps(b, c)
    ensures Keeps(a, c)
  {
    hide IsCommitted;
  }

  lemma OpensLater(t: Tree, t': Tree, ref: ArtifactRef)
    requires Keeps(t, t') && Opens(t, ref)
    ensures Open(t', ref) == Open(t, ref)
  {
    hide IsCommitted, PathOf;
    assert ValidRef(ref);
    CommittedPath(t.home, ref);
  }

  lemma {:induction false} WriteDraftsKeeps(t: Tree, dir: Path, drafts: seq<Draft>)
    requires Staged(t.home, dir)
    ensures Keeps(t, t.(files := WriteDrafts(t.files, dir, drafts)))
  {
    hide Staged, IsCommitted;
    if drafts != [] {
      var d := drafts[|drafts| - 1];
      WriteDraftsKeeps(t, dir, drafts[..|drafts| - 1]);
      SourceIsStaged(t.home, dir, d.stage, d.name);
      StagedIsNotCommitted(t.home, SourceOf(dir, d.stage, d.name));
    }
  }

  lemma SourceIsStaged(home: Path, dir: Path, stage: Stage, name: string)
    requires Staged(home, dir)
    ensures Staged(home, SourceOf(dir, stage, name)) && home <= SourceOf(dir, stage, name)
  {
  }

  lemma StageEffect(t: Tree, project: string, drafts: seq<Draft>, batch: string, now: nat, limits: Limits, io: nat)
    requires Proper(t.home)
    ensures var (t', handle) := Stage(t, project, drafts, batch, now, limits, io);
            Keeps(t, t') && (Used(t) <= limits.maxProject ==> Used(t') <= limits.maxProject)
  {
    hide Contained, DraftsOk, Size, Below, Staged, IsCommitted, ValidName, DirOf;
    if StageAccepts(t, project, drafts, batch, limits) {
      var id := TrimSpace(batch);
      TrimSpaceTrims(batch);
      TrimSpaceTrims(id);
      NameIsContained(t.home, id);
      ContainedIsStaged(t.home, id);
      var n := if io < |drafts| then io else |drafts|;
      WriteDraftsKeeps(t, DirOf(t.home, id), drafts[..n]);
      WriteDraftsSize(t.files, t.home, DirOf(t.home, id), drafts[..n]);
      BodyBytesPrefix(drafts, n);
      assert drafts[..|drafts|] == drafts;
    }
  }

  lemma ContainedIsStaged(home: Path, id: string)
    ensures Contained(home, id) <==> Staged(home, DirOf(home, id))
  {
  }

  lemma CommitRefEffect(t: Tree, dir: Path, ref: ArtifactRef)
    requires Staged(t.home, dir) && CommitRef(t, dir, ref).Some?
    ensures var t' := CommitRef(t, dir, ref).value;
            Keeps(t, t') && Used(t') == Used(t) && t'.manifest == t.manifest && (ValidRef(ref) ==> Opens(t', ref))
  {
    hide IsCommitted, Staged, Size, Below, IsStageName, StageName, ValidRef;
    var target, source := PathOf(t.home, ref), SourceOf(dir, ref.stage, ref.name);
    if target !in t.files {
      var body := t.files[source];
      SourceIsStaged(t.home, dir, ref.stage, ref.name);
      StagedIsNotCommitted(t.home, source);
      BelowRemove(t.files, t.home, source);
      BelowUpdate(t.files - {source}, t.home, target, body);
      BelowHas(t.files, t.home, source);
      SizeRemove(Below(t.files, t.home), source);
      BelowHas(t.files, t.home, target);
      SizeUpdate(Below(t.files, t.home) - {source}, target, body);
    }
  }

  lemma BelowHas(files: map<Path, Bytes>, dir: Path, p: Path)
    ensures p in Below(files, dir) <==> p in files && dir <= p
    ensures p in files && dir <= p ==> Below(files, dir)[p] == files[p]
  {
  }

  lemma {:induction false} CommitRefsEffect(t: Tree, dir: Path, refs: seq<ArtifactRef>, io: nat)
    requires Staged(t.home, dir)
    ensures var (t', ok) := CommitRefs(t, dir, refs, io);
            && Keeps(t, t') && Used(t') == Used(t) && t'.manifest == t.manifest
            && (ok ==> forall ref | ref in refs && ValidRef(ref) :: Opens(t', ref))
    decreases |refs|
  {
    hide Opens, Used, CommitRef, ValidRef, Staged, Keeps;
    KeepsItself(t);
    if refs != [] && io > 0 && CommitRef(t, dir, refs[0]).Some? {
      var t1 := CommitRef(t, dir, refs[0]).value;
      CommitRefEffect(t, dir, refs[0]);
      KeepsHome(t, t1);
      CommitRefsEffect(t1, dir, refs[1..], io - 1);
      var t2 := CommitRefs(t1, dir, refs[1..], io - 1).0;
      KeepsTransitive(t, t1, t2);
      assert forall ref | ref in refs :: ref == refs[0] || ref in refs[1..];
      if ValidRef(refs[0]) {
        OpensLater(t1, t2, refs[0]);
        OpensIsOpen(t1, t2, refs[0]);
      }
    }
  }

  lemma KeepsItself(t: Tree)
    ensures Keeps(t, t)
  {
  }

  lemma KeepsHome(t: Tree, t': Tree)
    requires Keeps(t, t')
    ensures t'.home == t.home
  {
  }

  lemma OpensIsOpen(t: Tree, t': Tree, ref: ArtifactRef)
    requires Opens(t, ref) && Open(t', ref) == Open(t, ref)
    ensures Opens(t', ref)
  {
  }

  lemma RemoveAllEffect(t: Tree, dir: Path)
    requires Staged(t.home, dir)
    ensures Keeps(t, RemoveAll(t, dir)) && Used(RemoveAll(t, dir)) <= Used(t)
    ensures RemoveAll(t, dir).manifest == t.manifest
  {
    hide IsCommitted, IsStageName, Size;
    forall p | p in t.files && IsCommitted(t.home, p) ensures !(dir <= p) {
      if dir <= p {
        StagedIsNotCommitted(t.home, p);
      }
    }
    StageNames(Plan);
    assert dir[|t.home|] == STAGING != MANIFEST_FILE == (t.home + [MANIFEST_FILE])[|t.home|];
    SizeSubset(Below(RemoveAll(t, dir).files, t.home), Below(t.files, t.home));
  }

  /** On a contained handle commit never changes or removes a committed file and never increases the bytes
      in use, however far it gets; when it reports success every reference opens to bytes with its digest. */
  lemma CommitEffect(t: Tree, project: string, batch: Batch, io: nat)
    requires Contained(t.home, batch.id)
    ensures var (t', ok) := Commit(t, project, batch, io);
            Keeps(t, t') && Used(t') <= Used(t) && (ok ==> AllOpen(t', batch.refs))
  {
    hide Used, IsCommitted, ValidRef, CommitRefs, RemoveAll, DirOf, Opens, Keeps;
    KeepsItself(t);
    if BatchOk(t.home, project, batch) {
      ContainedIsStaged(t.home, batch.id);
      var (t1, ok) := CommitRefs(t, batch.dir, batch.refs, io);
      CommitRefsEffect(t, batch.dir, batch.refs, io);
      KeepsHome(t, t1);
      var t2 := t1.(manifest := t1.manifest + batch.refs);
      Listed(t1, batch.refs);
      KeepsTransitive(t, t1, t2);
      RemoveAllEffect(t2, batch.dir);
      var t3 := RemoveAll(t2, batch.dir);
      KeepsTransitive(t, t2, t3);
      forall ref | ok && ref in batch.refs ensures Opens(t3, ref) {
        KeepsOpen(t1, t2, ref);
        KeepsOpen(t2, t3, ref);
      }
    }
  }

  lemma Listed(t: Tree, refs: seq<ArtifactRef>)
    ensures var t' := t.(manifest := t.manifest + refs); Keeps(t, t') && Used(t') == Used(t)
  {
  }

  lemma KeepsOpen(t: Tree, t': Tree, ref: ArtifactRef)
    requires Keeps(t, t') && Opens(t, ref)
    ensures Opens(t', ref)
  {
    OpensLater(t, t', ref);
  }

  // ----- Runs of the store

  datatype StoreOp =
    | OpStage(drafts: seq<Draft>, batch: string, now: nat)
    | OpCommit(handle: Batch)
    | OpDiscard(handle: Batch)

  /** One call, with any number of disk operations succeeding and with any handle. */
  ghost function StoreStep(t: Tree, project: string, op: StoreOp, limits: Limits, io: nat): Tree {
    match op
    case OpStage(drafts, batch, now) => Stage(t, project, drafts, batch, now, limits, io).0
    case OpCommit(batch) => Commit(t, project, batch, io).0
    case OpDiscard(batch) => Discard(t, project, batch, io).0
  }

  ghost function StoreRun(t: Tree, project: string, ops: seq<(StoreOp, nat)>, limits: Limits): Tree {
    if ops == [] then t
    else
      var last := ops[|ops| - 1];
      StoreStep(StoreRun(t, project, ops[..|ops| - 1], limits), project, last.0, limits, last.1)
  }

  /** What the caller of a call has to see to: its handle stays in the staging directory. */
  predicate Harmless(home: Path, op: StoreOp) {
    op.OpStage? || Contained(home, op.handle.id)
  }

  /** Every line of the manifest describes a file that exists with that content. */
  ghost predicate ManifestHolds(t: Tree) {
    AllOpen(t, t.manifest)
  }

  /** What every call on harmless handles keeps. */
  ghost predicate StoreOk(t: Tree, limits: Limits) {
    Proper(t.home) && Used(t) <= limits.maxProject && ManifestHolds(t)
  }

  lemma ManifestStays(t: Tree, t': Tree)
    requires Keeps(t, t') && ManifestHolds(t) && t'.manifest == t.manifest
    ensures ManifestHolds(t')
  {
    hide Keeps, Opens;
    forall ref | ref in t.manifest ensures Opens(t', ref) {
      KeepsOpen(t, t', ref);
    }
  }

  lemma CommitManifest(t: Tree, project: string, batch: Batch, io: nat)
    requires Contained(t.home, batch.id) && ManifestHolds(t)
    ensures ManifestHolds(Commit(t, project, batch, io).0)
  {
    hide Used, IsCommitted, ValidRef, CommitRefs, RemoveAll, DirOf, Opens, Keeps;
    if BatchOk(t.home, project, batch) {
      ContainedIsStaged(t.home, batch.id);
      var (t1, ok) := CommitRefs(t, batch.dir, batch.refs, io);
      CommitRefsEffect(t, batch.dir, batch.refs, io);
      KeepsHome(t, t1);
      ManifestStays(t, t1);
      var t2 := t1.(manifest := t1.manifest + batch.refs);
      Listed(t1, batch.refs);
      forall ref | ok && ref in t2.manifest ensures Opens(t2, ref) {
        KeepsOpen(t1, t2, ref);
      }
      RemoveAllEffect(t2, batch.dir);
      if ok {
        ManifestStays(t2, RemoveAll(t2, batch.dir));
      }
    }
  }

  lemma StoreStepEffect(t: Tree, project: string, op: StoreOp, limits: Limits, io: nat)
    requires StoreOk(t, limits) && Harmless(t.home, op)
    ensures var t' := StoreStep(t, project, op, limits, io); Keeps(t, t') && StoreOk(t', limits)
  {
    hide Used, Keeps, Stage, Commit, RemoveAll, DirOf, AllOpen;
    KeepsItself(t);
    KeepsHome(t, t);
    match op
    case OpStage(drafts, batch, now) =>
      StageEffect(t, project, drafts, batch, now, limits, io);
      var t' := Stage(t, project, drafts, batch, now, limits, io).0;
      KeepsHome(t, t');
      StageManifest(t, project, drafts, batch, now, limits, io);
      ManifestStays(t, t');
    case OpCommit(batch) =>
      CommitEffect(t, project, batch, io);
      CommitManifest(t, project, batch, io);
      KeepsHome(t, Commit(t, project, batch, io).0);
    case OpDiscard(batch) =>
      if BatchOk(t.home, project, batch) {
        ContainedIsStaged(t.home, batch.id);
        RemoveAllEffect(t, batch.dir);
        KeepsHome(t, RemoveAll(t, batch.dir));
        ManifestStays(t, RemoveAll(t, batch.dir));
      }
  }

  lemma StageManifest(t: Tree, project: string, drafts: seq<Draft>, batch: string, now: nat, limits: Limits, io: nat)
    ensures Stage(t, project, drafts, batch, now, limits, io).0.manifest == t.manifest
  {
    hide StageAccepts, TrimSpace, DirOf;
  }

  /** Over every run of Stage, Commit and Discard with failures part-way, on handles whose directory stays in
      the staging directory: the project stays within its byte budget, nothing committed is ever changed or
      removed, and the manifest stays true. */
  lemma {:induction false} StoreRunEffect(t: Tree, project: string, ops: seq<(StoreOp, nat)>, limits: Limits)
    requires StoreOk(t, limits) && forall op | op in ops :: Harmless(t.home, op.0)
    ensures var t' := StoreRun(t, project, ops, limits); Keeps(t, t') && StoreOk(t', limits)
  {
    hide StoreStep, StoreOk, Keeps, Harmless;
    KeepsItself(t);
    if ops != [] {
      var last := ops[|ops| - 1];
      StoreRunEffect(t, project, ops[..|ops| - 1], limits);
      var before := StoreRun(t, project, ops[..|ops| - 1], limits);
      KeepsHome(t, before);
      assert last in ops;
      StoreStepEffect(before, project, last.0, limits, last.1);
      KeepsTransitive(t, before, StoreStep(before, project, last.0, limits, last.1));
    }
  }

  // ----- Exactly the contained handles are harmless

  /** Nothing outside the project's staging directory is changed or removed, whosever it is. */
  ghost predicate KeepsOutside(t: Tree, t': Tree) {
    && (forall p | p in t.files && !Staged(t.home, p) :: p in t'.files && t'.files[p] == t.files[p])
    && t.manifest <= t'.manifest
  }

  /** A path that goes when the directory is removed, and that is not staged unless the directory is. */
  lemma Outside(home: Path, dir: Path)
    requires !Staged(home, dir)
    ensures !Staged(home, dir + ["x"]) && dir <= dir + ["x"]
  {
    assert STAGING != "x" by { assert |STAGING| == 7 && |"x"| == 1; }
    var path := dir + ["x"];
    assert path[..|dir|] == dir && path[|dir|] == "x" && StagingRoot(home)[|home|] == STAGING;
  }

  /** Over all trees, removing the directory of a handle touches nothing outside the staging directory if and
      only if the directory stays in it. */
  lemma DiscardExactly(home: Path, project: string, batch: Batch)
    requires BatchOk(home, project, batch)
    ensures Contained(home, batch.id) <==>
            forall t: Tree, io | t.home == home :: KeepsOutside(t, Discard(t, project, batch, io).0)
  {
    hide DirOf, Staged, ValidRef;
    ContainedIsStaged(home, batch.id);
    if Contained(home, batch.id) {
      forall t: Tree, io | t.home == home ensures KeepsOutside(t, Discard(t, project, batch, io).0) {
        RemovedIsStaged(t, batch.dir);
      }
    } else {
      Outside(home, batch.dir);
      var lost := batch.dir + ["x"];
      var t := Tree(home, map[lost := []], []);
      assert !KeepsOutside(t, Discard(t, project, batch, 1).0);
    }
  }

  lemma RemovedIsStaged(t: Tree, dir: Path)
    requires Staged(t.home, dir)
    ensures KeepsOutside(t, RemoveAll(t, dir)) && RemoveAll(t, dir).manifest == t.manifest
  {
    hide Size, IsCommitted;
    RemoveAllEffect(t, dir);
    assert forall p | dir <= p :: Staged(t.home, p);
  }

  lemma {:induction false} RenamesStayInside(t: Tree, dir: Path, refs: seq<ArtifactRef>, io: nat)
    requires Staged(t.home, dir)
    ensures var t' := CommitRefs(t, dir, refs, io).0;
            t'.home == t.home && KeepsOutside(t, t') && t'.manifest == t.manifest
    decreases |refs|
  {
    hide Staged, PathOf;
    if refs != [] && io > 0 && CommitRef(t, dir, refs[0]).Some? {
      SourceIsStaged(t.home, dir, refs[0].stage, refs[0].name);
      RenamesStayInside(CommitRef(t, dir, refs[0]).value, dir, refs[1..], io - 1);
    }
  }

  /** Some reference is valid, whatever the hash is. */
  lemma SomeRef() returns (d: Draft)
    ensures ValidRef(RefOf(d, 1))
  {
    d := Draft(Plan, "a", PlanDoc, [0]);
    assert TrimSpace("a") == "a" by { TrimSpaceTrims("a"); assert Trimmed("a"); }
  }

  /** The same for commit: over all handles with that id, all trees and all points of failure. */
  lemma CommitExactly(home: Path, project: string, id: string)
    requires ValidProjectId(project)
    ensures Contained(home, id) <==>
            forall batch: Batch, t: Tree, io | batch.id == id && t.home == home ::
              KeepsOutside(t, Commit(t, project, batch, io).0)
  {
    ContainedIsStaged(home, id);
    if Contained(home, id) {
      forall batch: Batch, t: Tree, io | batch.id == id && t.home == home
        ensures KeepsOutside(t, Commit(t, project, batch, io).0)
      {
        CommitStaysInside(t, project, batch, io);
      }
    } else {
      var d := SomeRef();
      CommitEscapes(home, project, id, d);
    }
  }

  lemma CommitStaysInside(t: Tree, project: string, batch: Batch, io: nat)
    requires Contained(t.home, batch.id)
    ensures KeepsOutside(t, Commit(t, project, batch, io).0)
  {
    hide DirOf, Staged, ValidRef, CommitRefs, RemoveAll;
    ContainedIsStaged(t.home, batch.id);
    if BatchOk(t.home, project, batch) {
      RenamesStayInside(t, batch.dir, batch.refs, io);
      var t1 := CommitRefs(t, batch.dir, batch.refs, io).0;
      RemovedIsStaged(t1.(manifest := t1.manifest + batch.refs), batch.dir);
    }
  }

  lemma CommitEscapes(home: Path, project: string, id: string, d: Draft)
    requires ValidProjectId(project) && !Contained(home, id) && ValidRef(RefOf(d, 1))
    ensures exists batch: Batch, t: Tree, io: nat ::
              batch.id == id && t.home == home && !KeepsOutside(t, Commit(t, project, batch, io).0)
  {
    hide DirOf, Staged, ValidRef, PathOf;
    ContainedIsStaged(home, id);
    var dir, ref := DirOf(home, id), RefOf(d, 1);
    Outside(home, dir);
    var lost := dir + ["x"];
    var t := Tree(home, map[lost := d.body, PathOf(home, ref) := d.body], []);
    var batch := Batch(project, id, dir, [ref]);
    assert CommitRefs(t, dir, [ref], 3) == (t, true) by { assert [ref][1..] == []; }
    assert lost !in Commit(t, project, batch, 3).0.files;
    assert !KeepsOutside(t, Commit(t, project, batch, 3).0);
  }

  /** The id ".." passes the check with the project directory as its staging directory. Discarding such a
      handle removes the whole project; committing it, where its reference was committed before, reports
      success and removes it as well. */
  lemma DotsRemoveTheProject(t: Tree, project: string, ref: ArtifactRef)
    requires Proper(t.home) && ValidProjectId(project) && Opens(t, ref)
    ensures var batch := Batch(project, "..", t.home, [ref]);
            && BatchOk(t.home, project, batch) && !ValidName("..")
            && Discard(t, project, batch, 1).1 && Below(Discard(t, project, batch, 1).0.files, t.home) == map[]
            && Commit(t, project, batch, 3).1 && !Opens(Commit(t, project, batch, 3).0, ref)
            && Commit(t, project, batch, 3).0.manifest == []
  {
    hide ValidRef, TrimSpace, Joined;
    StageNames(Plan);
    JoinedUp(t.home, STAGING);
    TrimSpaceTrims("..") by { assert Trimmed(".."); }
    var batch := Batch(project, "..", t.home, [ref]);
    assert CommitRefs(t, t.home, [ref], 3) == (t, true) by { assert [ref][1..] == []; }
    assert t.home <= PathOf(t.home, ref);
  }

  // ----- Doing it again

  lemma {:induction false} CommitRefsAgain(t: Tree, dir: Path, refs: seq<ArtifactRef>, io: nat)
    requires AllOpen(t, refs) && io >= |refs|
    ensures CommitRefs(t, dir, refs, io) == (t, true)
  {
    hide ValidRef, PathOf;
    if refs != [] {
      assert refs[0] in refs;
      CommitRefsAgain(t, dir, refs[1..], io - 1);
    }
  }

  /** The committed files of the project. */
  function CommittedFiles(t: Tree): map<Path, Bytes> {
    map p | p in t.files && IsCommitted(t.home, p) :: t.files[p]
  }

  /** Committing references that are committed already. */
  lemma CommitOfCommitted(t: Tree, project: string, batch: Batch, io: nat)
    requires BatchOk(t.home, project, batch) && Contained(t.home, batch.id)
    requires AllOpen(t, batch.refs) && io >= |batch.refs| + 2
    ensures Commit(t, project, batch, io).1 && CommittedFiles(Commit(t, project, batch, io).0) == CommittedFiles(t)
  {
    hide ValidRef, DirOf, Opens, IsCommitted, CommitRefs;
    ContainedIsStaged(t.home, batch.id);
    CommitRefsAgain(t, batch.dir, batch.refs, io);
    RemoveAllEffect(t.(manifest := t.manifest + batch.refs), batch.dir);
  }

  /** Staging and committing the same drafts again, at any later time: once they were committed, the
      second attempt is accepted (if the disk works), gives the same references up to their creation
      time, and leaves the committed tree as it is. */
  lemma CommitIsIdempotent(t: Tree, project: string, drafts: seq<Draft>, first: Batch, again: Batch,
                           now: nat, limits: Limits)
    requires first.refs == RefsOfDrafts(drafts, now) && AllOpen(t, first.refs)
    requires again.refs != [] && now != 0 && Proper(t.home)
    requires exists later, batch, t0, io ::
               later != 0 && Keeps(t, t0) && Stage(t0, project, drafts, batch, later, limits, io).1 == Some(again)
    ensures |again.refs| == |first.refs|
    ensures forall i | 0 <= i < |again.refs| :: again.refs[i] == first.refs[i].(created := again.refs[i].created)
    ensures forall t1, io | Keeps(t, t1) && io >= |again.refs| + 2 ::
              Commit(t1, project, again, io).1
              && CommittedFiles(Commit(t1, project, again, io).0) == CommittedFiles(t1)
  {
    var later, batch, t0, io0 :|
      later != 0 && Keeps(t, t0) && Stage(t0, project, drafts, batch, later, limits, io0).1 == Some(again);
    hide DraftsOk, Used, DirOf, Contained, CommittedFiles, Commit, IsCommitted;
    KeepsHome(t, t0);
    StagedIsContained(t0, project, drafts, batch, later, limits, io0);
    forall t1, io | Keeps(t, t1) && io >= |again.refs| + 2
      ensures Commit(t1, project, again, io).1 && CommittedFiles(Commit(t1, project, again, io).0) == CommittedFiles(t1)
    {
      KeepsHome(t, t1);
      forall ref | ref in again.refs ensures ValidRef(ref) && Opens(t1, ref) {
        var i :| 0 <= i < |again.refs| && again.refs[i] == ref;
        assert first.refs[i] in first.refs;
        OpensLater(t, t1, first.refs[i]);
      }
      CommitOfCommitted(t1, project, again, io);
    }
  }
}

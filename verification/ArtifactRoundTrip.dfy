/** What is staged and committed is there to be opened, with the bytes that were given. */
module ArtifactRoundTrip {
  import opened Common
  import opened Lifecycle
  import opened Paths
  import opened Artifacts

  // ----- Staged files

  lemma {:induction false} Written(files: map<Path, Bytes>, dir: Path, drafts: seq<Draft>)
    requires forall i, j | 0 <= i < j < |drafts| :: !SameFile(drafts[i], drafts[j])
    requires forall d | d in drafts :: Known(d.stage)
    ensures var after := WriteDrafts(files, dir, drafts);
            && (forall d | d in drafts :: SourceOf(dir, d.stage, d.name) in after
                                          && after[SourceOf(dir, d.stage, d.name)] == d.body)
            && (forall p | p in files && !(dir <= p) :: p in after && after[p] == files[p])
            && (forall p | p in after && !(dir <= p) :: p in files)
  {
    hide Known, StageName;
    if drafts != [] {
      var front, last := drafts[..|drafts| - 1], drafts[|drafts| - 1];
      Written(files, dir, front);
      forall d | d in front ensures SourceOf(dir, d.stage, d.name) != SourceOf(dir, last.stage, last.name) {
        var i :| 0 <= i < |front| && front[i] == d;
        assert !SameFile(drafts[i], drafts[|drafts| - 1]);
        SourcesDiffer(dir, d, last);
      }
      assert forall d | d in drafts :: d in front || d == last;
    }
  }

  lemma SourcesDiffer(dir: Path, a: Draft, b: Draft)
    requires !SameFile(a, b) && Known(a.stage) && Known(b.stage)
    ensures SourceOf(dir, a.stage, a.name) != SourceOf(dir, b.stage, b.name)
  {
    StageNamesDiffer(a.stage, b.stage);
    var n := |dir|;
    assert SourceOf(dir, a.stage, a.name)[n] == StageName(a.stage) && SourceOf(dir, a.stage, a.name)[n + 1] == a.name;
    assert SourceOf(dir, b.stage, b.name)[n] == StageName(b.stage) && SourceOf(dir, b.stage, b.name)[n + 1] == b.name;
  }

  lemma StageNamesDiffer(a: Stage, b: Stage)
    requires Known(a) && Known(b)
    ensures StageName(a) == StageName(b) <==> a == b
  {
    assert StageName(a)[0] == StageName(b)[0] ==> |StageName(a)| == |StageName(b)| ==> a == b;
    assert |"extract"| == 7 && |"emit"| == 4;
  }

  // ----- Committed files

  lemma TargetsDiffer(home: Path, a: ArtifactRef, b: ArtifactRef)
    requires Known(a.stage) && Known(b.stage) && |a.id| == |b.id| == 16
    requires a.stage != b.stage || a.name != b.name
    ensures PathOf(home, a) != PathOf(home, b)
  {
    StageNamesDiffer(a.stage, b.stage);
    var x, y, n := PathOf(home, a), PathOf(home, b), |home|;
    assert x[n] == StageName(a.stage) && y[n] == StageName(b.stage);
    assert x[n + 1] == a.id + "-" + a.name && y[n + 1] == b.id + "-" + b.name;
    assert (a.id + "-" + a.name)[17..] == a.name && (b.id + "-" + b.name)[17..] == b.name;
  }

  /** References whose staged files are there, and whose places are free or hold the same content. */
  predicate Ready(t: Tree, dir: Path, refs: seq<ArtifactRef>, bodies: seq<Bytes>) {
    && Staged(t.home, dir) && |refs| == |bodies|
    && (forall i | 0 <= i < |refs| ::
          && Known(refs[i].stage) && |refs[i].id| == 16 && refs[i].digest == Sha256(bodies[i])
          && SourceOf(dir, refs[i].stage, refs[i].name) in t.files
          && t.files[SourceOf(dir, refs[i].stage, refs[i].name)] == bodies[i]
          && (PathOf(t.home, refs[i]) in t.files ==> Sha256(t.files[PathOf(t.home, refs[i])]) == refs[i].digest))
    && (forall i, j | 0 <= i < j < |refs| :: refs[i].stage != refs[j].stage || refs[i].name != refs[j].name)
  }

  function Kept(t: Tree, path: Path, body: Bytes): Bytes {
    if path in t.files then t.files[path] else body
  }

  lemma OneCommitted(t: Tree, dir: Path, refs: seq<ArtifactRef>, bodies: seq<Bytes>)
    requires Ready(t, dir, refs, bodies) && refs != []
    ensures CommitRef(t, dir, refs[0]).Some?
    ensures var t' := CommitRef(t, dir, refs[0]).value;
            && t'.home == t.home && t'.manifest == t.manifest
            && Ready(t', dir, refs[1..], bodies[1..])
            && PathOf(t.home, refs[0]) in t'.files
            && t'.files[PathOf(t.home, refs[0])] == Kept(t, PathOf(t.home, refs[0]), bodies[0])
            && (forall p | !Staged(t.home, p) && p != PathOf(t.home, refs[0]) ::
                  (p in t'.files <==> p in t.files) && (p in t.files ==> t'.files[p] == t.files[p]))
  {
    hide StageName, PathOf, IsCommitted, Staged, SourceOf;
    var target, source := PathOf(t.home, refs[0]), SourceOf(dir, refs[0].stage, refs[0].name);
    SourceIsStaged(t.home, dir, refs[0].stage, refs[0].name) by { assert Staged(t.home, dir); }
    CommittedPath(t.home, refs[0]);
    StagedIsNotCommitted(t.home, source);
    var t' := CommitRef(t, dir, refs[0]).value;
    forall i | 1 <= i < |refs|
      ensures SourceOf(dir, refs[i].stage, refs[i].name) in t'.files
      ensures t'.files[SourceOf(dir, refs[i].stage, refs[i].name)] == bodies[i]
      ensures PathOf(t.home, refs[i]) in t'.files ==> PathOf(t.home, refs[i]) in t.files
                                                      && t'.files[PathOf(t.home, refs[i])] == t.files[PathOf(t.home, refs[i])]
    {
      TargetsDiffer(t.home, refs[0], refs[i]);
      var a := Draft(refs[0].stage, refs[0].name, refs[0].kind, []);
      SourcesDiffer(dir, a, Draft(refs[i].stage, refs[i].name, refs[i].kind, []));
      SourceIsStaged(t.home, dir, refs[i].stage, refs[i].name);
      StagedIsNotCommitted(t.home, SourceOf(dir, refs[i].stage, refs[i].name));
    }
  }

  lemma {:induction false} AllCommitted(t: Tree, dir: Path, refs: seq<ArtifactRef>, bodies: seq<Bytes>, io: nat)
    requires Ready(t, dir, refs, bodies) && io >= |refs|
    ensures var (t', ok) := CommitRefs(t, dir, refs, io);
            && ok && t'.home == t.home && t'.manifest == t.manifest
            && (forall i | 0 <= i < |refs| ::
                  && PathOf(t.home, refs[i]) in t'.files
                  && t'.files[PathOf(t.home, refs[i])] == Kept(t, PathOf(t.home, refs[i]), bodies[i]))
            && (forall p | !Staged(t.home, p) && (forall i | 0 <= i < |refs| :: p != PathOf(t.home, refs[i])) ::
                  (p in t'.files <==> p in t.files) && (p in t.files ==> t'.files[p] == t.files[p]))
    decreases |refs|
  {
    hide StageName, PathOf, IsCommitted, Staged, SourceOf, CommitRef;
    if refs != [] {
      OneCommitted(t, dir, refs, bodies);
      var t1 := CommitRef(t, dir, refs[0]).value;
      AllCommitted(t1, dir, refs[1..], bodies[1..], io - 1);
      forall i | 0 < i < |refs| ensures PathOf(t.home, refs[i]) != PathOf(t.home, refs[0]) && !Staged(t.home, PathOf(t.home, refs[i])) {
        TargetsDiffer(t.home, refs[0], refs[i]);
        TargetIsOutside(t.home, refs[i]);
        assert refs[1..][i - 1] == refs[i];
      }
      TargetIsOutside(t.home, refs[0]);
      assert forall i | 0 <= i < |refs| - 1 :: refs[1..][i] == refs[i + 1] && bodies[1..][i] == bodies[i + 1];
    }
  }

  lemma TargetIsOutside(home: Path, ref: ArtifactRef)
    requires Known(ref.stage)
    ensures !Staged(home, PathOf(home, ref))
  {
    hide Staged, PathOf, IsCommitted;
    CommittedPath(home, ref);
    if Staged(home, PathOf(home, ref)) {
      StagedIsNotCommitted(home, PathOf(home, ref));
    }
  }

  // ----- The round trip

  /** The reference describes the file: its digest, of which the id is the beginning, its size, name and kind. */
  predicate RefFor(ref: ArtifactRef, stage: Stage, d: Draft) {
    && ref.stage == stage && ref.name == d.name && ref.kind == d.kind && ref.bytes == |d.body|
    && ref.digest == Sha256(d.body) && |ref.id| == 16 && ref.id <= ref.digest
  }

  /** The references are those of the files in order. */
  predicate RefsFor(refs: seq<ArtifactRef>, stage: Stage, files: seq<Draft>) {
    |refs| == |files| && forall i | 0 <= i < |files| :: RefFor(refs[i], stage, files[i])
  }

  /** What the source asks of drafts, and a project with room for them. */
  ghost predicate Storable(t: Tree, project: string, drafts: seq<Draft>, batch: string, now: nat, limits: Limits) {
    && Proper(t.home) && ValidProjectId(project) && ValidName(TrimSpace(batch)) && now != 0
    && drafts != []
    && (forall d | d in drafts :: ValidName(d.name) && Known(d.stage) && KindAccepted(d.kind))
    && (forall d | d in drafts :: 0 < |d.body| <= limits.maxArtifact)
    && (forall i, j | 0 <= i < j < |drafts| :: drafts[i].stage != drafts[j].stage || drafts[i].name != drafts[j].name)
    && Used(t) + BodyBytes(drafts) <= limits.maxProject
  }

  /** No artifact with another content has the place of one of the drafts: the id is only a part of the digest. */
  predicate NoCollision(t: Tree, drafts: seq<Draft>, now: nat) {
    forall d | d in drafts ::
      PathOf(t.home, RefOf(d, now)) in t.files ==> Sha256(t.files[PathOf(t.home, RefOf(d, now))]) == Sha256(d.body)
  }

  lemma StagedIsReady(t: Tree, project: string, drafts: seq<Draft>, batch: string, now: nat, limits: Limits, io: nat)
    requires Storable(t, project, drafts, batch, now, limits) && NoCollision(t, drafts, now) && io >= |drafts|
    ensures var (t1, handle) := Artifacts.Stage(t, project, drafts, batch, now, limits, io);
            && handle.Some? && t1.home == t.home && t1.manifest == t.manifest
            && handle.value.refs == RefsOfDrafts(drafts, now)
            && BatchOk(t1.home, project, handle.value)
            && Ready(t1, handle.value.dir, handle.value.refs, seq(|drafts|, i requires 0 <= i < |drafts| => drafts[i].body))
            && (forall p | !Staged(t.home, p) :: (p in t1.files <==> p in t.files) && (p in t.files ==> t1.files[p] == t.files[p]))
  {
    hide Used, ValidName, KindAccepted, ValidProjectId, TrimSpace, StageName, Artifacts.PathOf, SourceOf, DirOf, IsDigest, Joined;
    DraftsAreOk(t, project, drafts, batch, now, limits);
    var id := TrimSpace(batch);
    var dir := DirOf(t.home, id);
    StagedIsContained(t, project, drafts, batch, now, limits, io);
    ContainedIsStaged(t.home, id);
    Written(t.files, dir, drafts);
    var refs := RefsOfDrafts(drafts, now);
    forall i | 0 <= i < |drafts| ensures refs[i] == RefOf(drafts[i], now) && drafts[i] in drafts && ValidRef(refs[i]) {
      assert drafts[i] in drafts;
      RefIsValid(drafts[i], now);
    }
    forall i | 0 <= i < |drafts| ensures !Staged(t.home, PathOf(t.home, refs[i])) {
      TargetIsOutside(t.home, refs[i]);
    }
    assert forall p | !Staged(t.home, p) :: !(dir <= p);
  }

  lemma RefIsValid(d: Draft, now: nat)
    requires ValidName(d.name) && Known(d.stage) && KindAccepted(d.kind) && now != 0
    ensures ValidRef(RefOf(d, now))
  {
    hide ValidName, KindAccepted;
  }

  lemma DraftsAreOk(t: Tree, project: string, drafts: seq<Draft>, batch: string, now: nat, limits: Limits)
    requires Storable(t, project, drafts, batch, now, limits)
    ensures StageAccepts(t, project, drafts, batch, limits)
  {
    hide Used, ValidName, KindAccepted, ValidProjectId, TrimSpace;
  }

  /** Where the disk works, what is staged and committed can be opened, each reference with the bytes that were
      given (or with those of the same digest that were there before); the references are listed in order, and
      nothing else outside the staging directory changes. */
  lemma StoredOpens(t: Tree, project: string, drafts: seq<Draft>, batch: string, now: nat, limits: Limits, io: nat,
                    io': nat)
    requires Storable(t, project, drafts, batch, now, limits) && NoCollision(t, drafts, now)
    requires io >= |drafts| && io' >= |drafts| + 2
    ensures var (t1, handle) := Artifacts.Stage(t, project, drafts, batch, now, limits, io);
            && handle.Some?
            && var (t2, ok) := Commit(t1, project, handle.value, io');
               && ok && t2.manifest == t.manifest + handle.value.refs && |handle.value.refs| == |drafts|
               && (forall i | 0 <= i < |drafts| ::
                     var ref, place := handle.value.refs[i], PathOf(t.home, RefOf(drafts[i], now));
                     && RefFor(ref, drafts[i].stage, drafts[i]) && ref.created == now
                     && Open(t2, ref) == Some(if place in t.files then t.files[place] else drafts[i].body))
               && (forall p | !Staged(t.home, p) && (forall d | d in drafts :: p != PathOf(t.home, RefOf(d, now))) ::
                     (p in t2.files <==> p in t.files) && (p in t.files ==> t2.files[p] == t.files[p]))
  {
    hide Used, ValidName, KindAccepted, ValidProjectId, TrimSpace, StageName, Artifacts.PathOf, SourceOf, DirOf,
      IsDigest, Staged, Artifacts.Stage, Storable, Ready, CommitRefs, IdOf;
    StagedIsReady(t, project, drafts, batch, now, limits, io);
    var (t1, handle) := Artifacts.Stage(t, project, drafts, batch, now, limits, io);
    var refs, dir := handle.value.refs, handle.value.dir;
    var bodies := seq(|drafts|, i requires 0 <= i < |drafts| => drafts[i].body);
    AllCommitted(t1, dir, refs, bodies, io');
    var t' := CommitRefs(t1, dir, refs, io').0;
    ReadyIsStaged(t1, dir, refs, bodies);
    RemovesOnlyStaged(t'.(manifest := t'.manifest + refs), dir);
    forall i | 0 <= i < |drafts|
      ensures refs[i] == RefOf(drafts[i], now) && drafts[i] in drafts && ValidRef(refs[i]) && Known(refs[i].stage)
      ensures !Staged(t.home, PathOf(t.home, refs[i]))
    {
      assert drafts[i] in drafts && refs[i] in refs;
      TargetIsOutside(t.home, refs[i]);
    }
    forall i | 0 <= i < |drafts|
      ensures var place := PathOf(t.home, RefOf(drafts[i], now));
              Open(Commit(t1, project, handle.value, io').0, refs[i])
              == Some(if place in t.files then t.files[place] else drafts[i].body)
    {
      assert Sha256(drafts[i].body) == refs[i].digest;
    }
  }

  lemma ReadyIsStaged(t: Tree, dir: Path, refs: seq<ArtifactRef>, bodies: seq<Bytes>)
    requires Ready(t, dir, refs, bodies)
    ensures Staged(t.home, dir)
  {
  }

  lemma RemovesOnlyStaged(t: Tree, dir: Path)
    requires Staged(t.home, dir)
    ensures RemoveAll(t, dir).manifest == t.manifest && RemoveAll(t, dir).home == t.home
    ensures forall p | !Staged(t.home, p) ::
              (p in RemoveAll(t, dir).files <==> p in t.files) && (p in t.files ==> RemoveAll(t, dir).files[p] == t.files[p])
  {
    RemovedIsStaged(t, dir);
    assert forall p | dir <= p :: Staged(t.home, p);
  }

  // ----- Taking it back

  lemma {:induction false} WrittenOnlyBelow(files: map<Path, Bytes>, dir: Path, drafts: seq<Draft>)
    ensures var after := WriteDrafts(files, dir, drafts);
            && (forall p | p in files && !(dir <= p) :: p in after && after[p] == files[p])
            && (forall p | p in after && !(dir <= p) :: p in files)
  {
    hide StageName;
    if drafts != [] {
      WrittenOnlyBelow(files, dir, drafts[..|drafts| - 1]);
    }
  }

  /** Discarding what was staged, however far staging got in its own directory, leaves the tree as it was. */
  lemma DiscardUndoesStage(t: Tree, project: string, drafts: seq<Draft>, batch: string, now: nat, limits: Limits, io: nat)
    requires Storable(t, project, drafts, batch, now, limits) && io >= |drafts|
    requires forall p | p in t.files :: !(DirOf(t.home, TrimSpace(batch)) <= p)
    ensures var (t1, handle) := Artifacts.Stage(t, project, drafts, batch, now, limits, io);
            handle.Some? && Discard(t1, project, handle.value, 1) == (t, true)
  {
    hide Used, ValidName, KindAccepted, ValidProjectId, TrimSpace, StageName, Artifacts.PathOf, SourceOf, DirOf, IsDigest,
      Joined, ValidRef;
    DraftsAreOk(t, project, drafts, batch, now, limits);
    var dir := DirOf(t.home, TrimSpace(batch));
    var t1 := t.(files := WriteDrafts(t.files, dir, drafts));
    WrittenOnlyBelow(t.files, dir, drafts);
    StagedIsContained(t, project, drafts, batch, now, limits, io);
    ContainedIsStaged(t.home, TrimSpace(batch));
    RemovedIsStaged(t1, dir);
    var refs := RefsOfDrafts(drafts, now);
    forall i | 0 <= i < |drafts| ensures ValidRef(refs[i]) {
      assert drafts[i] in drafts;
      RefIsValid(drafts[i], now);
    }
    assert RemoveAll(t1, dir).files == t.files;
    assert RemoveAll(t1, dir) == t;
  }

  // ----- What is counted

  /** The bytes in use are those of the files below the project, each counted once. */
  lemma UsedCounts(t: Tree, path: Path)
    ensures path in t.files && t.home <= path ==> Used(t) == |t.files[path]| + Used(t.(files := t.files - {path}))
    ensures path in t.files && !(t.home <= path) ==> Used(t) == Used(t.(files := t.files - {path}))
    ensures (forall p | p in t.files :: !(t.home <= p)) ==> Used(t) == 0
  {
    hide Size;
    BelowRemove(t.files, t.home, path);
    if path in t.files && t.home <= path {
      BelowHas(t.files, t.home, path);
      SizeRemove(Below(t.files, t.home), path);
    } else {
      assert Below(t.files, t.home) - {path} == Below(t.files, t.home);
    }
    if forall p | p in t.files :: !(t.home <= p) {
      assert Below(t.files, t.home) == map[];
      NothingCounts();
    }
  }

  lemma NothingCounts()
    ensures Size<Path>(map[]) == 0
  {
  }

  /** Staging in a directory of its own takes up exactly the bytes of the drafts. */
  lemma {:induction false} StagingTakesUp(files: map<Path, Bytes>, home: Path, dir: Path, drafts: seq<Draft>)
    requires home <= dir && (forall p | p in files :: !(dir <= p)) && forall d | d in drafts :: Known(d.stage)
    requires forall i, j | 0 <= i < j < |drafts| :: !SameFile(drafts[i], drafts[j])
    ensures Size(Below(WriteDrafts(files, dir, drafts), home)) == Size(Below(files, home)) + BodyBytes(drafts)
    ensures forall p | p in WriteDrafts(files, dir, drafts) && dir <= p ::
              exists d :: d in drafts && p == SourceOf(dir, d.stage, d.name)
  {
    hide Size, Below, StageName, Known, SourceOf;
    if drafts != [] {
      var front, last := drafts[..|drafts| - 1], drafts[|drafts| - 1];
      var before, path := WriteDrafts(files, dir, front), SourceOf(dir, last.stage, last.name);
      StagingTakesUp(files, home, dir, front);
      SourceBelow(dir, last);
      if path in before {
        var d :| d in front && path == SourceOf(dir, d.stage, d.name);
        var i :| 0 <= i < |front| && front[i] == d;
        assert !SameFile(drafts[i], drafts[|drafts| - 1]);
        SourcesDiffer(dir, d, last);
      }
      BelowUpdate(before, home, path, last.body);
      BelowHas(before, home, path);
      SizeUpdate(Below(before, home), path, last.body);
      forall p | p in WriteDrafts(files, dir, drafts) && dir <= p
        ensures exists d :: d in drafts && p == SourceOf(dir, d.stage, d.name)
      {
        if p == path {
          assert last in drafts;
        } else {
          var d :| d in front && p == SourceOf(dir, d.stage, d.name);
          assert d in drafts;
        }
      }
    } else {
      assert BodyBytes([]) == 0;
    }
  }

  lemma SourceBelow(dir: Path, d: Draft)
    ensures dir <= SourceOf(dir, d.stage, d.name)
  {
  }
}

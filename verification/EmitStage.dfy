/** The emit stage: it turns the rendered files into drafts and a manifest, and stops for a human unless
    the build applies on its own. */
module EmitStage {
  import opened Common
  import opened Lifecycle
  import LifecycleRuns
  import LifecycleEffects
  import opened Artifacts
  import opened Pipeline
  import App = Applier
  import P = ApplyPlan

  datatype RenderedFile = RenderedFile(name: string, path: string, kind: Kind, action: P.Action, body: Bytes)

  datatype Manifest = Manifest(device: string, files: seq<P.Entry>)

  /** The JSON encoding of a manifest and the text of the review diff are left open. */
  const EncodeManifest: Manifest -> Bytes
  const ReviewDiff: (string, seq<RenderedFile>) -> Bytes

  /** The texts of the device source and of the two build fragments are left open as well. */
  const SourceText: string -> Bytes
  const MesonFragment: string -> Bytes
  const KconfigFragment: string -> Bytes

  const DEVICE_DIR := "hw/misc"

  /** The file set of a device: the source is created, the build files are appended to. */
  function FileSet(device: string): seq<RenderedFile> {
    [RenderedFile(device + ".c", DEVICE_DIR + "/" + device + ".c", Code, P.Create, SourceText(device)),
     RenderedFile("meson.build.fragment", DEVICE_DIR + "/meson.build", PlanDoc, P.Modify, MesonFragment(device)),
     RenderedFile("Kconfig.fragment", DEVICE_DIR + "/Kconfig", PlanDoc, P.Modify, KconfigFragment(device))]
  }

  function DraftOf(f: RenderedFile): Draft {
    Draft(Emit, f.name, f.kind, f.body)
  }

  function EntryOf(f: RenderedFile): P.Entry {
    P.Entry(f.name, f.path, f.action)
  }

  function DraftsOf(files: seq<RenderedFile>): (r: seq<Draft>)
    ensures |r| == |files| && forall i | 0 <= i < |r| :: r[i] == DraftOf(files[i])
  {
    seq(|files|, i requires 0 <= i < |files| => DraftOf(files[i]))
  }

  function EntriesOf(files: seq<RenderedFile>): (r: seq<P.Entry>)
    ensures |r| == |files| && forall i | 0 <= i < |r| :: r[i] == EntryOf(files[i])
  {
    seq(|files|, i requires 0 <= i < |files| => EntryOf(files[i]))
  }

  /** The stage without a renderer failure: nothing rendered is a failure of the stage. */
  function Emitted(device: string, files: seq<RenderedFile>, autoApply: bool): Option<StageOutput> {
    if files == [] then None
    else
      var manifest := Draft(Emit, MANIFEST, PlanDoc, EncodeManifest(Manifest(device, EntriesOf(files))));
      var diff := Draft(Emit, REVIEW_DIFF, Diff, ReviewDiff(device, files));
      Some(StageOutput(DraftsOf(files) + [manifest, diff], [], !autoApply,
                       if autoApply then "" else LifecycleRuns.AWAITING_APPLY))
  }

  method Run(device: string, files: seq<RenderedFile>, autoApply: bool) returns (r: Option<StageOutput>)
    ensures r == Emitted(device, files, autoApply)
  {
    if |files| == 0 {
      return None;
    }
    var drafts: seq<Draft> := [];
    var entries: seq<P.Entry> := [];
    for i := 0 to |files|
      invariant drafts == DraftsOf(files[..i]) && entries == EntriesOf(files[..i])
    {
      drafts := drafts + [Draft(Emit, files[i].name, files[i].kind, files[i].body)];
      entries := entries + [P.Entry(files[i].name, files[i].path, files[i].action)];
    }
    assert files[..|files|] == files;
    drafts := drafts + [Draft(Emit, MANIFEST, PlanDoc, EncodeManifest(Manifest(device, entries))),
                        Draft(Emit, REVIEW_DIFF, Diff, ReviewDiff(device, files))];
    if autoApply {
      return Some(StageOutput(drafts, [], false, ""));
    }
    return Some(StageOutput(drafts, [], true, LifecycleRuns.AWAITING_APPLY));
  }

  lemma LastNamedIn(refs: seq<ArtifactRef>, k: nat, name: string)
    requires k < |refs| && refs[k].name == name
    requires forall j | k < j < |refs| :: refs[j].name != name
    ensures LastNamed(refs, name) == Some(refs[k])
  {
    if k < |refs| - 1 {
      LastNamedIn(refs[..|refs| - 1], k, name);
    }
  }

  /** The references recorded for an emit run: one for each file in order, then the manifest, then the diff. */
  lemma EmitRefs(device: string, files: seq<RenderedFile>, autoApply: bool, created: nat)
    requires files != []
    requires Drafts(Emit, Emitted(device, files, autoApply).value).Some?
    ensures var refs := RefsOfDrafts(Drafts(Emit, Emitted(device, files, autoApply).value).value, created);
            && |refs| == |files| + 2
            && refs[|files|].name == MANIFEST && refs[|files| + 1].name == REVIEW_DIFF
            && refs[|files|].digest == Sha256(EncodeManifest(Manifest(device, EntriesOf(files))))
            && refs[|files| + 1].digest == Sha256(ReviewDiff(device, files))
            && refs[|files|].kind == PlanDoc && refs[|files| + 1].kind == Diff
            && (forall i | 0 <= i < |files| ::
                  && refs[i].name == files[i].name && refs[i].digest == Sha256(files[i].body)
                  && refs[i].kind == files[i].kind)
            && forall ref | ref in refs :: ref.stage == Emit
  {
    hide IsDigest, IdOf;
    var out := Emitted(device, files, autoApply).value;
    var drafts := out.artifacts + out.evidence;
    assert drafts == out.artifacts;
    assert Drafts(Emit, out).value == FiledAll(Emit, drafts);
  }

  /** What emit recorded for these files heads the list the project holds, and what was appended since has
      other names. */
  predicate HoldsEmitted(p: Project, device: string, files: seq<RenderedFile>, autoApply: bool, created: nat)
    requires files != [] && Drafts(Emit, Emitted(device, files, autoApply).value).Some?
  {
    var recorded := RefsOfDrafts(Drafts(Emit, Emitted(device, files, autoApply).value).value, created);
    && Emit in p.artifacts && recorded <= p.artifacts[Emit]
    && forall ref | ref in p.artifacts[Emit][|recorded|..] :: FreshName(files, ref)
  }

  predicate FreshName(files: seq<RenderedFile>, ref: ArtifactRef) {
    ref.name != MANIFEST && ref.name != REVIEW_DIFF && forall f | f in files :: f.name != ref.name
  }

  predicate NamesDiffer(files: seq<RenderedFile>) {
    && (forall f | f in files :: f.name != MANIFEST && f.name != REVIEW_DIFF)
    && (forall i, j | 0 <= i < j < |files| :: files[i].name != files[j].name)
  }

  /** Right after a successful emit that is so. */
  lemma EmittedIsHeld(device: string, files: seq<RenderedFile>, autoApply: bool, p: Project, created: nat)
    requires files != [] && Drafts(Emit, Emitted(device, files, autoApply).value).Some?
    requires Emit in p.artifacts
    requires p.artifacts[Emit] == RefsOfDrafts(Drafts(Emit, Emitted(device, files, autoApply).value).value, created)
    ensures HoldsEmitted(p, device, files, autoApply, created)
  {
    hide Emitted, Drafts;
  }

  /** And it stays so, whatever is saved, until emit succeeds again or the entry is removed: the receipts of
      landings and the evidence of failed redos have other names. */
  lemma EmittedStaysHeld(device: string, files: seq<RenderedFile>, autoApply: bool, p: Project, created: nat,
                         op: LifecycleRuns.Op)
    requires files != [] && Drafts(Emit, Emitted(device, files, autoApply).value).Some?
    requires HoldsEmitted(p, device, files, autoApply, created)
    requires !LifecycleRuns.Finishes(p, op, Emit) && Emit in LifecycleRuns.Step(p, op).artifacts
    requires op.OpFail? || op.OpLand? ==> forall ref | ref in op.refs :: FreshName(files, ref)
    ensures HoldsEmitted(LifecycleRuns.Step(p, op), device, files, autoApply, created)
  {
    hide LifecycleRuns.Step, LifecycleRuns.Change, LifecycleRuns.Finishes, Emitted, Drafts, FreshName, EvidenceOf;
    if !op.OpFail? && !op.OpLand? {
      LifecycleRuns.KeptEntry(p, op, Emit);
    } else if LifecycleRuns.Change(p, op).None? {
      LifecycleRuns.RefusedStep(p, op);
    } else {
      LifecycleRuns.AppendedEntry(p, op);
    }
  }

  /** What a successful emit recorded is what an apply looks for, also after landings and failed redos: the
      manifest and the review diff as they were rendered, and for every manifest entry the artifact it names,
      with the bytes that were rendered. */
  lemma EmitRecordsWhatApplyNeeds(device: string, files: seq<RenderedFile>, autoApply: bool, p: Project, created: nat)
    requires files != [] && NamesDiffer(files)
    requires Drafts(Emit, Emitted(device, files, autoApply).value).Some?
    requires HoldsEmitted(p, device, files, autoApply, created)
    ensures HasEmitOutput(p)
    ensures FindArtifact(p, Emit, MANIFEST).value.digest == Sha256(EncodeManifest(Manifest(device, EntriesOf(files))))
    ensures FindArtifact(p, Emit, REVIEW_DIFF).value.digest == Sha256(ReviewDiff(device, files))
    ensures forall f | f in files ::
              FindArtifact(p, Emit, f.name).Some? && FindArtifact(p, Emit, f.name).value.digest == Sha256(f.body)
  {
    EmitRefs(device, files, autoApply, created);
    assert |MANIFEST| != |REVIEW_DIFF|;
    var recorded := RefsOfDrafts(Drafts(Emit, Emitted(device, files, autoApply).value).value, created);
    hide Emitted, Drafts, LastNamed, FreshName, IsDigest;
    var refs := p.artifacts[Emit];
    assert recorded == refs[..|recorded|];
    forall k | |recorded| <= k < |refs| ensures FreshName(files, refs[k]) {
      assert refs[|recorded|..][k - |recorded|] == refs[k];
    }
    LookUp(files, refs);
  }

  lemma LookUp(files: seq<RenderedFile>, refs: seq<ArtifactRef>)
    requires NamesDiffer(files) && |refs| >= |files| + 2
    requires refs[|files|].name == MANIFEST && refs[|files| + 1].name == REVIEW_DIFF
    requires forall i | 0 <= i < |files| :: refs[i].name == files[i].name && refs[i].digest == Sha256(files[i].body)
    requires forall k | |files| + 2 <= k < |refs| :: FreshName(files, refs[k])
    ensures LastNamed(refs, MANIFEST) == Some(refs[|files|]) && LastNamed(refs, REVIEW_DIFF) == Some(refs[|files| + 1])
    ensures forall f | f in files ::
              LastNamed(refs, f.name).Some? && LastNamed(refs, f.name).value.digest == Sha256(f.body)
  {
    hide LastNamed, IsDigest, NamesDiffer, FreshName;
    ReservedLookUp(files, refs);
    forall f | f in files
      ensures LastNamed(refs, f.name).Some? && LastNamed(refs, f.name).value.digest == Sha256(f.body)
    {
      var i :| 0 <= i < |files| && files[i] == f;
      OneOfThem(files, refs, i);
      LastNamedIn(refs, i, f.name);
    }
  }

  lemma ReservedLookUp(files: seq<RenderedFile>, refs: seq<ArtifactRef>)
    requires |refs| >= |files| + 2 && refs[|files|].name == MANIFEST && refs[|files| + 1].name == REVIEW_DIFF
    requires forall k | |files| + 2 <= k < |refs| :: FreshName(files, refs[k])
    ensures LastNamed(refs, MANIFEST) == Some(refs[|files|]) && LastNamed(refs, REVIEW_DIFF) == Some(refs[|files| + 1])
  {
    hide LastNamed, IsDigest;
    assert |MANIFEST| != |REVIEW_DIFF|;
    LastNamedIn(refs, |files|, MANIFEST);
    LastNamedIn(refs, |files| + 1, REVIEW_DIFF);
  }

  lemma OneOfThem(files: seq<RenderedFile>, refs: seq<ArtifactRef>, i: nat)
    requires NamesDiffer(files) && |refs| >= |files| + 2 && i < |files|
    requires refs[|files|].name == MANIFEST && refs[|files| + 1].name == REVIEW_DIFF
    requires forall k | 0 <= k < |files| :: refs[k].name == files[k].name
    requires forall k | |files| + 2 <= k < |refs| :: FreshName(files, refs[k])
    ensures forall k | i < k < |refs| :: refs[k].name != files[i].name
  {
    assert files[i] in files;
  }

  const RECEIPT := "apply-plan.json"

  /** For the files of a device the names differ, and a landing's receipt is called like none of them. */
  lemma DeviceNamesDiffer(device: string, ref: ArtifactRef)
    ensures NamesDiffer(FileSet(device)) && (ref.name == RECEIPT ==> FreshName(FileSet(device), ref))
  {
    var files := FileSet(device);
    var source := files[0].name;
    assert source[|source| - 1] == 'c' && files[1].name[19] == 't' && files[2].name[15] == 't';
    assert |files[1].name| == 20 && |files[2].name| == 16;
    assert |MANIFEST| == 19 && MANIFEST[18] == 'n' && |REVIEW_DIFF| == 11 && REVIEW_DIFF[10] == 'f';
    assert |RECEIPT| == 15 && RECEIPT[14] == 'n';
  }

  /** Without auto-apply every successful emit of a running project leaves it blocked at emit. */
  lemma EmitStops(device: string, files: seq<RenderedFile>, p: Project, refs: seq<ArtifactRef>, now: nat)
    requires files != [] && p.current == Emit
    requires var out := Emitted(device, files, false).value;
             LifecycleRuns.Change(p, LifecycleRuns.OpFinish(Emit, out.blocked, out.reason, refs, now)).Some?
    ensures var out := Emitted(device, files, false).value;
            var q := LifecycleRuns.Step(p, LifecycleRuns.OpFinish(Emit, out.blocked, out.reason, refs, now));
            q.current == Emit && q.status == Blocked && q.lastError == LifecycleRuns.AWAITING_APPLY
  {
    hide LifecycleRuns.Change, LifecycleRuns.Step;
    var out := Emitted(device, files, false).value;
    LifecycleRuns.EmitAwaitsApply(p, LifecycleRuns.OpFinish(Emit, out.blocked, out.reason, refs, now));
  }

  /** With it, the project goes on to verify. */
  lemma EmitGoesOn(device: string, files: seq<RenderedFile>, p: Project, refs: seq<ArtifactRef>, now: nat)
    requires files != [] && p.current == Emit
    requires var out := Emitted(device, files, true).value;
             LifecycleRuns.Change(p, LifecycleRuns.OpFinish(Emit, out.blocked, out.reason, refs, now)).Some?
    ensures var out := Emitted(device, files, true).value;
            var q := LifecycleRuns.Step(p, LifecycleRuns.OpFinish(Emit, out.blocked, out.reason, refs, now));
            q.current == Verify && q.status == Pending && CanAdvance(q, Verify)
  {
    hide LifecycleRuns.Change, LifecycleRuns.Step, CanAdvance;
    var out := Emitted(device, files, true).value;
    LifecycleEffects.FinishEffect(p, LifecycleRuns.OpFinish(Emit, out.blocked, out.reason, refs, now));
  }

  /** The manifest of a rendered device creates the device file before it appends to a build file. */
  lemma ManifestCreatesFirst(device: string)
    ensures var entries := EntriesOf(FileSet(device));
            && entries != [] && entries[0].action.Create?
            && forall i | 0 < i < |entries| :: entries[i].action.Modify? && entries[i].path != entries[0].path
  {
    var entries := EntriesOf(FileSet(device));
    var source := entries[0].path;
    assert source[|source| - 1] == 'c';
    assert entries[1].path[|entries[1].path| - 1] == 'd' && entries[2].path[|entries[2].path| - 1] == 'g';
  }

  /** So over any number of applies of one device, each with what the project holds by then, each build
      fragment lands at most once: the first apply that writes anything writes the device file first, and that
      blocks every later one, also when its receipt was recorded or emit was done again in between. */
  lemma FragmentsLandOnce(device: string, runs: seq<App.Apply>, i: nat, j: nat)
    requires App.AllShaped(runs) && forall r | r in runs :: r.manifest == EntriesOf(FileSet(device))
    requires App.DeviceStays(FileSet(device)[0].path, runs)
    requires i < j < |runs| && App.Done(runs[i]).1.written != []
    ensures App.Done(runs[j]) == (runs[j].before, App.Report([], []))
  {
    hide App.AllShaped, App.DeviceStays, App.Done;
    ManifestCreatesFirst(device);
    App.AtMostOneAttemptWrites(FileSet(device)[0].path, runs, i, j);
  }
}

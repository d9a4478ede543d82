/** From emit to the source tree: what emit recorded for a device can be applied, and this is what the tree holds then. */
module EmitLands {
  import opened Common
  import opened RegIr
  import opened Paths
  import opened Lifecycle
  import opened Artifacts
  import opened ArtifactRoundTrip
  import opened Pipeline
  import opened EmitStage
  import P = ApplyPlan
  import App = Applier

  // ----- Names and paths of a device's files

  lemma LowerIsTrimmed(device: string, tail: string)
    requires IsDevice(device) && tail != "" && !IsSpace(tail[|tail| - 1])
    ensures Trimmed(device + tail)
  {
  }

  lemma PlainName(name: string)
    requires 1 <= |name| <= 64 && IsLetter(name[0]) && Trimmed(name) && !HasDotDot(name)
    requires forall i | 0 <= i < |name| :: NameChar(name[i])
    ensures ValidName(name)
  {
    TrimSpaceTrims(name);
    hide TrimSpace;
    assert '/' !in name && '\\' !in name;
  }

  lemma SourceName(device: string)
    requires IsDevice(device) && |device| <= 62
    ensures ValidName(device + ".c")
  {
    var name := device + ".c";
    LowerIsTrimmed(device, ".c");
    assert forall i | 0 <= i < |device| :: name[i] == device[i];
    assert name[|device|] == '.' && name[|device| + 1] == 'c';
    PlainName(name);
  }

  lemma MesonName()
    ensures ValidName("meson.build.fragment")
  {
    PlainName("meson.build.fragment");
  }

  lemma KconfigName()
    ensures ValidName("Kconfig.fragment")
  {
    PlainName("Kconfig.fragment");
  }

  lemma ManifestName()
    ensures ValidName(MANIFEST)
  {
    PlainName(MANIFEST);
  }

  lemma DiffName()
    ensures ValidName(REVIEW_DIFF)
  {
    PlainName(REVIEW_DIFF);
  }

  /** The file names are usable if the device's name is not too long. */
  lemma NamesAreValid(device: string)
    requires IsDevice(device) && |device| <= 62
    ensures forall f | f in FileSet(device) :: ValidName(f.name)
    ensures ValidName(MANIFEST) && ValidName(REVIEW_DIFF)
  {
    hide ValidName, IsDevice;
    SourceName(device);
    MesonName();
    KconfigName();
    ManifestName();
    DiffName();
  }

  /** The paths lead to a file below hw/misc. */
  lemma PathIsValid(name: string)
    requires name != "" && '/' !in name && '\\' !in name && Trimmed(name) && name != "." && name != ".."
    ensures P.PathValid(DEVICE_DIR + "/" + name)
  {
    var path := DEVICE_DIR + "/" + name;
    assert Trimmed(path);
    TrimSpaceTrims(path);
    SplitPlain(name);
    SplitPlain("misc");
    assert path == "hw" + ("/" + ("misc" + ("/" + name)));
    SplitAfter("misc", name);
    SplitAfter("hw", "misc" + ("/" + name));
    assert Split(path) == ["hw", "misc", name];
    assert EntryName("hw") && EntryName("misc") && EntryName(name);
    NoBackslash(path, name);
    P.PathValidExactly(path);
  }

  lemma NoBackslash(path: string, name: string)
    requires path == DEVICE_DIR + "/" + name && '\\' !in name
    ensures '\\' !in path
  {
    assert '\\' !in DEVICE_DIR && '\\' !in "/";
  }

  lemma SourcePath(device: string)
    requires IsDevice(device)
    ensures P.PathValid(DEVICE_DIR + "/" + (device + ".c"))
  {
    var name := device + ".c";
    LowerIsTrimmed(device, ".c");
    assert forall i | 0 <= i < |device| :: name[i] == device[i];
    assert '/' !in name && '\\' !in name;
    assert name != "." && name != ".." by { assert name[|name| - 1] == 'c'; }
    hide P.PathValid;
    PathIsValid(name);
  }

  lemma MesonPath()
    ensures P.PathValid(DEVICE_DIR + "/meson.build")
  {
    hide P.PathValid;
    assert "meson.build"[1] == 'e';
    PathIsValid("meson.build");
    assert DEVICE_DIR + "/" + "meson.build" == DEVICE_DIR + "/meson.build";
  }

  lemma KconfigPath()
    ensures P.PathValid(DEVICE_DIR + "/Kconfig")
  {
    hide P.PathValid;
    assert "Kconfig"[1] == 'c';
    PathIsValid("Kconfig");
    assert DEVICE_DIR + "/" + "Kconfig" == DEVICE_DIR + "/Kconfig";
  }

  lemma PathsAreValid(device: string)
    requires IsDevice(device)
    ensures forall f | f in FileSet(device) :: P.PathValid(f.path)
    ensures FileSet(device)[0].path != FileSet(device)[1].path && FileSet(device)[0].path != FileSet(device)[2].path
            && FileSet(device)[1].path != FileSet(device)[2].path
  {
    hide P.PathValid, IsDevice;
    SourcePath(device);
    MesonPath();
    KconfigPath();
    LastLetters(device);
    assert FileSet(device)[0].path == DEVICE_DIR + "/" + (device + ".c");
  }

  lemma LastLetters(device: string)
    ensures var files := FileSet(device);
            && files[0].path[|files[0].path| - 1] == 'c' && files[1].path[|files[1].path| - 1] == 'd'
            && files[2].path[|files[2].path| - 1] == 'g'
  {
  }

  // ----- The recorded references

  /** The bytes of a file are there behind the reference that goes by its name. */
  predicate Stored(refs: seq<ArtifactRef>, bodies: App.Bodies, f: RenderedFile) {
    var ref := LastNamed(refs, f.name);
    ref.Some? ==> ref.value in bodies && bodies[ref.value] == f.body
  }

  lemma RecordedIsValid(files: seq<RenderedFile>, drafts: seq<Draft>, created: nat)
    requires created != 0 && forall d | d in drafts :: d.stage == Emit && ValidName(d.name) && KindAccepted(d.kind)
    ensures forall ref | ref in RefsOfDrafts(drafts, created) :: ValidRef(ref)
  {
    hide ValidName, KindAccepted;
    var refs := RefsOfDrafts(drafts, created);
    forall i | 0 <= i < |drafts| ensures ValidRef(refs[i]) {
      assert drafts[i] in drafts;
      RefIsValid(drafts[i], created);
    }
  }

  lemma EmittedDrafts(device: string, autoApply: bool)
    requires IsDevice(device) && |device| <= 62
    ensures var drafts := Drafts(Emit, Emitted(device, FileSet(device), autoApply).value);
            drafts.Some? && forall d | d in drafts.value :: d.stage == Emit && ValidName(d.name) && KindAccepted(d.kind)
  {
    NamesAreValid(device);
    hide ValidName;
    var out := Emitted(device, FileSet(device), autoApply).value;
    var files := out.artifacts + out.evidence;
    assert files == out.artifacts;
    forall i | 0 <= i < |files| ensures files[i].stage == Emit && ValidName(files[i].name) && KindAccepted(files[i].kind) {
    }
    assert FiledAll(Emit, files) == files;
  }

  /** The look-ups of an apply find valid references of the right kinds and digests. */
  lemma LookUps(device: string, autoApply: bool, p: Project, created: nat)
    requires IsDevice(device) && |device| <= 62 && created != 0
    requires Drafts(Emit, Emitted(device, FileSet(device), autoApply).value).Some?
    requires HoldsEmitted(p, device, FileSet(device), autoApply, created)
    ensures Emit in p.artifacts
    ensures forall f | f in FileSet(device) :: FoundFor(p.artifacts[Emit], f)
    ensures var diff := LastNamed(p.artifacts[Emit], REVIEW_DIFF); diff.Some? && ValidRef(diff.value) && diff.value.kind == Diff
  {
    hide Emitted, Drafts, ValidRef, FileSet, FreshName, RefsOfDrafts, NamesDiffer, HoldsEmitted, FoundFor, ValidName;
    var files := FileSet(device);
    EmittedDrafts(device, autoApply);
    SomethingEmitted(device, autoApply);
    var drafts := Drafts(Emit, Emitted(device, files, autoApply).value).value;
    RecordedIsValid(files, drafts, created);
    EmitRefs(device, files, autoApply, created);
    var recorded := RefsOfDrafts(drafts, created);
    FreshAfter(p, device, files, autoApply, created, recorded);
    BeginsWith(files, p.artifacts[Emit], recorded);
    NamesApart(device);
    NoEvidence(device);
    FilesFound(files, p.artifacts[Emit]);
  }

  lemma BeginsWith(files: seq<RenderedFile>, refs: seq<ArtifactRef>, recorded: seq<ArtifactRef>)
    requires recorded <= refs && |recorded| == |files| + 2 && RecordedFor(files, recorded)
    requires forall k | |recorded| <= k < |refs| :: FreshName(files, refs[k])
    ensures RecordedFor(files, refs)
  {
    hide ValidRef, FreshName, IsDigest;
    assert recorded == refs[..|recorded|];
    assert forall i | 0 <= i < |recorded| :: refs[i] == recorded[i];
  }

  lemma SomethingEmitted(device: string, autoApply: bool)
    ensures FileSet(device) != [] && Emitted(device, FileSet(device), autoApply).Some?
  {
  }

  predicate FoundFor(refs: seq<ArtifactRef>, f: RenderedFile) {
    var ref := LastNamed(refs, f.name);
    ref.Some? && ValidRef(ref.value) && ref.value.kind != Evidence && ref.value.digest == Sha256(f.body)
  }

  /** The list begins with the valid references of the files, the manifest and the diff, and goes on with others. */
  predicate RecordedFor(files: seq<RenderedFile>, refs: seq<ArtifactRef>) {
    && |refs| >= |files| + 2 && refs[|files|].name == MANIFEST && refs[|files| + 1].name == REVIEW_DIFF
    && ValidRef(refs[|files| + 1]) && refs[|files| + 1].kind == Diff
    && (forall i | 0 <= i < |files| ::
          && refs[i].name == files[i].name && refs[i].digest == Sha256(files[i].body)
          && refs[i].kind == files[i].kind && ValidRef(refs[i]))
    && forall k | |files| + 2 <= k < |refs| :: FreshName(files, refs[k])
  }

  lemma FilesFound(files: seq<RenderedFile>, refs: seq<ArtifactRef>)
    requires RecordedFor(files, refs) && NamesDiffer(files) && forall f | f in files :: f.kind != Evidence
    ensures forall f | f in files :: FoundFor(refs, f)
    ensures var diff := LastNamed(refs, REVIEW_DIFF); diff.Some? && ValidRef(diff.value) && diff.value.kind == Diff
  {
    hide ValidRef, LastNamed, FreshName, NamesDiffer, IsDigest, FoundFor;
    ReservedLookUp(files, refs);
    forall f | f in files ensures FoundFor(refs, f) {
      var i :| 0 <= i < |files| && files[i] == f;
      OneOfThem(files, refs, i);
      FileFound(refs, f, i);
    }
  }

  lemma FileFound(refs: seq<ArtifactRef>, f: RenderedFile, i: nat)
    requires i < |refs| && refs[i].name == f.name && (forall k | i < k < |refs| :: refs[k].name != f.name)
    requires ValidRef(refs[i]) && refs[i].kind == f.kind && f.kind != Evidence && refs[i].digest == Sha256(f.body)
    ensures FoundFor(refs, f)
  {
    hide LastNamed, ValidRef, IsDigest;
    LastNamedIn(refs, i, f.name);
  }

  lemma NoEvidence(device: string)
    ensures forall f | f in FileSet(device) :: f.kind != Evidence
  {
  }

  lemma NamesApart(device: string)
    ensures NamesDiffer(FileSet(device))
  {
    hide NamesDiffer;
    DeviceNamesDiffer(device, ArtifactRef("", Emit, "", Code, 0, "", 0));
  }

  lemma FreshAfter(p: Project, device: string, files: seq<RenderedFile>, autoApply: bool, created: nat,
                   recorded: seq<ArtifactRef>)
    requires files != [] && Drafts(Emit, Emitted(device, files, autoApply).value).Some?
    requires HoldsEmitted(p, device, files, autoApply, created)
    requires recorded == RefsOfDrafts(Drafts(Emit, Emitted(device, files, autoApply).value).value, created)
    ensures Emit in p.artifacts && recorded <= p.artifacts[Emit]
    ensures forall k | |recorded| <= k < |p.artifacts[Emit]| :: FreshName(files, p.artifacts[Emit][k])
  {
    hide Emitted, Drafts, FreshName;
    var refs := p.artifacts[Emit];
    forall k | |recorded| <= k < |refs| ensures FreshName(files, refs[k]) {
      assert refs[|recorded|..][k - |recorded|] == refs[k];
    }
  }

  // ----- Applying

  /** An apply of the device by itself: nobody else edits the tree, and no write is refused. */
  function Alone(t: App.Tree): App.Attempt {
    App.Attempt([t, t, t], [t, t, t], [true, true, true])
  }

  /** A device that emit recorded lands: where there is no such device file yet and the two build files are there, all
      three are written. The device file holds the rendered source, and each build file its old bytes and its fragment. */
  lemma EmittedDeviceLands(device: string, autoApply: bool, p: Project, created: nat, bodies: App.Bodies, t: App.Tree)
    requires IsDevice(device) && |device| <= 62 && created != 0
    requires Drafts(Emit, Emitted(device, FileSet(device), autoApply).value).Some?
    requires HoldsEmitted(p, device, FileSet(device), autoApply, created)
    requires forall f | f in FileSet(device) :: Stored(p.artifacts[Emit], bodies, f) && |f.body| <= App.MAX_APPLY_BYTES
    requires FileSet(device)[0].path !in t && App.Usable(t, FileSet(device)[1].path) && App.Usable(t, FileSet(device)[2].path)
    ensures HasEmitOutput(p)
    ensures var files := FileSet(device);
            var diff := FindArtifact(p, Emit, REVIEW_DIFF).value;
            var (after, report) := App.Outcome(t, p.artifacts[Emit], EntriesOf(files), diff, bodies, Alone(t));
            && report == App.Report([files[0].path, files[1].path, files[2].path], [])
            && files[0].path in after && after[files[0].path] == App.File(SourceText(device))
            && files[1].path in after && after[files[1].path].File? && files[2].path in after && after[files[2].path].File?
            && App.Appended(t[files[1].path].body, MesonFragment(device), after[files[1].path].body)
            && App.Appended(t[files[2].path].body, KconfigFragment(device), after[files[2].path].body)
            && forall path | path !in report.written :: (path in after <==> path in t) && (path in t ==> after[path] == t[path])
  {
    hide HoldsEmitted, Emitted, Drafts, P.PathValid, ValidRef, LastNamed, IsDevice, App.Appended, App.Outcome, FoundFor, Stored,
      App.Usable, App.ManifestReady, Alone, App.Accounted, EntriesOf, FileSet, Map, App.Undisturbed;
    var files := FileSet(device);
    LookUps(device, autoApply, p, created);
    var refs := p.artifacts[Emit];
    ManifestFound(device, autoApply, p, created);
    var manifest := EntriesOf(files);
    var diff := LastNamed(refs, REVIEW_DIFF).value;
    DeviceReady(device, refs, diff, bodies, t);
    App.EverythingLands(t, refs, manifest, diff, bodies, Alone(t));
    App.ReadyExactly(refs, manifest, diff, bodies, Alone(t));
    App.LandingIsExact(t, refs, manifest, diff, bodies, Alone(t));
    forall f | f in files ensures LastNamed(refs, f.name).Some? {
      FoundIsSome(refs, f);
    }
    Accounts(device, refs, manifest, diff, bodies, t);
    ThreePaths(device);
  }

  lemma FoundIsSome(refs: seq<ArtifactRef>, f: RenderedFile)
    requires FoundFor(refs, f)
    ensures LastNamed(refs, f.name).Some?
  {
    hide LastNamed, ValidRef;
  }

  lemma ThreePaths(device: string)
    ensures var files := FileSet(device); Map(App.EntryPath, EntriesOf(files)) == [files[0].path, files[1].path, files[2].path]
  {
  }

  /** Every check of the apply passes. */
  lemma DeviceReady(device: string, refs: seq<ArtifactRef>, diff: ArtifactRef, bodies: App.Bodies, t: App.Tree)
    requires IsDevice(device) && ValidRef(diff) && diff.kind == Diff
    requires forall f | f in FileSet(device) ::
               FoundFor(refs, f) && Stored(refs, bodies, f) && |f.body| <= App.MAX_APPLY_BYTES
    requires FileSet(device)[0].path !in t && App.Usable(t, FileSet(device)[1].path) && App.Usable(t, FileSet(device)[2].path)
    ensures var manifest := EntriesOf(FileSet(device));
            && App.Shaped(manifest, Alone(t)) && App.ManifestReady(refs, manifest, diff, bodies, Alone(t))
            && App.Undisturbed(t, manifest, Alone(t)) && forall i | 0 <= i < |Alone(t).allowed| :: Alone(t).allowed[i]
  {
    hide P.PathValid, ValidRef, LastNamed, IsDevice, App.EntryReady, FoundFor, Stored, App.Usable;
    PathsAreValid(device);
    var files := FileSet(device);
    assert files[0] in files && files[1] in files && files[2] in files;
    FileReady(files[0], refs, bodies, t);
    FileReady(files[1], refs, bodies, t);
    FileReady(files[2], refs, bodies, t);
    hide App.TargetAt;
  }

  lemma FileReady(f: RenderedFile, refs: seq<ArtifactRef>, bodies: App.Bodies, t: App.Tree)
    requires FoundFor(refs, f) && Stored(refs, bodies, f) && |f.body| <= App.MAX_APPLY_BYTES && P.PathValid(f.path)
    requires (f.action == P.Create && f.path !in t) || (f.action == P.Modify && App.Usable(t, f.path))
    ensures App.EntryReady(refs, bodies, EntryOf(f), t, t)
  {
    hide P.PathValid, ValidRef, LastNamed;
  }

  lemma ManifestFound(device: string, autoApply: bool, p: Project, created: nat)
    requires Drafts(Emit, Emitted(device, FileSet(device), autoApply).value).Some?
    requires HoldsEmitted(p, device, FileSet(device), autoApply, created)
    ensures HasEmitOutput(p)
  {
    DeviceNamesDiffer(device, RefOf(DraftOf(FileSet(device)[0]), created));
    hide FileSet, Emitted, Drafts, NamesDiffer, HoldsEmitted;
    EmitRecordsWhatApplyNeeds(device, FileSet(device), autoApply, p, created);
  }

  lemma Accounts(device: string, refs: seq<ArtifactRef>, manifest: seq<P.Entry>, diff: ArtifactRef, bodies: App.Bodies,
                 t: App.Tree)
    requires manifest == EntriesOf(FileSet(device))
    requires forall f | f in FileSet(device) :: LastNamed(refs, f.name).Some? && Stored(refs, bodies, f)
    requires var (after, report) := App.Outcome(t, refs, manifest, diff, bodies, Alone(t));
             && report.written == Map(App.EntryPath, manifest)
             && forall i | 0 <= i < |report.written| :: App.Accounted(refs, bodies, manifest[i], t, after)
    ensures var after := App.Outcome(t, refs, manifest, diff, bodies, Alone(t)).0;
            var files := FileSet(device);
            && files[0].path in after && after[files[0].path] == App.File(SourceText(device))
            && files[1].path in after && after[files[1].path].File? && files[1].path in t && t[files[1].path].File?
            && files[2].path in after && after[files[2].path].File? && files[2].path in t && t[files[2].path].File?
            && App.Appended(t[files[1].path].body, MesonFragment(device), after[files[1].path].body)
            && App.Appended(t[files[2].path].body, KconfigFragment(device), after[files[2].path].body)
  {
    hide LastNamed, App.Appended, App.Outcome;
    var files := FileSet(device);
    var (after, report) := App.Outcome(t, refs, manifest, diff, bodies, Alone(t));
    assert files[0] in files && files[1] in files && files[2] in files;
    assert App.Accounted(refs, bodies, manifest[0], t, after);
    assert App.Accounted(refs, bodies, manifest[1], t, after);
    assert App.Accounted(refs, bodies, manifest[2], t, after);
  }
}

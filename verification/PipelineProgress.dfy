/** An advance that nothing disturbs goes through: the stage runs, its files are stored, and the project moves. */
module PipelineProgress {
  import opened Common
  import opened Lifecycle
  import opened LifecycleRuns
  import opened LifecycleEffects
  import opened ProjectStore
  import opened Artifacts
  import opened ArtifactRoundTrip
  import opened Pipeline
  import opened PipelineAnswers
  import PipelineSafety

  lemma {:induction false} ExecConcat(w: World, a: seq<Action>, b: seq<Action>)
    ensures Exec(w, a + b) == Exec(Exec(w, a), b)
  {
    hide Next;
    if b == [] {
      assert a + b == a;
    } else {
      var front := b[..|b| - 1];
      ExecConcat(w, a, front);
      assert (a + b)[..|a + b| - 1] == a + front;
    }
  }

  lemma ExecOne(w: World, a: Action)
    ensures Exec(w, [a]) == Next(w, a)
  {
    hide Next;
    assert Exec(w, [a][..0]) == w;
  }

  // ----- Storing the files

  function Commits(id: nat, now: nat, category: string, n: nat): seq<Action> {
    seq(n, _ => CommitNext(id, now, true, 0, category))
  }

  predicate Mine(w: World, id: nat, c: Client) {
    id in w.clients && w.clients[id] == c
  }

  /** The other parts of the world are as they were. */
  predicate SameProject(w: World, w': World) {
    w'.stored == w.stored && w'.history == w.history && w'.limits == w.limits && w'.nextRun == w.nextRun
  }

  lemma {:induction false} CommitsGoThrough(w: World, id: nat, purpose: Purpose, base: Project, batch: Batch, k: nat,
                                            bodies: seq<Bytes>, now: nat, category: string)
    requires k <= |batch.refs| == |bodies| && Mine(w, id, Committing(purpose, base, batch, k))
    requires Ready(w.tree, batch.dir, batch.refs[k..], bodies[k..]) && BatchOk(w.tree.home, w.stored.id, batch)
    ensures var w' := Exec(w, Commits(id, now, category, |batch.refs| - k));
            && SameProject(w, w') && w'.tree.home == w.tree.home
            && Mine(w', id, Committing(purpose, base, batch, |batch.refs|))
    decreases |batch.refs| - k
  {
    hide BatchOk, Ready, CommitRef;
    var n := |batch.refs| - k;
    if n > 0 {
      assert batch.refs[k..][0] == batch.refs[k];
      OneCommitted(w.tree, batch.dir, batch.refs[k..], bodies[k..]);
      var a := CommitNext(id, now, true, 0, category);
      var w1 := Next(w, a);
      assert batch.refs[k..][1..] == batch.refs[k + 1..] && bodies[k..][1..] == bodies[k + 1..];
      CommitsGoThrough(w1, id, purpose, base, batch, k + 1, bodies, now, category);
      assert Commits(id, now, category, n) == [a] + Commits(id, now, category, n - 1);
      ExecConcat(w, [a], Commits(id, now, category, n - 1));
      ExecOne(w, a);
    }
  }

  // ----- The whole advance

  /** The output as the pipeline files it under the stage. */
  function Labelled(stage: Stage, out: StageOutput): seq<Draft> {
    var files := out.artifacts + out.evidence;
    seq(|files|, i requires 0 <= i < |files| => files[i].(stage := stage))
  }

  /** The pipeline's rules for an output: evidence is evidence, and no file is another stage's. */
  predicate Acceptable(stage: Stage, out: StageOutput) {
    && (forall d | d in out.evidence :: d.kind == Evidence)
    && forall d | d in out.artifacts + out.evidence :: d.stage == stage || d.stage == Unknown("")
  }

  lemma AcceptedAs(stage: Stage, out: StageOutput)
    requires Acceptable(stage, out)
    ensures Drafts(stage, out) == Some(Labelled(stage, out))
  {
    var files := out.artifacts + out.evidence;
    forall i | 0 <= i < |files| ensures FiledAll(stage, files)[i] == files[i].(stage := stage) {
      assert files[i] in files;
    }
    assert FiledAll(stage, files) == Labelled(stage, out);
  }

  /** The files are staged and committed, and the outcome is saved. */
  function StoreAndSave(id: nat, batch: string, now: nat, category: string, n: nat): seq<Action> {
    [Store(id, batch, now, n, category)] + (Commits(id, now, category, n) + [CommitEnd(id, now, 2, 0, category), Save(id, true)])
  }

  /** Load and save, the run, and then the same. */
  function Advance(target: Stage, id: nat, out: StageOutput, batch: string, now: nat, category: string): seq<Action> {
    [LoadAdvance(target, now)]
    + ([Save(id, true)]
       + ([StageReturns(id, out, category)] + StoreAndSave(id, batch, now, category, |out.artifacts + out.evidence|)))
  }

  lemma Begins(w: World, now: nat)
    requires ValidProject(w.stored) && w.stored.status != Running && now != 0
    ensures var op := OpBegin(w.stored.current, now);
            && Change(w.stored, op).Some?
            && var base := Step(w.stored, op);
               && base == w.stored.(status := Running, lastError := "", updatedAt := now, revision := w.stored.revision + 1)
               && ValidProject(base)
               && var w2 := Next(Next(w, LoadAdvance(w.stored.current, now)), Save(w.nextRun, true));
                  && w2 == w.(stored := base, history := w.history + [Saved(base, w.nextRun, ByBegin)], trace := w.trace + [op],
                              clients := w.clients[w.nextRun := Working(base)], nextRun := w.nextRun + 1)
  {
    hide ValidRef, ValidProjectId, TrimSpace, RefsOf, ShortCategory;
    var op := OpBegin(w.stored.current, now);
    assert Change(w.stored, op).Some?;
    hide SaveAllowed, Change, ValidProject, Step, CanAdvance;
    BeginEffect(w.stored, op);
    StepReplaces(w.stored, op);
    ValidStep(w.stored, op);
    var w1 := Next(w, LoadAdvance(w.stored.current, now));
    assert w1.clients[w.nextRun := Working(Step(w.stored, op))] == w.clients[w.nextRun := Working(Step(w.stored, op))];
  }

  function BodiesOf(drafts: seq<Draft>): seq<Bytes> {
    seq(|drafts|, i requires 0 <= i < |drafts| => drafts[i].body)
  }

  lemma StorableIsSome(t: Tree, project: string, drafts: seq<Draft>, batch: string, now: nat, limits: Limits)
    requires Storable(t, project, drafts, batch, now, limits)
    ensures drafts != []
  {
  }

  /** All files are committed. */
  predicate HasStored(w: World, id: nat, purpose: Purpose, base: Project, refs: seq<ArtifactRef>) {
    && id in w.clients && w.clients[id].Committing? && w.clients[id].base == base && w.clients[id].purpose == purpose
    && w.clients[id].done == |w.clients[id].batch.refs| && w.clients[id].batch.refs == refs
  }

  lemma Stages(w: World, id: nat, purpose: Purpose, base: Project, drafts: seq<Draft>, batch: string, now: nat,
               category: string)
    requires Mine(w, id, Storing(purpose, base, drafts)) && w.stored.id == base.id
    requires Storable(w.tree, base.id, drafts, batch, now, w.limits) && NoCollision(w.tree, drafts, now)
    ensures var (tree, handle) := Artifacts.Stage(w.tree, base.id, drafts, batch, now, w.limits, |drafts|);
            var w' := Next(w, Store(id, batch, now, |drafts|, category));
            && handle.Some? && handle.value.refs == RefsOfDrafts(drafts, now) && BatchOk(tree.home, base.id, handle.value)
            && Ready(tree, handle.value.dir, handle.value.refs, BodiesOf(drafts))
            && SameProject(w, w') && w'.tree == tree && Mine(w', id, Committing(purpose, base, handle.value, 0))
  {
    hide Artifacts.Stage, Storable, NoCollision, Ready, BatchOk, RefsOfDrafts;
    StagedIsReady(w.tree, base.id, drafts, batch, now, w.limits, |drafts|);
    StorableIsSome(w.tree, base.id, drafts, batch, now, w.limits);
    assert BodiesOf(drafts) == seq(|drafts|, i requires 0 <= i < |drafts| => drafts[i].body);
  }

  lemma Stores(w: World, id: nat, purpose: Purpose, base: Project, drafts: seq<Draft>, batch: string, now: nat,
               category: string)
    requires Mine(w, id, Storing(purpose, base, drafts)) && w.stored.id == base.id
    requires Storable(w.tree, base.id, drafts, batch, now, w.limits) && NoCollision(w.tree, drafts, now)
    ensures var w' := Exec(w, [Store(id, batch, now, |drafts|, category)] + Commits(id, now, category, |drafts|));
            SameProject(w, w') && HasStored(w', id, purpose, base, RefsOfDrafts(drafts, now))
  {
    hide Next, Artifacts.Stage, Storable, NoCollision, Ready, BatchOk, Commits, RefOf;
    var n := |drafts|;
    var a := Store(id, batch, now, n, category);
    var w1 := Next(w, a);
    Stages(w, id, purpose, base, drafts, batch, now, category);
    var handle := Artifacts.Stage(w.tree, base.id, drafts, batch, now, w.limits, n).1.value;
    assert handle.refs[0..] == handle.refs && BodiesOf(drafts)[0..] == BodiesOf(drafts);
    CommitsGoThrough(w1, id, purpose, base, handle, 0, BodiesOf(drafts), now, category);
    ExecConcat(w, [a], Commits(id, now, category, n));
    ExecOne(w, a);
  }

  /** The transition that a purpose stands for. */
  predicate EndsWith(purpose: Purpose, base: Project, refs: seq<ArtifactRef>, now: nat, how: How, op: Op) {
    match purpose
    case Success(blocked, reason) => how == ByFinish && op == OpFinish(base.current, blocked, reason, refs, now)
    case Failure(category) => how == ByFail && op == OpFail(base.current, category, refs, now)
    case Landing(partial) => how == ByLand && op == OpLand(partial, refs, now)
  }

  lemma Saves(w: World, id: nat, purpose: Purpose, base: Project, refs: seq<ArtifactRef>, now: nat, category: string,
              how: How, op: Op)
    requires HasStored(w, id, purpose, base, refs) && w.stored == base && ValidProject(base)
    requires EndsWith(purpose, base, refs, now, how, op) && Change(base, op).Some?
    ensures var w' := Next(Next(w, CommitEnd(id, now, 2, 0, category)), Save(id, true));
            && id !in w'.clients && w'.history == w.history + [Saved(Step(base, op), id, how)] && w'.stored == Step(base, op)
  {
    hide RemoveAll, Discard, SaveAllowed, Step, Change, ValidProject;
    StepReplaces(base, op);
    var w1 := Next(w, CommitEnd(id, now, 2, 0, category));
    assert Mine(w1, id, Saving(how, base, op));
  }

  lemma StoredAndSaved(w: World, id: nat, purpose: Purpose, base: Project, drafts: seq<Draft>, batch: string, now: nat,
                       category: string, how: How, op: Op)
    requires Mine(w, id, Storing(purpose, base, drafts)) && w.stored == base && ValidProject(base)
    requires Storable(w.tree, base.id, drafts, batch, now, w.limits) && NoCollision(w.tree, drafts, now)
    requires EndsWith(purpose, base, RefsOfDrafts(drafts, now), now, how, op) && Change(base, op).Some?
    ensures var w' := Exec(w, StoreAndSave(id, batch, now, category, |drafts|));
            && id !in w'.clients && w'.history == w.history + [Saved(Step(base, op), id, how)] && w'.stored == Step(base, op)
  {
    hide Next, Step, Change, ValidProject, Storable, NoCollision, RefsOfDrafts, Commits, HasStored, EndsWith;
    Stores(w, id, purpose, base, drafts, batch, now, category);
    var first := [Store(id, batch, now, |drafts|, category)] + Commits(id, now, category, |drafts|);
    var end, save := CommitEnd(id, now, 2, 0, category), Save(id, true);
    var w1 := Exec(w, first);
    Saves(w1, id, purpose, base, RefsOfDrafts(drafts, now), now, category, how, op);
    ExecOne(w1, end);
    ExecOne(Next(w1, end), save);
    ExecConcat(w1, [end], [save]);
    ExecConcat(w, first, [end] + [save]);
    assert StoreAndSave(id, batch, now, category, |drafts|) == first + ([end] + [save]);
  }

  lemma DraftRefs(stage: Stage, drafts: seq<Draft>, now: nat)
    requires Known(stage) && now != 0
    requires forall d | d in drafts :: d.stage == stage && ValidName(d.name) && KindAccepted(d.kind)
    ensures var refs := RefsOfDrafts(drafts, now); RefsOf(stage, refs) && RefsFor(refs, stage, drafts)
    ensures (forall d | d in drafts :: d.kind == Evidence) ==> EvidenceOf(stage, RefsOfDrafts(drafts, now))
  {
    hide ValidName, KindAccepted;
    forall i | 0 <= i < |drafts| ensures ValidRef(RefOf(drafts[i], now)) && RefFor(RefOf(drafts[i], now), stage, drafts[i])
      ensures drafts[i] in drafts
    {
      assert drafts[i] in drafts;
      RefIsValid(drafts[i], now);
    }
  }

  lemma StorableNames(t: Tree, project: string, drafts: seq<Draft>, batch: string, now: nat, limits: Limits)
    requires Storable(t, project, drafts, batch, now, limits)
    ensures forall d | d in drafts :: ValidName(d.name) && KindAccepted(d.kind)
  {
    hide ValidName, KindAccepted;
  }

  lemma KnownCurrent(p: Project)
    requires ValidProject(p)
    ensures Known(p.current)
  {
  }

  lemma FinishedHolds(base: Project, op: Op)
    requires op.OpFinish? && FinishedAs(base, op.stage, op.blocked, op.reason, op.refs, Step(base, op))
    ensures var q := Step(base, op); op.stage in q.artifacts && q.artifacts[op.stage] == op.refs
  {
    hide Step;
  }

  lemma FinishAllowed(p: Project, op: Op)
    requires op.OpFinish? && p.status == Running && p.current == op.stage && op.now != 0 && RefsOf(op.stage, op.refs)
    ensures Change(p, op).Some?
  {
    hide RefsOf, ClearAfter, ShortCategory, CollectEvidence;
  }

  /** From the return of an acceptable output on. */
  lemma ReturnGoesThrough(w: World, id: nat, base: Project, out: StageOutput, batch: string, now: nat, category: string)
    requires Mine(w, id, Working(base)) && w.stored == base && ValidProject(base) && base.status == Running && now != 0
    requires Acceptable(base.current, out)
    requires var drafts := Labelled(base.current, out);
             Storable(w.tree, base.id, drafts, batch, now, w.limits) && NoCollision(w.tree, drafts, now)
    ensures var n := |out.artifacts + out.evidence|;
            var w' := Exec(w, [StageReturns(id, out, category)] + StoreAndSave(id, batch, now, category, n));
            && id !in w'.clients && |w'.history| == |w.history| + 1 && w'.history[..|w.history|] == w.history
            && var q := w'.history[|w.history|].project;
               && w'.history[|w.history|] == Saved(q, id, ByFinish) && w'.stored == q
               && HoldsFiles(q, base.current, out.artifacts + out.evidence)
               && FinishedAs(base, base.current, out.blocked, out.reason, q.artifacts[base.current], q)
  {
    hide Storable, NoCollision, Acceptable, FinishedAs, ValidProject, StoreAndSave, Step, Change, RefFor, RefsOf, RefsOfDrafts,
      Drafts, EvidenceOf;
    var drafts := Labelled(base.current, out);
    var refs := RefsOfDrafts(drafts, now);
    KnownCurrent(base);
    StorableNames(w.tree, base.id, drafts, batch, now, w.limits);
    DraftRefs(base.current, drafts, now);
    RelabelledRefs(base.current, out, refs);
    var op := OpFinish(base.current, out.blocked, out.reason, refs, now);
    FinishAllowed(base, op);
    FinishEffect(base, op);
    FinishedHolds(base, op);
    AcceptedAs(base.current, out);
    var a := StageReturns(id, out, category);
    StoredAndSaved(Next(w, a), id, Success(out.blocked, out.reason), base, drafts, batch, now, category, ByFinish, op);
    ExecOne(w, a);
    ExecConcat(w, [a], StoreAndSave(id, batch, now, category, |drafts|));
  }

  lemma RelabelledRefs(stage: Stage, out: StageOutput, refs: seq<ArtifactRef>)
    requires RefsFor(refs, stage, Labelled(stage, out))
    ensures RefsFor(refs, stage, out.artifacts + out.evidence)
  {
    var files := out.artifacts + out.evidence;
    forall i | 0 <= i < |files| ensures RefFor(refs[i], stage, files[i]) {
      assert RefFor(refs[i], stage, Labelled(stage, out)[i]);
    }
  }

  /** From any world with a valid project that is not running, whoever else is at work in it: an advance that nobody
      interrupts, whose output is acceptable and whose files can be stored, is saved as the success that the output
      is, with the references of its files. */
  lemma AdvanceGoesThrough(w: World, out: StageOutput, batch: string, now: nat, category: string)
    requires ValidProject(w.stored) && w.stored.status != Running && now != 0
    requires Acceptable(w.stored.current, out)
    requires var drafts := Labelled(w.stored.current, out);
             Storable(w.tree, w.stored.id, drafts, batch, now, w.limits) && NoCollision(w.tree, drafts, now)
    ensures var w' := Exec(w, Advance(w.stored.current, w.nextRun, out, batch, now, category));
            var n := |w.history|;
            && |w'.history| == n + 2 && w'.history[..n] == w.history && w.nextRun !in w'.clients
            && var base, q := w'.history[n].project, w'.history[n + 1].project;
               && w'.history[n] == Saved(base, w.nextRun, ByBegin) && w'.history[n + 1] == Saved(q, w.nextRun, ByFinish)
               && base.current == w.stored.current && base.status == Running && base.artifacts == w.stored.artifacts
               && w'.stored == q && HoldsFiles(q, base.current, out.artifacts + out.evidence)
               && FinishedAs(base, base.current, out.blocked, out.reason, q.artifacts[base.current], q)
  {
    hide Next, Storable, NoCollision, Labelled, Acceptable, FinishedAs, HoldsFiles, ValidProject, Exec, StoreAndSave;
    var id, stage, n := w.nextRun, w.stored.current, |out.artifacts + out.evidence|;
    Begins(w, now);
    var load, save := LoadAdvance(stage, now), Save(id, true);
    var w1 := Next(w, load);
    var w2 := Next(w1, save);
    ReturnGoesThrough(w2, id, w2.stored, out, batch, now, category);
    var rest := [StageReturns(id, out, category)] + StoreAndSave(id, batch, now, category, n);
    ExecOne(w, load);
    ExecOne(w1, save);
    ExecConcat(w1, [save], rest);
    ExecConcat(w, [load], [save] + rest);
  }

  // ----- Failures and landings

  lemma FailAllowed(p: Project, op: Op)
    requires op.OpFail? && p.status == Running && p.current == op.stage && op.now != 0 && EvidenceOf(op.stage, op.refs)
    requires ShortCategory(op.kind) != ""
    ensures Change(p, op).Some?
  {
    hide EvidenceOf, ShortCategory;
  }

  /** A stage run that fails with evidence that can be stored is saved as that failure, with the references of the
      evidence added to what the stage held. */
  lemma FailureGoesThrough(w: World, id: nat, base: Project, evidence: seq<Draft>, batch: string, now: nat, category: string)
    requires Mine(w, id, Working(base)) && w.stored == base && ValidProject(base) && base.status == Running && now != 0
    requires (forall d | d in evidence :: d.kind == Evidence && d.stage == base.current) && ShortCategory(category) != ""
    requires Storable(w.tree, base.id, evidence, batch, now, w.limits) && NoCollision(w.tree, evidence, now)
    ensures var w' := Exec(w, [StageFails(id, evidence, category)] + StoreAndSave(id, batch, now, category, |evidence|));
            && id !in w'.clients && |w'.history| == |w.history| + 1 && w'.history[|w.history|].how == ByFail
            && exists refs :: RefsFor(refs, base.current, evidence)
                              && FailedAs(base, base.current, category, refs, w'.stored)
  {
    hide Storable, NoCollision, FailedAs, ValidProject, StoreAndSave, Step, Change, RefFor, RefsOf, RefsOfDrafts, EvidenceDrafts,
      EvidenceOf, ShortCategory;
    var refs := RefsOfDrafts(evidence, now);
    KnownCurrent(base);
    StorableNames(w.tree, base.id, evidence, batch, now, w.limits);
    DraftRefs(base.current, evidence, now);
    var op := OpFail(base.current, category, refs, now);
    FailAllowed(base, op);
    FailEffect(base, op);
    EvidenceAsIs(base.current, evidence);
    var a := StageFails(id, evidence, category);
    StoredAndSaved(Next(w, a), id, Failure(category), base, evidence, batch, now, category, ByFail, op);
    ExecOne(w, a);
    ExecConcat(w, [a], StoreAndSave(id, batch, now, category, |evidence|));
  }

  lemma EvidenceAsIs(stage: Stage, evidence: seq<Draft>)
    requires forall d | d in evidence :: d.kind == Evidence && d.stage == stage
    ensures EvidenceDrafts(stage, evidence) == evidence
  {
    forall i | 0 <= i < |evidence| ensures FiledAll(stage, evidence)[i] == evidence[i] {
      assert evidence[i] in evidence;
    }
    assert FiledAll(stage, evidence) == evidence;
  }

  lemma LandAllowed(p: Project, op: Op)
    requires op.OpLand? && HasEmitOutput(p) && op.now != 0 && EvidenceOf(Emit, op.refs) && (op.partial || p.status != Running)
    ensures Change(p, op).Some?
  {
    hide EvidenceOf, LastNamed;
    PartialHasCategory();
    hide ShortCategory;
    NothingNamed(p.artifacts[Emit], MANIFEST);
  }

  lemma PartialHasCategory()
    ensures ShortCategory(APPLY_PARTIAL) != ""
  {
    PipelineSafety.PartialIsACategory();
  }

  /** A landing whose receipt can be stored is recorded with it. */
  lemma LandingGoesThrough(w: World, partial: bool, receipt: Draft, batch: string, now: nat, category: string)
    requires ValidProject(w.stored) && HasEmitOutput(w.stored) && now != 0 && (partial || w.stored.status != Running)
    requires receipt.kind == Evidence && receipt.stage == Emit
    requires Storable(w.tree, w.stored.id, [receipt], batch, now, w.limits) && NoCollision(w.tree, [receipt], now)
    ensures var w' := Exec(w, [LoadLanding(partial, receipt)] + StoreAndSave(w.nextRun, batch, now, category, 1));
            && w.nextRun !in w'.clients && |w'.history| == |w.history| + 1 && w'.history[|w.history|].how == ByLand
            && exists refs :: RefsFor(refs, Emit, [receipt]) && LandedAs(w.stored, partial, refs, w'.stored)
  {
    hide Storable, NoCollision, LandedAs, ValidProject, StoreAndSave, Step, Change, RefFor, RefsOf, RefsOfDrafts, EvidenceOf,
      HasEmitOutput;
    var id, base := w.nextRun, w.stored;
    var refs := RefsOfDrafts([receipt], now);
    StorableNames(w.tree, base.id, [receipt], batch, now, w.limits);
    DraftRefs(Emit, [receipt], now);
    var op := OpLand(partial, refs, now);
    LandAllowed(base, op);
    LandEffect(base, op);
    var a := LoadLanding(partial, receipt);
    StoredAndSaved(Next(w, a), id, Landing(partial), base, [receipt], batch, now, category, ByLand, op);
    ExecOne(w, a);
    ExecConcat(w, [a], StoreAndSave(id, batch, now, category, 1));
  }

  // ----- Giving up

  /** The failure that is recorded when a client gives up. */
  predicate GivenUp(purpose: Purpose, base: Project, category: string, saved: Saved) {
    match purpose
    case Success(_, _) => saved.how == ByFail && FailedAs(base, base.current, category, [], saved.project)
    case Failure(own) => saved.how == ByFail && FailedAs(base, base.current, own, [], saved.project)
    case Landing(partial) => saved.how == ByLand && LandedAs(base, partial, [], saved.project)
  }

  /** What a client works on while it stores, and that its failure has a category. */
  predicate Storer(w: World, id: nat, purpose: Purpose, base: Project, category: string) {
    && w.stored == base && ValidProject(base) && id in w.clients && w.clients[id].base == base
    && (!purpose.Landing? ==> base.status == Running && ShortCategory(if purpose.Failure? then purpose.category else category) != "")
    && (purpose.Landing? ==> HasEmitOutput(base) && (purpose.partial || base.status != Running))
  }

  lemma GivingUpSaves(w: World, id: nat, purpose: Purpose, base: Project, now: nat, category: string, tree: Tree)
    requires Storer(w, id, purpose, base, category) && now != 0
    ensures var w' := Next(GiveUp(w.(tree := tree), id, purpose, base, now, category), Save(id, true));
            && |w'.history| == |w.history| + 1 && w'.history[..|w.history|] == w.history && w'.stored == w'.history[|w.history|].project
            && w'.history[|w.history|].run == id && GivenUp(purpose, base, category, w'.history[|w.history|])
  {
    hide Change, Step, SaveAllowed, ValidProject, HasEmitOutput, FailedAs, LandedAs, ShortCategory;
    NoEvidence(base.current);
    NoEvidence(Emit);
    var op := if purpose.Landing? then OpLand(purpose.partial, [], now)
              else OpFail(base.current, if purpose.Failure? then purpose.category else category, [], now);
    if purpose.Landing? {
      LandAllowed(base, op);
      LandEffect(base, op);
    } else {
      FailAllowed(base, op);
      FailEffect(base, op);
    }
    StepReplaces(base, op);
    var w1 := GiveUp(w.(tree := tree), id, purpose, base, now, category);
    assert Mine(w1, id, Saving(if purpose.Landing? then ByLand else ByFail, base, op));
  }

  lemma NoEvidence(stage: Stage)
    ensures EvidenceOf(stage, [])
  {
  }

  /** Where the files cannot be staged, or one cannot be committed, or the end of the commit fails, what is saved next is
      a failure of the stage without evidence, or the landing without its receipt; nothing is left unsaid. */
  lemma StoreFailureIsSaved(w: World, id: nat, batch: string, now: nat, io: nat, category: string)
    requires id in w.clients && w.clients[id].Storing? && w.clients[id].drafts != [] && now != 0
    requires Storer(w, id, w.clients[id].purpose, w.stored, category)
    requires Artifacts.Stage(w.tree, w.stored.id, w.clients[id].drafts, batch, now, w.limits, io).1.None?
    ensures var w' := Next(Next(w, Store(id, batch, now, io, category)), Save(id, true));
            |w'.history| == |w.history| + 1 && GivenUp(w.clients[id].purpose, w.stored, category, w'.history[|w.history|])
  {
    hide Artifacts.Stage, GivenUp, Storer, GiveUp, SaveClient;
    BaseIsStored(w, id, category);
    var c := w.clients[id];
    GivingUpSaves(w, id, c.purpose, c.base, now, category, Artifacts.Stage(w.tree, w.stored.id, c.drafts, batch, now, w.limits, io).0);
  }

  lemma BaseIsStored(w: World, id: nat, category: string)
    requires id in w.clients && (w.clients[id].Storing? || w.clients[id].Committing?)
    requires Storer(w, id, w.clients[id].purpose, w.stored, category)
    ensures w.clients[id].base == w.stored
  {
  }

  lemma CommitFailureIsSaved(w: World, id: nat, now: nat, discardIo: nat, category: string)
    requires id in w.clients && w.clients[id].Committing? && w.clients[id].done < |w.clients[id].batch.refs| && now != 0
    requires Storer(w, id, w.clients[id].purpose, w.stored, category)
    ensures var w' := Next(Next(w, CommitNext(id, now, false, discardIo, category)), Save(id, true));
            |w'.history| == |w.history| + 1 && GivenUp(w.clients[id].purpose, w.stored, category, w'.history[|w.history|])
  {
    hide GivenUp, Storer, GiveUp, SaveClient, Discard;
    BaseIsStored(w, id, category);
    var c := w.clients[id];
    GivingUpSaves(w, id, c.purpose, c.base, now, category, Discard(w.tree, w.stored.id, c.batch, discardIo).0);
  }

  lemma EndFailureIsSaved(w: World, id: nat, now: nat, io: nat, discardIo: nat, category: string)
    requires id in w.clients && w.clients[id].Committing? && w.clients[id].done == |w.clients[id].batch.refs| && now != 0
    requires Storer(w, id, w.clients[id].purpose, w.stored, category) && io <= 1
    ensures var w' := Next(Next(w, CommitEnd(id, now, io, discardIo, category)), Save(id, true));
            |w'.history| == |w.history| + 1 && GivenUp(w.clients[id].purpose, w.stored, category, w'.history[|w.history|])
  {
    hide GivenUp, Storer, GiveUp, SaveClient, Discard;
    BaseIsStored(w, id, category);
    var c := w.clients[id];
    var listed := if io > 0 then w.tree.(manifest := w.tree.manifest + c.batch.refs) else w.tree;
    GivingUpSaves(w, id, c.purpose, c.base, now, category, Discard(listed, w.stored.id, c.batch, discardIo).0);
  }

  /** A reset of a valid project is saved, whatever it was doing. */
  lemma ResetGoesThrough(w: World, stage: Stage, now: nat)
    requires ValidProject(w.stored) && Known(stage) && now != 0
    ensures var w' := Next(Next(w, LoadReset(stage, now)), Save(w.nextRun, true));
            && |w'.history| == |w.history| + 1 && w'.history[|w.history|].how == ByReset
            && w'.stored == w'.history[|w.history|].project && ResetTo(w.stored, stage, w'.stored)
  {
    hide Change, Step, SaveAllowed, ValidProject, ResetTo;
    var op := OpReset(stage, now);
    ResetAllowed(w.stored, op);
    ResetEffect(w.stored, op);
    StepReplaces(w.stored, op);
  }

  lemma ResetAllowed(p: Project, op: Op)
    requires op.OpReset? && Known(op.stage) && op.now != 0
    ensures Change(p, op).Some?
  {
    hide ClearAfter;
  }
}

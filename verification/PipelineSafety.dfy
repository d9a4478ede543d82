/** What holds in every reachable world of the pipeline protocol, whatever the interleaving and wherever
    clients stop or the process crashes. */
module PipelineSafety {
  import opened Common
  import opened Lifecycle
  import opened LifecycleRuns
  import opened ProjectStore
  import opened Artifacts
  import opened Paths
  import opened Pipeline

  // ----- Revisions and serialisation

  /** The client is an advance whose "running" save succeeded. */
  predicate Started(c: Client) {
    match c
    case Working(_) => true
    case Storing(purpose, _, _) => !purpose.Landing?
    case Committing(purpose, _, _, _) => !purpose.Landing?
    case Saving(how, _, _) => how.ByFinish? || how.ByFail?
  }

  predicate Fits(how: How, op: Op) {
    match how
    case ByCreate => false
    case ByBegin => op.OpBegin?
    case ByFinish => op.OpFinish?
    case ByFail => op.OpFail?
    case ByReset => op.OpReset?
    case ByLand => op.OpLand?
  }

  /** The end of a stage run directly follows the begin of the same run. */
  predicate Serial(history: seq<Saved>) {
    forall k | 0 < k < |history| && (history[k].how.ByFinish? || history[k].how.ByFail?) ::
      history[k - 1].how.ByBegin? && history[k - 1].run == history[k].run
  }

  predicate RevisionsCount(history: seq<Saved>) {
    forall k | 0 <= k < |history| :: history[k].project.revision == k + 1
  }

  ghost predicate HistoryOk(w: World) {
    && w.history != []
    && RevisionsCount(w.history) && Serial(w.history)
    && w.stored.revision == |w.history|
    && Reload(w.stored) == Reload(w.history[|w.history| - 1].project)
    && w.stored == Run(w.history[0].project, w.trace)
  }

  predicate ClientOk(w: World, id: nat, c: Client) {
    && id < w.nextRun
    && 1 <= c.base.revision <= |w.history|
    && (c.base.revision == |w.history| ==> c.base == w.stored)
    && (Started(c) ==> w.history[c.base.revision - 1].run == id && w.history[c.base.revision - 1].how.ByBegin?)
    && (c.Saving? ==> Fits(c.how, c.op) && Change(c.base, c.op).Some?)
  }

  ghost predicate Serialised(w: World) {
    && HistoryOk(w)
    && forall id | id in w.clients :: ClientOk(w, id, w.clients[id])
  }

  lemma SerialisedWith(w: World, id: nat, c: Client)
    requires Serialised(w) && ClientOk(w, id, c)
    ensures Serialised(With(w, id, c)) && Serialised(Without(w, id))
  {
    hide Change, Run;
  }

  lemma SerialisedLess(w: World, id: nat)
    requires Serialised(w)
    ensures Serialised(Without(w, id))
  {
    hide Change, Run;
  }

  lemma SerialisedSpawn(w: World, c: Client)
    requires Serialised(w) && c.base == w.stored && !Started(c)
    requires c.Saving? ==> Fits(c.how, c.op) && Change(c.base, c.op).Some?
    ensures Serialised(Spawn(w, c))
  {
    hide Change, Run;
  }

  lemma SerialisedSettle(w: World, id: nat, c: Client, purpose: Purpose, refs: seq<ArtifactRef>, now: nat,
                         category: string, tree: Tree)
    requires Serialised(w) && ClientOk(w, id, c)
    requires (c.Storing? || c.Committing?) && purpose.Landing? == c.purpose.Landing?
    ensures Serialised(Settle(w.(tree := tree), id, purpose, c.base, refs, now, category))
  {
    hide Change, Run;
    var (how, op) := SettleOp(purpose, c.base, refs, now);
    var w1 := w.(tree := tree);
    assert Serialised(w1);
    SerialisedWith(w1, id, c);
    if Change(c.base, op).Some? {
      SerialisedWith(w1, id, Saving(how, c.base, op));
    } else if purpose.Success? {
      SerialisedWith(w1, id, Storing(Failure(category), c.base, []));
    }
  }

  lemma StepMovesRevision(p: Project, op: Op)
    requires !op.OpReload? && Change(p, op).Some?
    ensures Step(p, op).revision == p.revision + 1
  {
    ChangeKeepsIdentity(p, op);
  }

  lemma SerialisedSave(w: World, id: nat, works: bool)
    requires Serialised(w) && id in w.clients && w.clients[id].Saving?
    ensures Serialised(SaveClient(w, id, w.clients[id], works))
  {
    hide Change, Run, Step, ValidProject, VisibleTo;
    var c := w.clients[id];
    var next := Step(c.base, c.op);
    if works && SaveAllowed(w.stored, next) {
      StepMovesRevision(c.base, c.op);
      assert c.base == w.stored;
      RunSnoc(w.history[0].project, w.trace, c.op);
      var w' := w.(stored := next, history := w.history + [Saved(next, id, c.how)], trace := w.trace + [c.op]);
      assert HistoryOk(w');
      forall other | other in w.clients && other != id ensures ClientOk(w', other, w.clients[other]) {
        assert ClientOk(w, other, w.clients[other]);
      }
    } else {
      SerialisedWith(w, id, c);
    }
  }

  lemma SerialisedNext(w: World, a: Action)
    requires Serialised(w)
    ensures Serialised(Next(w, a))
  {
    hide Change, Run, Drafts, Artifacts.Stage, CommitRef, Discard, Settle, HistoryOk, EvidenceDrafts;
    match a
    case LoadAdvance(target, now) =>
      if Change(w.stored, OpBegin(target, now)).Some? {
        SerialisedSpawn(w, Saving(ByBegin, w.stored, OpBegin(target, now)));
      }
    case LoadReset(stage, now) =>
      if Change(w.stored, OpReset(stage, now)).Some? {
        SerialisedSpawn(w, Saving(ByReset, w.stored, OpReset(stage, now)));
      }
    case LoadLanding(partial, receipt) =>
      SerialisedSpawn(w, Storing(Landing(partial), w.stored, [receipt]));
    case Save(id, works) =>
      if id in w.clients && w.clients[id].Saving? {
        SerialisedSave(w, id, works);
      }
    case StageFails(id, evidence, category) =>
      if id in w.clients && w.clients[id].Working? {
        var base := w.clients[id].base;
        SerialisedWith(w, id, Storing(Failure(category), base, EvidenceDrafts(base.current, evidence)));
      }
    case StageReturns(id, out, category) =>
      if id in w.clients && w.clients[id].Working? {
        var base := w.clients[id].base;
        SerialisedWith(w, id, Storing(Failure(category), base, []));
        if Drafts(base.current, out).Some? {
          SerialisedWith(w, id, Storing(Success(out.blocked, out.reason), base, Drafts(base.current, out).value));
        }
      }
    case Store(id, batch, now, io, category) =>
      if id in w.clients && w.clients[id].Storing? {
        SerialisedStore(w, id, batch, now, io, category);
      }
    case CommitNext(id, now, works, discardIo, category) =>
      if id in w.clients && w.clients[id].Committing? {
        SerialisedCommit(w, id, now, works, discardIo, category);
      }
    case CommitEnd(id, now, io, discardIo, category) =>
      if id in w.clients && w.clients[id].Committing? {
        SerialisedEnd(w, id, now, io, discardIo, category);
      }
    case Abandon(id) => SerialisedLess(w, id);
    case Crash => SerialisedCrash(w);
  }

  lemma SerialisedCrash(w: World)
    requires Serialised(w)
    ensures Serialised(Next(w, Crash))
  {
    hide Run;
    RunSnoc(w.history[0].project, w.trace, OpReload);
    assert Step(w.stored, OpReload) == Reload(w.stored);
  }

  lemma SerialisedStore(w: World, id: nat, batch: string, now: nat, io: nat, category: string)
    requires Serialised(w) && id in w.clients && w.clients[id].Storing?
    ensures Serialised(StoreClient(w, id, w.clients[id], batch, now, io, category))
  {
    hide Change, Run, Artifacts.Stage, Settle;
    var c := w.clients[id];
    if c.drafts == [] {
      SerialisedSettle(w, id, c, c.purpose, [], now, category, w.tree);
    } else {
      var (tree, handle) := Artifacts.Stage(w.tree, w.stored.id, c.drafts, batch, now, w.limits, io);
      if handle.None? {
        SerialisedSettle(w, id, c, if c.purpose.Success? then Failure(category) else c.purpose, [], now, category, tree);
      } else {
        SerialisedWith(w.(tree := tree), id, Committing(c.purpose, c.base, handle.value, 0));
      }
    }
  }

  lemma SerialisedCommit(w: World, id: nat, now: nat, works: bool, discardIo: nat, category: string)
    requires Serialised(w) && id in w.clients && w.clients[id].Committing?
    ensures Serialised(CommitClient(w, id, w.clients[id], now, works, discardIo, category))
  {
    hide Change, Run, CommitRef, Discard, Settle, BatchOk;
    var c := w.clients[id];
    if c.done < |c.batch.refs| {
      if works && BatchOk(w.tree.home, w.stored.id, c.batch)
         && CommitRef(w.tree, c.batch.dir, c.batch.refs[c.done]).Some? {
        SerialisedWith(w.(tree := CommitRef(w.tree, c.batch.dir, c.batch.refs[c.done]).value), id, c.(done := c.done + 1));
      } else {
        SerialisedSettle(w, id, c, if c.purpose.Success? then Failure(category) else c.purpose, [], now, category,
                         Discard(w.tree, w.stored.id, c.batch, discardIo).0);
      }
    }
  }

  lemma SerialisedEnd(w: World, id: nat, now: nat, io: nat, discardIo: nat, category: string)
    requires Serialised(w) && id in w.clients && w.clients[id].Committing?
    ensures Serialised(EndClient(w, id, w.clients[id], now, io, discardIo, category))
  {
    hide Change, Run, Discard, Settle;
    var c := w.clients[id];
    if c.done == |c.batch.refs| {
      var listed := if io > 0 then w.tree.(manifest := w.tree.manifest + c.batch.refs) else w.tree;
      if io > 1 {
        SerialisedSettle(w, id, c, c.purpose, c.batch.refs, now, category, RemoveAll(listed, c.batch.dir));
      } else {
        SerialisedSettle(w, id, c, if c.purpose.Success? then Failure(category) else c.purpose, [], now, category,
                         Discard(listed, w.stored.id, c.batch, discardIo).0);
      }
    }
  }

  /** In every interleaving with crashes: saved revisions are 1, 2, 3, ...; the end of a stage run is
      saved right after that same run's own "running" save; and the stored project is the outcome of the
      lifecycle operations of the saves (and restarts) done one after the other. */
  lemma {:induction false} RunsAreSerialised(p: Project, root: Path, limits: Limits, actions: seq<Action>)
    requires p.revision == 1
    ensures Serialised(Exec(Start(p, root, limits), actions))
    ensures var w := Exec(Start(p, root, limits), actions);
            && w.history[0].project == p && w.stored == Run(p, w.trace)
            && (forall k | 0 <= k < |w.history| :: w.history[k].project.revision == k + 1)
            && Serial(w.history)
  {
    if actions != [] {
      var before := Exec(Start(p, root, limits), actions[..|actions| - 1]);
      RunsAreSerialised(p, root, limits, actions[..|actions| - 1]);
      SerialisedNext(before, actions[|actions| - 1]);
      HistoryGrows(before, actions[|actions| - 1]);
    }
  }

  /** No step rewrites a save; a step adds at most one. */
  lemma HistoryGrows(w: World, a: Action)
    ensures w.history <= Next(w, a).history && |Next(w, a).history| <= |w.history| + 1
  {
    hide Change, Step, Run, Drafts, Artifacts.Stage, CommitRef, Discard, SaveAllowed, BatchOk, HasEmitOutput;
  }

  /** Of all the stage runs in flight at most one can still save its outcome. */
  lemma OneRunCanCommit(w: World, i: nat, j: nat)
    requires Serialised(w) && i in w.clients && j in w.clients
    requires Started(w.clients[i]) && CanReplace(w.stored, w.clients[i].base.(revision := w.clients[i].base.revision + 1))
    requires Started(w.clients[j]) && CanReplace(w.stored, w.clients[j].base.(revision := w.clients[j].base.revision + 1))
    ensures i == j
  {
    hide Run, Change;
    assert ClientOk(w, i, w.clients[i]) && ClientOk(w, j, w.clients[j]);
  }

  /** Hence no reachable world has stale downstream output: of two stages that still hold what their last
      successes recorded, the later one's success was saved after the earlier one's. */
  lemma NoStaleOutputEver(p: Project, root: Path, limits: Limits, actions: seq<Action>, i: Stage, j: Stage, a: nat, b: nat)
    requires p.revision == 1
    requires var trace := Exec(Start(p, root, limits), actions).trace;
             StillHolds(p, trace, a, i) && StillHolds(p, trace, b, j) && 0 <= StageIndex(i) < StageIndex(j)
    ensures var w := Exec(Start(p, root, limits), actions);
            && a < b
            && j in w.stored.artifacts && w.trace[b].refs <= w.stored.artifacts[j]
  {
    hide Next, Change;
    RunsAreSerialised(p, root, limits, actions);
    var w := Exec(Start(p, root, limits), actions);
    NoStaleDownstream(p, w.trace, i, j, a, b);
    RecordedStays(p, w.trace, b, j);
  }

  /** And what a stage holds was made from what is held: the inputs of its last success are all still stored,
      each beginning with the references the run was shown. */
  lemma HeldOutputFitsInputsEver(p: Project, root: Path, limits: Limits, actions: seq<Action>, j: Stage, b: nat)
    requires p.revision == 1 && StillHolds(p, Exec(Start(p, root, limits), actions).trace, b, j)
    ensures var w := Exec(Start(p, root, limits), actions);
            var shown := InputsBefore(Run(p, w.trace[..b]), j);
            forall i | i in shown :: i in w.stored.artifacts && shown[i] <= w.stored.artifacts[i]
  {
    hide Next, Change, StillHolds;
    RunsAreSerialised(p, root, limits, actions);
    var w := Exec(Start(p, root, limits), actions);
    StillHoldsWithin(p, w.trace, b, j);
    forall i | i in InputsBefore(Run(p, w.trace[..b]), j)
      ensures i in w.stored.artifacts && InputsBefore(Run(p, w.trace[..b]), j)[i] <= w.stored.artifacts[i]
    {
      HeldOutputFitsInputs(p, w.trace, b, j, i);
    }
  }

  /** Nor stale evidence: what a stored project shows was collected by a successful verify, and no stage has
      succeeded since. */
  lemma NoStaleEvidenceEver(p: Project, root: Path, limits: Limits, actions: seq<Action>)
    requires p.revision == 1 && p.evidence == []
    requires Exec(Start(p, root, limits), actions).stored.evidence != []
    ensures exists b: nat :: EvidenceFrom(p, Exec(Start(p, root, limits), actions).trace, b)
  {
    hide Next, Change, EvidenceFrom;
    RunsAreSerialised(p, root, limits, actions);
    NoStaleEvidence(p, Exec(Start(p, root, limits), actions).trace);
  }

  // ----- Recovery

  /** A save that gets a project out of the running state it was left in: a reset, or the record of a partial
      landing. */
  predicate Unlocks(s: Saved) {
    || s.how.ByReset?
    || (s.how.ByLand? && s.project.current == Emit && s.project.status == Blocked
        && s.project.lastError == APPLY_PARTIAL)
  }

  /** A client that works on the running project without being its run. */
  predicate Bystander(c: Client) {
    && c.base.status == Running
    && match c
       case Working(_) => false
       case Storing(purpose, _, _) => purpose.Landing?
       case Committing(purpose, _, _, _) => purpose.Landing?
       case Saving(how, base, op) =>
         || (how.ByReset? && op.OpReset?)
         || (how.ByLand? && op.OpLand? && op.partial && Change(base, op).Some?)
  }

  ghost predicate Stuck(w: World) {
    && w.stored.status == Running
    && forall id | id in w.clients :: Bystander(w.clients[id])
  }

  /** An applied landing is refused while the project is running, a partial one is not. */
  lemma LandingWhileRunning(p: Project, partial: bool, refs: seq<ArtifactRef>, now: nat)
    requires p.status == Running && Change(p, OpLand(partial, refs, now)).Some?
    ensures partial
    ensures var q := Step(p, OpLand(partial, refs, now));
            q.current == Emit && q.status == Blocked && q.lastError == APPLY_PARTIAL
  {
    PartialIsACategory();
    hide ShortCategory, EvidenceOf, HasEmitOutput, Append;
  }

  lemma PartialIsACategory()
    ensures ShortCategory(APPLY_PARTIAL) == APPLY_PARTIAL
  {
    PartialIsAToken();
    hide ShortCategory, TokenChar;
    TokenIsACategory(APPLY_PARTIAL);
  }

  lemma PartialIsAToken()
    ensures |APPLY_PARTIAL| <= MAX_CATEGORY
    ensures forall i | 0 <= i < |APPLY_PARTIAL| :: TokenChar(APPLY_PARTIAL[i])
  {
  }

  lemma StuckSettle(w: World, id: nat, purpose: Purpose, base: Project, refs: seq<ArtifactRef>, now: nat,
                    category: string)
    requires Stuck(w) && purpose.Landing? && base.status == Running
    ensures var w' := Settle(w, id, purpose, base, refs, now, category); Stuck(w') && w'.history == w.history
  {
    hide Change;
    if Change(base, OpLand(purpose.partial, refs, now)).Some? {
      LandingWhileRunning(base, purpose.partial, refs, now);
    }
  }

  lemma StuckSave(w: World, id: nat, works: bool)
    requires Stuck(w) && id in w.clients && w.clients[id].Saving?
    ensures var w' := SaveClient(w, id, w.clients[id], works);
            || (w'.history == w.history && Stuck(w'))
            || (|w'.history| == |w.history| + 1 && Unlocks(w'.history[|w.history|]))
  {
    hide Change, Step, SaveAllowed;
    var c := w.clients[id];
    assert Bystander(c);
    if c.op.OpLand? {
      LandingWhileRunning(c.base, c.op.partial, c.op.refs, c.op.now);
    }
  }

  lemma StuckStore(w: World, id: nat, batch: string, now: nat, io: nat, category: string)
    requires Stuck(w) && id in w.clients && w.clients[id].Storing?
    ensures var w' := StoreClient(w, id, w.clients[id], batch, now, io, category);
            w'.history == w.history && Stuck(w')
  {
    hide Settle, Artifacts.Stage, Change;
    var c := w.clients[id];
    assert Bystander(c);
    StuckSettle(w, id, c.purpose, c.base, [], now, category);
    var (tree, handle) := Artifacts.Stage(w.tree, w.stored.id, c.drafts, batch, now, w.limits, io);
    StuckSettle(w.(tree := tree), id, c.purpose, c.base, [], now, category);
  }

  lemma StuckCommit(w: World, id: nat, now: nat, works: bool, discardIo: nat, category: string)
    requires Stuck(w) && id in w.clients && w.clients[id].Committing?
    ensures var w' := CommitClient(w, id, w.clients[id], now, works, discardIo, category);
            w'.history == w.history && Stuck(w')
  {
    hide Settle, Discard, CommitRef, BatchOk, Change;
    var c := w.clients[id];
    assert Bystander(c);
    var t := Discard(w.tree, w.stored.id, c.batch, discardIo).0;
    StuckSettle(w.(tree := t), id, c.purpose, c.base, [], now, category);
  }

  lemma StuckEnd(w: World, id: nat, now: nat, io: nat, discardIo: nat, category: string)
    requires Stuck(w) && id in w.clients && w.clients[id].Committing?
    ensures var w' := EndClient(w, id, w.clients[id], now, io, discardIo, category);
            w'.history == w.history && Stuck(w')
  {
    hide Settle, Discard, RemoveAll, Change;
    var c := w.clients[id];
    assert Bystander(c);
    var listed := if io > 0 then w.tree.(manifest := w.tree.manifest + c.batch.refs) else w.tree;
    StuckSettle(w.(tree := RemoveAll(listed, c.batch.dir)), id, c.purpose, c.base, c.batch.refs, now, category);
    var t := Discard(listed, w.stored.id, c.batch, discardIo).0;
    StuckSettle(w.(tree := t), id, c.purpose, c.base, [], now, category);
  }

  lemma NoAdvance(p: Project, stage: Stage, now: nat)
    requires p.status == Running
    ensures Change(p, OpBegin(stage, now)).None?
  {
  }

  lemma StuckNext(w: World, a: Action)
    requires Stuck(w)
    ensures var w' := Next(w, a);
            || (w'.history == w.history && Stuck(w'))
            || (|w'.history| == |w.history| + 1 && Unlocks(w'.history[|w.history|]))
  {
    hide Drafts, EvidenceDrafts, SaveClient, StoreClient, CommitClient, EndClient, Change, Unlocks, HasEmitOutput;
    match a
    case LoadAdvance(target, now) => NoAdvance(w.stored, target, now);
    case LoadReset(stage, now) =>
    case LoadLanding(partial, receipt) =>
    case Save(id, works) =>
      if id in w.clients && w.clients[id].Saving? {
        StuckSave(w, id, works);
      }
    case StageFails(id, evidence, category) => assert id in w.clients ==> Bystander(w.clients[id]);
    case StageReturns(id, out, category) => assert id in w.clients ==> Bystander(w.clients[id]);
    case Store(id, batch, now, io, category) =>
      if id in w.clients && w.clients[id].Storing? {
        StuckStore(w, id, batch, now, io, category);
      }
    case CommitNext(id, now, works, discardIo, category) =>
      if id in w.clients && w.clients[id].Committing? {
        StuckCommit(w, id, now, works, discardIo, category);
      }
    case CommitEnd(id, now, io, discardIo, category) =>
      if id in w.clients && w.clients[id].Committing? {
        StuckEnd(w, id, now, io, discardIo, category);
      }
    case Abandon(id) =>
    case Crash =>
  }

  /** A project that a crash left running, whatever is done next: as long as nothing is saved it is still
      running, and the first thing that is saved, if anything is, is a reset or the record of a partial
      landing. No advance gets through, and neither does a complete landing. */
  lemma {:induction false} CrashedRunNeedsResetOrLanding(w: World, actions: seq<Action>)
    requires w.stored.status == Running && w.clients == map[]
    ensures var w' := Exec(w, actions);
            && w.history <= w'.history
            && (w'.history == w.history ==> w'.stored.status == Running && Stuck(w'))
            && (w'.history != w.history ==> Unlocks(w'.history[|w.history|]))
  {
    hide Next, Unlocks, Bystander;
    if actions != [] {
      var before := Exec(w, actions[..|actions| - 1]);
      CrashedRunNeedsResetOrLanding(w, actions[..|actions| - 1]);
      HistoryGrows(before, actions[|actions| - 1]);
      if before.history == w.history {
        StuckNext(before, actions[|actions| - 1]);
      }
    }
  }

  /** Both happen. From every such world whose project still holds its earlier emit output, a partial landing
      whose receipt cannot be stored is recorded, and emit can run again without any reset. */
  lemma PartialLandingRecovers(w: World, receipt: Draft)
    requires w.stored.status == Running && w.clients == map[]
    requires HasEmitOutput(w.stored) && ValidProject(w.stored)
    ensures var actions := [LoadLanding(true, receipt), Store(w.nextRun, "", 1, 0, ""), Save(w.nextRun, true)];
            var w' := Exec(w, actions);
            && |w'.history| == |w.history| + 1 && w'.history[|w.history|].how.ByLand?
            && CanAdvance(w'.stored, Emit)
  {
    var id, op := w.nextRun, OpLand(true, [], 1);
    LandsPartially(w.stored);
    StepReplaces(w.stored, op);
    LandingWhileRunning(w.stored, true, [], 1);
    hide Change, Step, SaveAllowed, ValidProject, HasEmitOutput, Next, Exec;
    ExecThree(w, LoadLanding(true, receipt), Store(id, "", 1, 0, ""), Save(id, true));
    var w1 := Spawn(w, Storing(Landing(true), w.stored, [receipt]));
    LandingLoads(w, receipt);
    StoreFails(w1, id, w.stored, receipt);
    LandingSaves(With(w1, id, Saving(ByLand, w.stored, op)), id, op);
  }

  lemma LandingLoads(w: World, receipt: Draft)
    requires HasEmitOutput(w.stored)
    ensures Next(w, LoadLanding(true, receipt)) == Spawn(w, Storing(Landing(true), w.stored, [receipt]))
  {
    hide HasEmitOutput;
  }

  lemma StoreFails(w: World, id: nat, base: Project, receipt: Draft)
    requires id in w.clients && w.clients[id] == Storing(Landing(true), base, [receipt])
    requires Change(base, OpLand(true, [], 1)).Some?
    ensures Next(w, Store(id, "", 1, 0, "")) == With(w, id, Saving(ByLand, base, OpLand(true, [], 1)))
  {
    NoEmptyBatch();
    hide Change, ValidName, TrimSpace, DraftsOk, Used, DirOf;
  }

  lemma LandingSaves(w: World, id: nat, op: Op)
    requires id in w.clients && w.clients[id] == Saving(ByLand, w.stored, op)
    requires SaveAllowed(w.stored, Step(w.stored, op))
    ensures var w' := Next(w, Save(id, true));
            && w'.stored == Step(w.stored, op) && |w'.history| == |w.history| + 1
            && w'.history[|w.history|].how.ByLand?
  {
    hide Step, SaveAllowed;
  }

  lemma LandsPartially(p: Project)
    requires HasEmitOutput(p)
    ensures Change(p, OpLand(true, [], 1)).Some?
  {
    PartialIsACategory();
    hide ShortCategory;
  }

  lemma NoEmptyBatch()
    ensures !ValidName(TrimSpace(""))
  {
    assert TrimSpace("") == "";
  }

  lemma ExecThree(w: World, a: Action, b: Action, c: Action)
    ensures Exec(w, [a, b, c]) == Next(Next(Next(w, a), b), c)
  {
    hide Next;
    assert [a, b, c][..2] == [a, b] && [a, b][..1] == [a] && [a][..0] == [];
    assert Exec(w, []) == w;
    assert Exec(w, [a]) == Next(w, a);
    assert Exec(w, [a, b]) == Next(Next(w, a), b);
  }

  /** A reset of the current stage makes it runnable again. */
  lemma ResetRecovers(p: Project, now: nat)
    requires Known(p.current) && now != 0
    ensures Change(p, OpReset(p.current, now)).Some?
    ensures CanAdvance(Step(p, OpReset(p.current, now)), p.current)
  {
  }

  // ----- Artifacts

  /** Every reference the project holds opens to bytes with its digest. */
  predicate RefsOpen(t: Tree, p: Project) {
    (forall s | s in p.artifacts :: AllOpen(t, p.artifacts[s])) && AllOpen(t, p.evidence)
  }

  function OpRefs(op: Op): seq<ArtifactRef> {
    if op.OpFinish? || op.OpFail? || op.OpLand? then op.refs else []
  }

  predicate ClientRefsOpen(t: Tree, c: Client) {
    && RefsOpen(t, c.base)
    && (c.Saving? ==> AllOpen(t, OpRefs(c.op)))
    && (c.Committing? ==>
          && c.done <= |c.batch.refs| && AllOpen(t, c.batch.refs[..c.done])
          && BatchIsContained(t.home, c.batch))
  }

  /** A client that commits holds a handle that Stage gave it, and so one that stays in the staging
      directory. */
  ghost predicate Referenced(w: World) {
    && Proper(w.tree.home)
    && RefsOpen(w.tree, w.stored)
    && (forall k | 0 <= k < |w.history| :: RefsOpen(w.tree, w.history[k].project))
    && (forall id | id in w.clients :: ClientRefsOpen(w.tree, w.clients[id]))
  }

  lemma OpenStays(t: Tree, t': Tree, refs: seq<ArtifactRef>)
    requires Keeps(t, t') && AllOpen(t, refs)
    ensures AllOpen(t', refs)
  {
    hide ValidRef, Keeps;
    forall ref | ref in refs ensures Opens(t', ref) {
      KeepsOpen(t, t', ref);
    }
  }

  lemma RefsOpenStays(t: Tree, t': Tree, p: Project)
    requires Keeps(t, t') && RefsOpen(t, p)
    ensures RefsOpen(t', p)
  {
    hide Opens;
    OpenStays(t, t', p.evidence);
    forall s | s in p.artifacts ensures AllOpen(t', p.artifacts[s]) {
      OpenStays(t, t', p.artifacts[s]);
    }
  }

  lemma ClientRefsStay(t: Tree, t': Tree, c: Client)
    requires Keeps(t, t') && ClientRefsOpen(t, c)
    ensures ClientRefsOpen(t', c)
  {
    hide AllOpen, RefsOpen, Keeps, BatchIsContained;
    KeepsHome(t, t');
    RefsOpenStays(t, t', c.base);
    if c.Saving? {
      OpenStays(t, t', OpRefs(c.op));
    }
    if c.Committing? {
      OpenStays(t, t', c.batch.refs[..c.done]);
    }
  }

  /** The world with a later tree. */
  lemma ReferencedTree(w: World, t: Tree)
    requires Referenced(w) && Keeps(w.tree, t)
    ensures Referenced(w.(tree := t))
  {
    hide RefsOpen, ClientRefsOpen, Keeps;
    KeepsHome(w.tree, t);
    RefsOpenStays(w.tree, t, w.stored);
    forall k | 0 <= k < |w.history| ensures RefsOpen(t, w.history[k].project) {
      RefsOpenStays(w.tree, t, w.history[k].project);
    }
    forall id | id in w.clients ensures ClientRefsOpen(t, w.clients[id]) {
      ClientRefsStay(w.tree, t, w.clients[id]);
    }
  }

  lemma AppendRefs(t: Tree, p: Project, stage: Stage, refs: seq<ArtifactRef>)
    requires RefsOpen(t, p) && AllOpen(t, refs)
    ensures RefsOpen(t, Append(p, stage, refs))
  {
    hide Opens;
  }

  lemma RecordRefs(t: Tree, p: Project, stage: Stage, refs: seq<ArtifactRef>, now: nat)
    requires RefsOpen(t, p) && AllOpen(t, refs) && Record(p, stage, refs, now).Some?
    ensures RefsOpen(t, Record(p, stage, refs, now).value)
  {
    hide Opens, ValidRef;
  }

  lemma ChangeRefs(t: Tree, p: Project, op: Op)
    requires RefsOpen(t, p) && AllOpen(t, OpRefs(op))
    ensures RefsOpen(t, Step(p, op))
  {
    hide Opens, ValidRef, HoldReason, ShortCategory, LastNamed;
    if Change(p, op).Some? {
      match op
      case OpBegin(_, _) =>
      case OpReload =>
      case OpReset(stage, _) => assert RefsOpen(t, ClearAfter(p.(artifacts := p.artifacts - {stage}), stage));
      case OpFinish(stage, _, _, refs, now) => RecordRefs(t, p, stage, refs, now);
      case OpFail(stage, kind, refs, now) =>
        AppendRefs(t, p.(status := Blocked, lastError := ShortCategory(kind), updatedAt := now), stage, refs);
      case OpLand(_, refs, _) => AppendRefs(t, p, Emit, refs);
    }
  }

  lemma ReferencedWith(w: World, id: nat, c: Client)
    requires Referenced(w) && ClientRefsOpen(w.tree, c)
    ensures Referenced(With(w, id, c)) && Referenced(Without(w, id))
  {
    hide RefsOpen, ClientRefsOpen;
  }

  lemma ReferencedSettle(w: World, id: nat, purpose: Purpose, base: Project, refs: seq<ArtifactRef>, now: nat,
                         category: string, t: Tree)
    requires Referenced(w) && Keeps(w.tree, t) && RefsOpen(t, base) && AllOpen(t, refs)
    ensures Referenced(Settle(w.(tree := t), id, purpose, base, refs, now, category))
  {
    hide Change, RefsOpen, AllOpen;
    ReferencedTree(w, t);
    var (how, op) := SettleOp(purpose, base, refs, now);
    if Change(base, op).Some? {
      ReferencedWith(w.(tree := t), id, Saving(how, base, op));
    } else {
      ReferencedWith(w.(tree := t), id, Storing(Failure(category), base, []));
    }
  }

  lemma DiscardKeeps(t: Tree, project: string, batch: Batch, io: nat)
    requires BatchIsContained(t.home, batch)
    ensures Keeps(t, Discard(t, project, batch, io).0)
  {
    hide BatchOk, Keeps, RemoveAll, DirOf;
    KeepsItself(t);
    ContainedIsStaged(t.home, batch.id);
    RemoveAllEffect(t, batch.dir);
  }

  lemma ReferencedGiveUp(w: World, id: nat, c: Client, now: nat, category: string, t: Tree)
    requires Referenced(w) && ClientRefsOpen(w.tree, c) && Keeps(w.tree, t)
    requires c.Storing? || c.Committing?
    ensures Referenced(GiveUp(w.(tree := t), id, c.purpose, c.base, now, category))
  {
    hide Settle, AllOpen, RefsOpen;
    RefsOpenStays(w.tree, t, c.base);
    assert AllOpen(t, []) by { NoRefsOpen(t); }
    ReferencedSettle(w, id, if c.purpose.Success? then Failure(category) else c.purpose, c.base, [], now, category, t);
  }

  lemma NoRefsOpen(t: Tree)
    ensures AllOpen(t, [])
  {
  }

  lemma ReferencedSave(w: World, id: nat, works: bool)
    requires Referenced(w) && id in w.clients && w.clients[id].Saving?
    ensures Referenced(SaveClient(w, id, w.clients[id], works))
  {
    hide Change, Step, SaveAllowed, RefsOpen, AllOpen;
    var c := w.clients[id];
    assert ClientRefsOpen(w.tree, c);
    ReferencedWith(w, id, c);
    if works && SaveAllowed(w.stored, Step(c.base, c.op)) {
      var next := Step(c.base, c.op);
      ChangeRefs(w.tree, c.base, c.op);
      var w' := w.(stored := next, history := w.history + [Saved(next, id, c.how)], trace := w.trace + [c.op]);
      assert Referenced(w');
      ReferencedWith(w', id, Working(next));
    }
  }

  lemma ReferencedStore(w: World, id: nat, batch: string, now: nat, io: nat, category: string)
    requires Referenced(w) && id in w.clients && w.clients[id].Storing?
    ensures Referenced(StoreClient(w, id, w.clients[id], batch, now, io, category))
    ensures Keeps(w.tree, StoreClient(w, id, w.clients[id], batch, now, io, category).tree)
  {
    hide Settle, RefsOpen, Artifacts.Stage, BatchIsContained, Keeps;
    KeepsItself(w.tree);
    var c := w.clients[id];
    assert ClientRefsOpen(w.tree, c);
    NoRefsOpen(w.tree);
    SettleKeepsTree(w, id, c.purpose, c.base, [], now, category);
    if c.drafts == [] {
      ReferencedSettle(w, id, c.purpose, c.base, [], now, category, w.tree);
    } else {
      var (tree, handle) := Artifacts.Stage(w.tree, w.stored.id, c.drafts, batch, now, w.limits, io);
      StageEffect(w.tree, w.stored.id, c.drafts, batch, now, w.limits, io);
      StagedIsContained(w.tree, w.stored.id, c.drafts, batch, now, w.limits, io);
      KeepsHome(w.tree, tree);
      if handle.None? {
        ReferencedGiveUp(w, id, c, now, category, tree);
        SettleKeepsTree(w.(tree := tree), id, if c.purpose.Success? then Failure(category) else c.purpose, c.base, [],
                        now, category);
      } else {
        ReferencedTree(w, tree);
        RefsOpenStays(w.tree, tree, c.base);
        ReferencedWith(w.(tree := tree), id, Committing(c.purpose, c.base, handle.value, 0));
      }
    }
  }

  lemma SettleKeepsTree(w: World, id: nat, purpose: Purpose, base: Project, refs: seq<ArtifactRef>, now: nat,
                        category: string)
    ensures Settle(w, id, purpose, base, refs, now, category).tree == w.tree
  {
    hide Change;
  }

  lemma HandleIsValid(home: Path, project: string, batch: Batch, k: nat)
    requires BatchOk(home, project, batch) && k < |batch.refs|
    ensures ValidRef(batch.refs[k])
  {
  }

  lemma ReferencedCommit(w: World, id: nat, now: nat, works: bool, discardIo: nat, category: string)
    requires Referenced(w) && id in w.clients && w.clients[id].Committing?
    ensures Referenced(CommitClient(w, id, w.clients[id], now, works, discardIo, category))
    ensures Keeps(w.tree, CommitClient(w, id, w.clients[id], now, works, discardIo, category).tree)
  {
    hide Settle, RefsOpen, CommitRef, Discard, Opens, ValidRef, Keeps, DirOf, BatchOk;
    KeepsItself(w.tree);
    var c := w.clients[id];
    assert ClientRefsOpen(w.tree, c);
    if c.done < |c.batch.refs| {
      var ref := c.batch.refs[c.done];
      if works && BatchOk(w.tree.home, w.stored.id, c.batch) && CommitRef(w.tree, c.batch.dir, ref).Some? {
        var t := CommitRef(w.tree, c.batch.dir, ref).value;
        ContainedIsStaged(w.tree.home, c.batch.id);
        HandleIsValid(w.tree.home, w.stored.id, c.batch, c.done);
        CommitRefEffect(w.tree, c.batch.dir, ref);
        KeepsHome(w.tree, t);
        ReferencedTree(w, t);
        RefsOpenStays(w.tree, t, c.base);
        OpenStays(w.tree, t, c.batch.refs[..c.done]);
        assert c.batch.refs[..c.done + 1] == c.batch.refs[..c.done] + [ref];
        ReferencedWith(w.(tree := t), id, c.(done := c.done + 1));
      } else {
        var t := Discard(w.tree, w.stored.id, c.batch, discardIo).0;
        DiscardKeeps(w.tree, w.stored.id, c.batch, discardIo);
        ReferencedGiveUp(w, id, c, now, category, t);
        SettleKeepsTree(w.(tree := t), id, if c.purpose.Success? then Failure(category) else c.purpose, c.base, [],
                        now, category);
      }
    }
  }

  lemma ReferencedEnd(w: World, id: nat, now: nat, io: nat, discardIo: nat, category: string)
    requires Referenced(w) && id in w.clients && w.clients[id].Committing?
    ensures Referenced(EndClient(w, id, w.clients[id], now, io, discardIo, category))
    ensures Keeps(w.tree, EndClient(w, id, w.clients[id], now, io, discardIo, category).tree)
  {
    hide Settle, RefsOpen, Discard, Opens, Keeps, RemoveAll, DirOf;
    var c := w.clients[id];
    assert ClientRefsOpen(w.tree, c);
    KeepsItself(w.tree);
    if c.done == |c.batch.refs| {
      var listed := if io > 0 then w.tree.(manifest := w.tree.manifest + c.batch.refs) else w.tree;
      Listed(w.tree, c.batch.refs);
      KeepsHome(w.tree, listed);
      assert c.batch.refs[..c.done] == c.batch.refs;
      if io > 1 {
        var t := RemoveAll(listed, c.batch.dir);
        ContainedIsStaged(w.tree.home, c.batch.id);
        RemoveAllEffect(listed, c.batch.dir);
        KeepsTransitive(w.tree, listed, t);
        RefsOpenStays(w.tree, t, c.base);
        OpenStays(w.tree, t, c.batch.refs);
        ReferencedSettle(w, id, c.purpose, c.base, c.batch.refs, now, category, t);
        SettleKeepsTree(w.(tree := t), id, c.purpose, c.base, c.batch.refs, now, category);
      } else {
        var t := Discard(listed, w.stored.id, c.batch, discardIo).0;
        DiscardKeeps(listed, w.stored.id, c.batch, discardIo);
        KeepsTransitive(w.tree, listed, t);
        ReferencedGiveUp(w, id, c, now, category, t);
        SettleKeepsTree(w.(tree := t), id, if c.purpose.Success? then Failure(category) else c.purpose, c.base, [],
                        now, category);
      }
    }
  }

  lemma ReferencedCrash(w: World)
    requires Referenced(w)
    ensures Referenced(Next(w, Crash))
  {
    hide AllOpen;
    assert RefsOpen(w.tree, Reload(w.stored));
  }

  /** A step keeps every committed file and every reference's content. */
  lemma ReferencedNext(w: World, a: Action)
    requires Referenced(w)
    ensures Referenced(Next(w, a)) && Keeps(w.tree, Next(w, a).tree)
  {
    hide Change, RefsOpen, Drafts, EvidenceDrafts, SaveClient, StoreClient, CommitClient, EndClient, HasEmitOutput;
    match a
    case LoadAdvance(target, now) =>
      NoRefsOpen(w.tree);
      if Change(w.stored, OpBegin(target, now)).Some? {
        ReferencedWith(w, w.nextRun, Saving(ByBegin, w.stored, OpBegin(target, now)));
      }
    case LoadReset(stage, now) =>
      NoRefsOpen(w.tree);
      if Change(w.stored, OpReset(stage, now)).Some? {
        ReferencedWith(w, w.nextRun, Saving(ByReset, w.stored, OpReset(stage, now)));
      }
    case LoadLanding(partial, receipt) =>
      ReferencedWith(w, w.nextRun, Storing(Landing(partial), w.stored, [receipt]));
    case Save(id, works) =>
      if id in w.clients && w.clients[id].Saving? {
        ReferencedSave(w, id, works);
        SaveKeepsTree(w, id, w.clients[id], works);
      }
    case StageFails(id, evidence, category) =>
      if id in w.clients && w.clients[id].Working? {
        var base := w.clients[id].base;
        assert ClientRefsOpen(w.tree, w.clients[id]);
        ReferencedWith(w, id, Storing(Failure(category), base, EvidenceDrafts(base.current, evidence)));
      }
    case StageReturns(id, out, category) =>
      if id in w.clients && w.clients[id].Working? {
        var base := w.clients[id].base;
        assert ClientRefsOpen(w.tree, w.clients[id]);
        ReferencedWith(w, id, Storing(Failure(category), base, []));
        if Drafts(base.current, out).Some? {
          ReferencedWith(w, id, Storing(Success(out.blocked, out.reason), base, Drafts(base.current, out).value));
        }
      }
    case Store(id, batch, now, io, category) =>
      if id in w.clients && w.clients[id].Storing? {
        ReferencedStore(w, id, batch, now, io, category);
      }
    case CommitNext(id, now, works, discardIo, category) =>
      if id in w.clients && w.clients[id].Committing? {
        ReferencedCommit(w, id, now, works, discardIo, category);
      }
    case CommitEnd(id, now, io, discardIo, category) =>
      if id in w.clients && w.clients[id].Committing? {
        ReferencedEnd(w, id, now, io, discardIo, category);
      }
    case Abandon(id) =>
    case Crash => ReferencedCrash(w);
  }

  lemma SaveKeepsTree(w: World, id: nat, c: Client, works: bool)
    requires c.Saving?
    ensures SaveClient(w, id, c, works).tree == w.tree
  {
    hide Step, SaveAllowed;
  }

  /** In every run, crashes between a commit and the save included: every reference of every project
      ever saved opens to bytes with its digest. */
  lemma {:induction false} EverySavedRefOpens(p: Project, root: Path, limits: Limits, actions: seq<Action>)
    requires p.artifacts == map[] && p.evidence == [] && Proper(root + [p.id])
    ensures Referenced(Exec(Start(p, root, limits), actions))
    ensures var w := Exec(Start(p, root, limits), actions);
            forall k, s, ref | 0 <= k < |w.history| && s in w.history[k].project.artifacts
                               && ref in w.history[k].project.artifacts[s] ::
              Open(w.tree, ref).Some? && Sha256(Open(w.tree, ref).value) == ref.digest
  {
    hide Next;
    if actions == [] {
      NoRefsOpen(Start(p, root, limits).tree);
      assert RefsOpen(Start(p, root, limits).tree, p);
    } else {
      EverySavedRefOpens(p, root, limits, actions[..|actions| - 1]);
      ReferencedNext(Exec(Start(p, root, limits), actions[..|actions| - 1]), actions[|actions| - 1]);
    }
    SavedRefsOpen(Exec(Start(p, root, limits), actions));
  }

  lemma SavedRefsOpen(w: World)
    requires Referenced(w)
    ensures forall k, s, ref | 0 <= k < |w.history| && s in w.history[k].project.artifacts
                               && ref in w.history[k].project.artifacts[s] ::
              Open(w.tree, ref).Some? && Sha256(Open(w.tree, ref).value) == ref.digest
  {
    forall k, s, ref | 0 <= k < |w.history| && s in w.history[k].project.artifacts
                       && ref in w.history[k].project.artifacts[s]
      ensures Open(w.tree, ref).Some? && Sha256(Open(w.tree, ref).value) == ref.digest
    {
      assert RefsOpen(w.tree, w.history[k].project);
    }
  }

  /** No later step, however the run goes on, changes or removes a committed artifact. */
  lemma {:induction false} CommittedForever(w: World, actions: seq<Action>)
    requires Referenced(w)
    ensures Referenced(Exec(w, actions)) && Keeps(w.tree, Exec(w, actions).tree)
  {
    hide Next;
    if actions != [] {
      CommittedForever(w, actions[..|actions| - 1]);
      ReferencedNext(Exec(w, actions[..|actions| - 1]), actions[|actions| - 1]);
    }
  }
}

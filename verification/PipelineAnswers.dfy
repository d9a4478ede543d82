/** What the pipeline protocol saves is the answer to what was asked: to the return or the failure of a stage
    run, to a landing, to a reset. */
module PipelineAnswers {
  import opened Common
  import opened Lifecycle
  import opened LifecycleRuns
  import opened LifecycleEffects
  import opened ProjectStore
  import opened Artifacts
  import opened ArtifactRoundTrip
  import opened Paths
  import opened Pipeline
  import opened PipelineSafety

  /** What a client is about: the end of a stage run, a landing, or a reset. */
  datatype Ask = Ending(purpose: Purpose) | Resetting(stage: Stage)

  /** The entry of the stage is the files' references. */
  predicate HoldsFiles(q: Project, stage: Stage, files: seq<Draft>) {
    stage in q.artifacts && RefsFor(q.artifacts[stage], stage, files)
  }

  /** Either nothing was stored, or the references of the files were added to the stage. */
  ghost predicate AddedFiles(p: Project, stage: Stage, files: seq<Draft>, q: Project) {
    Added(p, stage, [], q) || exists refs :: RefsFor(refs, stage, files) && Added(p, stage, refs, q)
  }

  /** The save of a project that was `base` answers what was asked. A success that could not be stored or
      recorded is saved as a failure. */
  ghost predicate Answers(ask: Ask, base: Project, files: seq<Draft>, saved: Saved) {
    var q := saved.project;
    match ask
    case Ending(Success(blocked, reason)) =>
      || (saved.how.ByFail? && FailedAt(base, q))
      || (saved.how.ByFinish? && HoldsFiles(q, base.current, files)
          && FinishedAs(base, base.current, blocked, reason, q.artifacts[base.current], q))
    case Ending(Failure(category)) =>
      && saved.how.ByFail? && FailedAt(base, q) && q.lastError == ShortCategory(category)
      && AddedFiles(base, base.current, files, q)
    case Ending(Landing(partial)) =>
      saved.how.ByLand? && exists refs :: (refs == [] || RefsFor(refs, Emit, files)) && LandedAs(base, partial, refs, q)
    case Resetting(stage) => saved.how.ByReset? && ResetTo(base, stage, q)
  }

  predicate FailedAt(base: Project, q: Project) {
    q.current == base.current && q.status == Blocked && q.lastError != ""
  }

  /** Where the client of an ask may stand. */
  ghost predicate Stands(ask: Ask, base: Project, files: seq<Draft>, id: nat, c: Client) {
    && c.base == base
    && match c
       case Working(_) => false
       case Storing(purpose, _, drafts) => AsksFor(ask, purpose, drafts == files, drafts == [])
       case Committing(purpose, _, batch, _) =>
         AsksFor(ask, purpose, RefsFor(batch.refs, StageOf(ask, base), files), batch.refs == [])
       case Saving(how, _, op) => Answers(ask, base, files, Saved(Step(base, op), id, how))
  }

  function StageOf(ask: Ask, base: Project): Stage {
    if ask.Ending? && ask.purpose.Landing? then Emit else base.current
  }

  /** A client that stores serves the ask with its files, or has given up a success. */
  predicate AsksFor(ask: Ask, purpose: Purpose, files: bool, nothing: bool) {
    && ask.Ending?
    && ((purpose == ask.purpose && files) || (ask.purpose.Success? && purpose.Failure? && nothing))
  }

  /** From the ask on: while its client is there it has saved nothing but the begin of the run, and whatever it
      saved besides answers the ask. */
  ghost predicate Tracked(w: World, id: nat, ask: Ask, base: Project, files: seq<Draft>) {
    && id < w.nextRun && Known(base.current)
    && (forall d | d in files :: d.stage == StageOf(ask, base))
    && (id in w.clients ==> Stands(ask, base, files, id, w.clients[id]) && OnlyBegun(w, id))
    && forall k | 0 <= k < |w.history| && w.history[k].run == id && !w.history[k].how.ByBegin? ::
         Answers(ask, base, files, w.history[k])
  }

  predicate OnlyBegun(w: World, id: nat) {
    forall k | 0 <= k < |w.history| && w.history[k].run == id :: w.history[k].how.ByBegin?
  }

  // ----- Settling

  lemma FinishAnswers(base: Project, files: seq<Draft>, purpose: Purpose, refs: seq<ArtifactRef>, now: nat, id: nat)
    requires purpose.Success? && RefsFor(refs, base.current, files) && Known(base.current)
    requires Change(base, OpFinish(base.current, purpose.blocked, purpose.reason, refs, now)).Some?
    ensures Answers(Ending(purpose), base, files,
                    Saved(Step(base, OpFinish(base.current, purpose.blocked, purpose.reason, refs, now)), id, ByFinish))
  {
    hide Step, Change;
    FinishEffect(base, OpFinish(base.current, purpose.blocked, purpose.reason, refs, now));
    hide FinishedAs;
  }

  /** What may be saved for an ask: its references, none where it is not a success, or a success given up. */
  predicate MaySettle(ask: Ask, base: Project, files: seq<Draft>, purpose: Purpose, refs: seq<ArtifactRef>) {
    && ask.Ending?
    && (|| (purpose == ask.purpose && (RefsFor(refs, StageOf(ask, base), files) || (refs == [] && !purpose.Success?)))
        || (ask.purpose.Success? && purpose.Failure? && refs == []))
  }

  lemma FailureAnswers(ask: Ask, base: Project, files: seq<Draft>, purpose: Purpose, refs: seq<ArtifactRef>, now: nat,
                       id: nat)
    requires purpose.Failure? && MaySettle(ask, base, files, purpose, refs)
    requires Change(base, OpFail(base.current, purpose.category, refs, now)).Some?
    ensures Answers(ask, base, files, Saved(Step(base, OpFail(base.current, purpose.category, refs, now)), id, ByFail))
  {
    hide Step, Change, RefsFor;
    FailEffect(base, OpFail(base.current, purpose.category, refs, now));
  }

  lemma LandingAnswers(ask: Ask, base: Project, files: seq<Draft>, purpose: Purpose, refs: seq<ArtifactRef>, now: nat,
                       id: nat)
    requires purpose.Landing? && MaySettle(ask, base, files, purpose, refs)
    requires Change(base, OpLand(purpose.partial, refs, now)).Some?
    ensures Answers(ask, base, files, Saved(Step(base, OpLand(purpose.partial, refs, now)), id, ByLand))
  {
    hide Step, Change, RefsFor;
    LandEffect(base, OpLand(purpose.partial, refs, now));
    hide LandedAs;
  }

  lemma TrackedSettle(w: World, id: nat, ask: Ask, base: Project, files: seq<Draft>, purpose: Purpose,
                      refs: seq<ArtifactRef>, now: nat, category: string, tree: Tree)
    requires Tracked(w, id, ask, base, files) && OnlyBegun(w, id) && MaySettle(ask, base, files, purpose, refs)
    ensures Tracked(Settle(w.(tree := tree), id, purpose, base, refs, now, category), id, ask, base, files)
  {
    hide Step, Change, Answers, RefsFor;
    match purpose
    case Success(blocked, reason) =>
      if Change(base, OpFinish(base.current, blocked, reason, refs, now)).Some? {
        FinishAnswers(base, files, purpose, refs, now, id);
      }
    case Failure(category') =>
      if Change(base, OpFail(base.current, category', refs, now)).Some? {
        FailureAnswers(ask, base, files, purpose, refs, now, id);
      }
    case Landing(partial) =>
      if Change(base, OpLand(partial, refs, now)).Some? {
        LandingAnswers(ask, base, files, purpose, refs, now, id);
      }
  }

  lemma TrackedGiveUp(w: World, id: nat, ask: Ask, base: Project, files: seq<Draft>, purpose: Purpose, now: nat,
                      category: string, tree: Tree)
    requires Tracked(w, id, ask, base, files) && OnlyBegun(w, id) && ask.Ending?
    requires purpose == ask.purpose || (ask.purpose.Success? && purpose.Failure?)
    ensures Tracked(GiveUp(w.(tree := tree), id, purpose, base, now, category), id, ask, base, files)
  {
    hide Settle, Tracked;
    TrackedSettle(w, id, ask, base, files, if purpose.Success? then Failure(category) else purpose, [], now, category, tree);
  }

  // ----- The client's own steps

  lemma StagedRefs(t: Tree, project: string, drafts: seq<Draft>, batch: string, now: nat, limits: Limits, io: nat,
                   stage: Stage)
    requires forall d | d in drafts :: d.stage == stage
    ensures var handle := Artifacts.Stage(t, project, drafts, batch, now, limits, io).1;
            handle.Some? ==> RefsFor(handle.value.refs, stage, drafts)
  {
    hide StageAccepts, DirOf, WriteDrafts, TrimSpace;
    var refs := RefsOfDrafts(drafts, now);
    forall i | 0 <= i < |drafts| ensures refs[i] == RefOf(drafts[i], now) && drafts[i].stage == stage {
      assert drafts[i] in drafts;
    }
  }

  lemma TrackedStore(w: World, id: nat, ask: Ask, base: Project, files: seq<Draft>, batch: string, now: nat, io: nat,
                     category: string)
    requires Tracked(w, id, ask, base, files) && id in w.clients && w.clients[id].Storing?
    ensures Tracked(StoreClient(w, id, w.clients[id], batch, now, io, category), id, ask, base, files)
  {
    hide Settle, GiveUp, Answers, Artifacts.Stage, RefsFor;
    var c := w.clients[id];
    if c.drafts == [] {
      assert files == [] ==> RefsFor([], StageOf(ask, base), files) by { NothingFor(StageOf(ask, base)); }
      TrackedSettle(w, id, ask, base, files, c.purpose, [], now, category, w.tree);
    } else {
      var (tree, handle) := Artifacts.Stage(w.tree, w.stored.id, c.drafts, batch, now, w.limits, io);
      if handle.None? {
        TrackedGiveUp(w, id, ask, base, files, c.purpose, now, category, tree);
      } else {
        StagedRefs(w.tree, w.stored.id, c.drafts, batch, now, w.limits, io, StageOf(ask, base));
      }
    }
  }

  lemma NothingFor(stage: Stage)
    ensures RefsFor([], stage, [])
  {
  }

  lemma TrackedCommit(w: World, id: nat, ask: Ask, base: Project, files: seq<Draft>, now: nat, works: bool,
                      discardIo: nat, category: string)
    requires Tracked(w, id, ask, base, files) && id in w.clients && w.clients[id].Committing?
    ensures Tracked(CommitClient(w, id, w.clients[id], now, works, discardIo, category), id, ask, base, files)
  {
    hide GiveUp, Answers, CommitRef, Discard, BatchOk, RefsFor;
    var c := w.clients[id];
    TrackedGiveUp(w, id, ask, base, files, c.purpose, now, category, Discard(w.tree, w.stored.id, c.batch, discardIo).0);
  }

  lemma TrackedEnd(w: World, id: nat, ask: Ask, base: Project, files: seq<Draft>, now: nat, io: nat, discardIo: nat,
                   category: string)
    requires Tracked(w, id, ask, base, files) && id in w.clients && w.clients[id].Committing?
    ensures Tracked(EndClient(w, id, w.clients[id], now, io, discardIo, category), id, ask, base, files)
  {
    hide GiveUp, Settle, Answers, Discard, RemoveAll, RefsFor;
    var c := w.clients[id];
    var listed := if io > 0 then w.tree.(manifest := w.tree.manifest + c.batch.refs) else w.tree;
    TrackedGiveUp(w, id, ask, base, files, c.purpose, now, category, Discard(listed, w.stored.id, c.batch, discardIo).0);
    TrackedSettle(w, id, ask, base, files, c.purpose, c.batch.refs, now, category, RemoveAll(listed, c.batch.dir));
  }

  lemma TrackedSave(w: World, id: nat, ask: Ask, base: Project, files: seq<Draft>, works: bool)
    requires Tracked(w, id, ask, base, files) && id in w.clients && w.clients[id].Saving?
    ensures Tracked(SaveClient(w, id, w.clients[id], works), id, ask, base, files)
  {
    hide Step, SaveAllowed;
    SavesNoBegin(ask, base, files, Saved(Step(base, w.clients[id].op), id, w.clients[id].how));
    hide Answers;
  }

  lemma SavesNoBegin(ask: Ask, base: Project, files: seq<Draft>, saved: Saved)
    requires Answers(ask, base, files, saved)
    ensures !saved.how.ByBegin?
  {
  }

  // ----- The steps of others

  /** The client and its saves are untouched. */
  predicate SameFor(w: World, w': World, id: nat) {
    && w.nextRun <= w'.nextRun
    && (id in w'.clients ==> id in w.clients && w'.clients[id] == w.clients[id])
    && (w'.history == w.history
        || (|w'.history| == |w.history| + 1 && w'.history[..|w.history|] == w.history && w'.history[|w.history|].run != id))
  }

  lemma SameIsTracked(w: World, w': World, id: nat, ask: Ask, base: Project, files: seq<Draft>)
    requires Tracked(w, id, ask, base, files) && SameFor(w, w', id)
    ensures Tracked(w', id, ask, base, files)
  {
    hide Answers, Stands;
    forall k | 0 <= k < |w'.history| && w'.history[k].run == id ensures k < |w.history| && w'.history[k] == w.history[k] {
      assert k < |w.history| ==> w'.history[..|w.history|][k] == w.history[k];
    }
  }

  predicate ActsFor(a: Action, id: nat) {
    match a
    case Save(j, _) => j == id
    case StageFails(j, _, _) => j == id
    case StageReturns(j, _, _) => j == id
    case Store(j, _, _, _, _) => j == id
    case CommitNext(j, _, _, _, _) => j == id
    case CommitEnd(j, _, _, _, _) => j == id
    case _ => false
  }

  lemma SettleElsewhere(w: World, id: nat, j: nat, purpose: Purpose, base: Project, refs: seq<ArtifactRef>, now: nat,
                        category: string, tree: Tree)
    requires j != id
    ensures SameFor(w, Settle(w.(tree := tree), j, purpose, base, refs, now, category), id)
  {
    hide Change;
  }

  lemma OthersLeaveIt(w: World, a: Action, id: nat)
    requires id < w.nextRun && !ActsFor(a, id)
    ensures SameFor(w, Next(w, a), id)
  {
    hide Change, Step, Drafts, EvidenceDrafts, Artifacts.Stage, CommitRef, Discard, BatchOk, SaveAllowed, HasEmitOutput,
      Settle, RemoveAll;
    match a
    case Store(j, batch, now, io, category) =>
      if j in w.clients && w.clients[j].Storing? {
        StoreElsewhere(w, id, j, batch, now, io, category);
      }
    case CommitNext(j, now, works, discardIo, category) =>
      if j in w.clients && w.clients[j].Committing? {
        var c := w.clients[j];
        SettleElsewhere(w, id, j, if c.purpose.Success? then Failure(category) else c.purpose, c.base, [], now, category,
                        Discard(w.tree, w.stored.id, c.batch, discardIo).0);
      }
    case CommitEnd(j, now, io, discardIo, category) =>
      if j in w.clients && w.clients[j].Committing? {
        EndElsewhere(w, id, j, now, io, discardIo, category);
      }
    case _ =>
  }

  lemma StoreElsewhere(w: World, id: nat, j: nat, batch: string, now: nat, io: nat, category: string)
    requires j != id && j in w.clients && w.clients[j].Storing?
    ensures SameFor(w, StoreClient(w, j, w.clients[j], batch, now, io, category), id)
  {
    hide Artifacts.Stage, Settle;
    var c := w.clients[j];
    var tree := Artifacts.Stage(w.tree, w.stored.id, c.drafts, batch, now, w.limits, io).0;
    SettleElsewhere(w, id, j, c.purpose, c.base, [], now, category, w.tree);
    SettleElsewhere(w, id, j, if c.purpose.Success? then Failure(category) else c.purpose, c.base, [], now, category, tree);
  }

  lemma EndElsewhere(w: World, id: nat, j: nat, now: nat, io: nat, discardIo: nat, category: string)
    requires j != id && j in w.clients && w.clients[j].Committing?
    ensures SameFor(w, EndClient(w, j, w.clients[j], now, io, discardIo, category), id)
  {
    hide Settle, Discard, RemoveAll;
    var c := w.clients[j];
    var listed := if io > 0 then w.tree.(manifest := w.tree.manifest + c.batch.refs) else w.tree;
    SettleElsewhere(w, id, j, c.purpose, c.base, c.batch.refs, now, category, RemoveAll(listed, c.batch.dir));
    SettleElsewhere(w, id, j, if c.purpose.Success? then Failure(category) else c.purpose, c.base, [], now, category,
                    Discard(listed, w.stored.id, c.batch, discardIo).0);
  }

  lemma TrackedNext(w: World, a: Action, id: nat, ask: Ask, base: Project, files: seq<Draft>)
    requires Tracked(w, id, ask, base, files)
    ensures Tracked(Next(w, a), id, ask, base, files)
  {
    hide Tracked, SameFor, StoreClient, CommitClient, EndClient, SaveClient, Drafts, EvidenceDrafts, Change;
    TrackedParts(w, id, ask, base, files);
    if !ActsFor(a, id) {
      OthersLeaveIt(w, a, id);
      SameIsTracked(w, Next(w, a), id, ask, base, files);
    } else if id !in w.clients {
      assert Next(w, a) == w;
    } else {
      match a
      case Save(_, works) => if w.clients[id].Saving? { TrackedSave(w, id, ask, base, files, works); }
      case Store(_, batch, now, io, category) =>
        if w.clients[id].Storing? { TrackedStore(w, id, ask, base, files, batch, now, io, category); }
      case CommitNext(_, now, works, discardIo, category) =>
        if w.clients[id].Committing? { TrackedCommit(w, id, ask, base, files, now, works, discardIo, category); }
      case CommitEnd(_, now, io, discardIo, category) =>
        if w.clients[id].Committing? { TrackedEnd(w, id, ask, base, files, now, io, discardIo, category); }
      case _ =>
    }
  }

  lemma TrackedParts(w: World, id: nat, ask: Ask, base: Project, files: seq<Draft>)
    requires Tracked(w, id, ask, base, files)
    ensures id < w.nextRun && (id in w.clients ==> !w.clients[id].Working?)
  {
  }

  lemma {:induction false} TrackedOn(w: World, actions: seq<Action>, m: nat, id: nat, ask: Ask, base: Project,
                                     files: seq<Draft>)
    requires m <= |actions| && Tracked(Exec(w, actions[..m]), id, ask, base, files)
    ensures Tracked(Exec(w, actions), id, ask, base, files)
  {
    hide Tracked, Next;
    if m == |actions| {
      assert actions[..m] == actions;
    } else {
      var front := actions[..|actions| - 1];
      assert front[..m] == actions[..m];
      TrackedOn(w, front, m, id, ask, base, files);
      TrackedNext(Exec(w, front), actions[|actions| - 1], id, ask, base, files);
    }
  }

  // ----- Before the ask

  predicate Sane(p: Project) {
    Known(p.current) && (p.status == Done ==> p.current == Verify)
  }

  /** A client that is there has saved at most the begin of its run, and no number is given twice. */
  predicate Quiet(w: World) {
    && Sane(w.stored)
    && (forall k | 0 <= k < |w.history| :: w.history[k].run < w.nextRun)
    && (forall id | id in w.clients :: id < w.nextRun && Sane(w.clients[id].base) && OnlyBegun(w, id))
  }

  /** Anything but a save leaves the history, and a client keeps the project it works on. */
  predicate OnlyMoves(w: World, w': World) {
    && w'.history == w.history && w'.nextRun >= w.nextRun && (w'.stored == w.stored || w'.stored == Reload(w.stored))
    && forall id | id in w'.clients ::
         || (id in w.clients && w'.clients[id].base == w.clients[id].base)
         || (id == w.nextRun && id < w'.nextRun && w'.clients[id].base == w.stored)
  }

  lemma SettleMoves(w: World, id: nat, purpose: Purpose, base: Project, refs: seq<ArtifactRef>, now: nat,
                    category: string, tree: Tree)
    requires id in w.clients && w.clients[id].base == base
    ensures OnlyMoves(w, Settle(w.(tree := tree), id, purpose, base, refs, now, category))
  {
    hide Change;
  }

  lemma StoreMoves(w: World, id: nat, batch: string, now: nat, io: nat, category: string)
    requires id in w.clients && w.clients[id].Storing?
    ensures OnlyMoves(w, StoreClient(w, id, w.clients[id], batch, now, io, category))
  {
    hide Artifacts.Stage, Settle;
    var c := w.clients[id];
    var tree := Artifacts.Stage(w.tree, w.stored.id, c.drafts, batch, now, w.limits, io).0;
    SettleMoves(w, id, c.purpose, c.base, [], now, category, w.tree);
    SettleMoves(w, id, if c.purpose.Success? then Failure(category) else c.purpose, c.base, [], now, category, tree);
  }

  lemma EndMoves(w: World, id: nat, now: nat, io: nat, discardIo: nat, category: string)
    requires id in w.clients && w.clients[id].Committing?
    ensures OnlyMoves(w, EndClient(w, id, w.clients[id], now, io, discardIo, category))
  {
    hide Settle, Discard, RemoveAll;
    var c := w.clients[id];
    var listed := if io > 0 then w.tree.(manifest := w.tree.manifest + c.batch.refs) else w.tree;
    SettleMoves(w, id, c.purpose, c.base, c.batch.refs, now, category, RemoveAll(listed, c.batch.dir));
    SettleMoves(w, id, if c.purpose.Success? then Failure(category) else c.purpose, c.base, [], now, category,
                Discard(listed, w.stored.id, c.batch, discardIo).0);
  }

  lemma ActionMoves(w: World, a: Action)
    requires !a.Save?
    ensures OnlyMoves(w, Next(w, a))
  {
    hide Change, Step, Drafts, EvidenceDrafts, Artifacts.Stage, CommitRef, Discard, BatchOk, HasEmitOutput, Settle,
      RemoveAll, Reload;
    match a
    case Store(id, batch, now, io, category) =>
      if id in w.clients && w.clients[id].Storing? {
        StoreMoves(w, id, batch, now, io, category);
      }
    case CommitNext(id, now, works, discardIo, category) =>
      if id in w.clients && w.clients[id].Committing? {
        var c := w.clients[id];
        SettleMoves(w, id, if c.purpose.Success? then Failure(category) else c.purpose, c.base, [], now, category,
                    Discard(w.tree, w.stored.id, c.batch, discardIo).0);
      }
    case CommitEnd(id, now, io, discardIo, category) =>
      if id in w.clients && w.clients[id].Committing? {
        EndMoves(w, id, now, io, discardIo, category);
      }
    case _ =>
  }

  lemma QuietNext(w: World, a: Action)
    requires Quiet(w)
    ensures Quiet(Next(w, a))
  {
    hide Step, SaveAllowed;
    if a.Save? {
      if a.id in w.clients && w.clients[a.id].Saving? {
        DoneStep(w.clients[a.id].base, w.clients[a.id].op);
      }
    } else {
      ActionMoves(w, a);
      MovesQuietly(w, Next(w, a));
    }
  }

  lemma MovesQuietly(w: World, w': World)
    requires Quiet(w) && OnlyMoves(w, w')
    ensures Quiet(w')
  {
  }

  lemma {:induction false} AlwaysQuiet(p: Project, root: Path, limits: Limits, actions: seq<Action>)
    requires Sane(p)
    ensures Quiet(Exec(Start(p, root, limits), actions))
  {
    hide Quiet, Next;
    if actions == [] {
      QuietStart(p, root, limits);
    } else {
      AlwaysQuiet(p, root, limits, actions[..|actions| - 1]);
      QuietNext(Exec(Start(p, root, limits), actions[..|actions| - 1]), actions[|actions| - 1]);
    }
  }

  lemma QuietStart(p: Project, root: Path, limits: Limits)
    requires Sane(p)
    ensures Quiet(Start(p, root, limits))
  {
  }

  // ----- What is saved in the end

  lemma Continued(w: World, actions: seq<Action>, m: nat, id: nat, ask: Ask, base: Project, files: seq<Draft>)
    requires m < |actions| && Tracked(Next(Exec(w, actions[..m]), actions[m]), id, ask, base, files)
    ensures Tracked(Exec(w, actions), id, ask, base, files)
  {
    hide Tracked, Next;
    assert actions[..m + 1][..m] == actions[..m];
    TrackedOn(w, actions, m + 1, id, ask, base, files);
  }

  /** The files of an output as they are asked to be stored, whatever stage they were labelled with. */
  lemma FiledAlike(refs: seq<ArtifactRef>, stage: Stage, given: seq<Draft>)
    requires RefsFor(refs, stage, FiledAll(stage, given))
    ensures RefsFor(refs, stage, given)
  {
    forall i | 0 <= i < |given| ensures FiledAll(stage, given)[i].(stage := given[i].stage) == given[i] {
    }
  }

  /** In every reachable world: when a stage run returned an output and then saved its success, the saved project
      holds exactly the references of that output's files. It waits at the stage with the reason's category if the
      output asked for a human; otherwise it has moved on to the next stage, or is done. */
  lemma FinishIsTheReturn(p: Project, root: Path, limits: Limits, actions: seq<Action>, m: nat, id: nat,
                          out: StageOutput, category: string, k: nat)
    requires Sane(p) && m < |actions| && actions[m] == StageReturns(id, out, category)
    requires var before := Exec(Start(p, root, limits), actions[..m]); id in before.clients && before.clients[id].Working?
    requires var w := Exec(Start(p, root, limits), actions);
             k < |w.history| && w.history[k].run == id && w.history[k].how.ByFinish?
    ensures var base := Exec(Start(p, root, limits), actions[..m]).clients[id].base;
            var q := Exec(Start(p, root, limits), actions).history[k].project;
            && HoldsFiles(q, base.current, out.artifacts + out.evidence)
            && FinishedAs(base, base.current, out.blocked, out.reason, q.artifacts[base.current], q)
  {
    hide Tracked, RefsFor, FinishedAs, FiledAll, Quiet;
    var before := Exec(Start(p, root, limits), actions[..m]);
    var base := before.clients[id].base;
    AlwaysQuiet(p, root, limits, actions[..m]);
    var drafts := Drafts(base.current, out);
    var ask := Ending(if drafts.Some? then Success(out.blocked, out.reason) else Failure(category));
    var files := if drafts.Some? then drafts.value else [];
    assert Tracked(Next(before, actions[m]), id, ask, base, files) by { Returned(before, id, out, category); }
    Continued(Start(p, root, limits), actions, m, id, ask, base, files);
    SavedAnswer(Exec(Start(p, root, limits), actions), id, ask, base, files, k);
    FiledAlike(Exec(Start(p, root, limits), actions).history[k].project.artifacts[base.current], base.current,
               out.artifacts + out.evidence);
  }

  lemma SavedAnswer(w: World, id: nat, ask: Ask, base: Project, files: seq<Draft>, k: nat)
    requires Tracked(w, id, ask, base, files) && k < |w.history| && w.history[k].run == id && !w.history[k].how.ByBegin?
    ensures Answers(ask, base, files, w.history[k])
  {
  }

  lemma Returned(w: World, id: nat, out: StageOutput, category: string)
    requires Quiet(w) && id in w.clients && w.clients[id].Working?
    ensures var base := w.clients[id].base;
            var drafts := Drafts(base.current, out);
            Tracked(Next(w, StageReturns(id, out, category)), id,
                    Ending(if drafts.Some? then Success(out.blocked, out.reason) else Failure(category)), base,
                    if drafts.Some? then drafts.value else [])
  {
    hide Answers;
  }

  /** When a stage run failed, what it saved is that failure: the project is blocked at the stage, with the category
      of the error, and holds what it held and the evidence, if that could be stored. */
  lemma FailureIsSaved(p: Project, root: Path, limits: Limits, actions: seq<Action>, m: nat, id: nat,
                       evidence: seq<Draft>, category: string, k: nat)
    requires Sane(p) && m < |actions| && actions[m] == StageFails(id, evidence, category)
    requires var before := Exec(Start(p, root, limits), actions[..m]); id in before.clients && before.clients[id].Working?
    requires var w := Exec(Start(p, root, limits), actions);
             k < |w.history| && w.history[k].run == id && !w.history[k].how.ByBegin?
    ensures var base := Exec(Start(p, root, limits), actions[..m]).clients[id].base;
            var saved := Exec(Start(p, root, limits), actions).history[k];
            && saved.how.ByFail? && FailedAt(base, saved.project) && saved.project.lastError == ShortCategory(category)
            && AddedFiles(base, base.current, evidence, saved.project)
  {
    hide Tracked, RefsFor, Added, FiledAll, Quiet;
    var before := Exec(Start(p, root, limits), actions[..m]);
    var base := before.clients[id].base;
    AlwaysQuiet(p, root, limits, actions[..m]);
    var files := EvidenceDrafts(base.current, evidence);
    assert Tracked(Next(before, actions[m]), id, Ending(Failure(category)), base, files) by {
      Failed(before, id, evidence, category);
    }
    Continued(Start(p, root, limits), actions, m, id, Ending(Failure(category)), base, files);
    SavedAnswer(Exec(Start(p, root, limits), actions), id, Ending(Failure(category)), base, files, k);
    forall refs | RefsFor(refs, base.current, files) ensures refs == [] || RefsFor(refs, base.current, evidence) {
      NothingForNothing(refs, base.current, files);
      if files != [] {
        FiledAlike(refs, base.current, evidence);
      }
    }
  }

  lemma NothingForNothing(refs: seq<ArtifactRef>, stage: Stage, files: seq<Draft>)
    requires RefsFor(refs, stage, files)
    ensures files == [] ==> refs == []
  {
  }

  lemma Failed(w: World, id: nat, evidence: seq<Draft>, category: string)
    requires Quiet(w) && id in w.clients && w.clients[id].Working?
    ensures var base := w.clients[id].base;
            Tracked(Next(w, StageFails(id, evidence, category)), id, Ending(Failure(category)), base,
                    EvidenceDrafts(base.current, evidence))
  {
    hide Answers;
  }

  /** What is saved for a landing: the project is at verify, or blocked at emit if the landing was partial, and holds
      what it held and the receipt, if that could be stored. */
  lemma LandingIsSaved(p: Project, root: Path, limits: Limits, actions: seq<Action>, m: nat, partial: bool,
                       receipt: Draft, k: nat)
    requires Sane(p) && m < |actions| && actions[m] == LoadLanding(partial, receipt) && receipt.stage == Emit
    requires HasEmitOutput(Exec(Start(p, root, limits), actions[..m]).stored)
    requires var id := Exec(Start(p, root, limits), actions[..m]).nextRun;
             var w := Exec(Start(p, root, limits), actions);
             k < |w.history| && w.history[k].run == id
    ensures var base := Exec(Start(p, root, limits), actions[..m]).stored;
            var saved := Exec(Start(p, root, limits), actions).history[k];
            && (saved.how.ByBegin? || saved.how.ByLand?)
            && (saved.how.ByLand? ==>
                  exists refs :: (refs == [] || RefsFor(refs, Emit, [receipt])) && LandedAs(base, partial, refs, saved.project))
  {
    hide Tracked, RefsFor, LandedAs, Quiet, HasEmitOutput;
    var before := Exec(Start(p, root, limits), actions[..m]);
    var w := Exec(Start(p, root, limits), actions);
    AlwaysQuiet(p, root, limits, actions[..m]);
    assert Tracked(Next(before, actions[m]), before.nextRun, Ending(Landing(partial)), before.stored, [receipt]) by {
      Landed(before, partial, receipt);
    }
    Continued(Start(p, root, limits), actions, m, before.nextRun, Ending(Landing(partial)), before.stored, [receipt]);
    if !w.history[k].how.ByBegin? {
      SavedAnswer(w, before.nextRun, Ending(Landing(partial)), before.stored, [receipt], k);
    }
  }

  lemma Landed(w: World, partial: bool, receipt: Draft)
    requires Quiet(w) && HasEmitOutput(w.stored) && receipt.stage == Emit
    ensures Tracked(Next(w, LoadLanding(partial, receipt)), w.nextRun, Ending(Landing(partial)), w.stored, [receipt])
  {
    hide Answers, HasEmitOutput;
  }

  /** What is saved for a reset is the reset to that stage. */
  lemma ResetIsSaved(p: Project, root: Path, limits: Limits, actions: seq<Action>, m: nat, stage: Stage, now: nat, k: nat)
    requires Sane(p) && m < |actions| && actions[m] == LoadReset(stage, now)
    requires Change(Exec(Start(p, root, limits), actions[..m]).stored, OpReset(stage, now)).Some?
    requires var id := Exec(Start(p, root, limits), actions[..m]).nextRun;
             var w := Exec(Start(p, root, limits), actions);
             k < |w.history| && w.history[k].run == id && !w.history[k].how.ByBegin?
    ensures var saved := Exec(Start(p, root, limits), actions).history[k];
            saved.how.ByReset? && ResetTo(Exec(Start(p, root, limits), actions[..m]).stored, stage, saved.project)
  {
    hide Tracked, ResetTo, Quiet, Change;
    var before := Exec(Start(p, root, limits), actions[..m]);
    AlwaysQuiet(p, root, limits, actions[..m]);
    assert Tracked(Next(before, actions[m]), before.nextRun, Resetting(stage), before.stored, []) by {
      WasReset(before, stage, now);
    }
    Continued(Start(p, root, limits), actions, m, before.nextRun, Resetting(stage), before.stored, []);
    SavedAnswer(Exec(Start(p, root, limits), actions), before.nextRun, Resetting(stage), before.stored, [], k);
  }

  lemma WasReset(w: World, stage: Stage, now: nat)
    requires Quiet(w) && Change(w.stored, OpReset(stage, now)).Some?
    ensures Tracked(Next(w, LoadReset(stage, now)), w.nextRun, Resetting(stage), w.stored, [])
  {
    hide Step, Change, ResetTo;
    ResetEffect(w.stored, OpReset(stage, now));
  }

  // ----- Without a human

  /** Nobody resets or lands, and every run of emit asks for a human. */
  ghost predicate Unattended(w: World, actions: seq<Action>) {
    forall m | 0 <= m < |actions| ::
      && !actions[m].LoadReset? && !actions[m].LoadLanding?
      && (actions[m].StageReturns? ==>
            var before := Exec(w, actions[..m]);
            actions[m].id in before.clients && before.clients[actions[m].id].base.current == Emit ==> actions[m].out.blocked)
  }

  predicate UpToEmit(p: Project) {
    0 <= StageIndex(p.current) <= 3 && p.status != Done
  }

  ghost predicate HeldBack(c: Client) {
    && UpToEmit(c.base)
    && match c
       case Working(_) => true
       case Storing(purpose, base, _) => Waits(purpose, base)
       case Committing(purpose, base, _, _) => Waits(purpose, base)
       case Saving(_, base, op) => UpToEmit(Step(base, op))
  }

  predicate Waits(purpose: Purpose, base: Project) {
    !purpose.Landing? && (purpose.Success? && base.current == Emit ==> purpose.blocked)
  }

  ghost predicate NobodyPasses(w: World) {
    UpToEmit(w.stored) && forall id | id in w.clients :: HeldBack(w.clients[id])
  }

  lemma SettleWaits(w: World, id: nat, purpose: Purpose, base: Project, refs: seq<ArtifactRef>, now: nat,
                    category: string, tree: Tree)
    requires NobodyPasses(w) && UpToEmit(base) && Waits(purpose, base)
    ensures NobodyPasses(Settle(w.(tree := tree), id, purpose, base, refs, now, category))
  {
    hide Step, Change;
    match purpose
    case Success(blocked, reason) =>
      var op := OpFinish(base.current, blocked, reason, refs, now);
      if Change(base, op).Some? {
        FinishEffect(base, op);
      }
    case Failure(category') =>
      var op := OpFail(base.current, category', refs, now);
      if Change(base, op).Some? {
        FailEffect(base, op);
      }
  }

  lemma NobodyPassesNext(w: World, a: Action)
    requires NobodyPasses(w) && !a.LoadReset? && !a.LoadLanding?
    requires a.StageReturns? && a.id in w.clients && w.clients[a.id].base.current == Emit ==> a.out.blocked
    ensures NobodyPasses(Next(w, a))
  {
    hide Change, Step, Drafts, EvidenceDrafts, Artifacts.Stage, CommitRef, Discard, BatchOk, SaveAllowed, Settle, RemoveAll;
    match a
    case LoadAdvance(target, now) =>
      if Change(w.stored, OpBegin(target, now)).Some? {
        BeginWaits(w.stored, OpBegin(target, now));
      }
    case Store(id, batch, now, io, category) =>
      if id in w.clients && w.clients[id].Storing? {
        var c := w.clients[id];
        assert HeldBack(c);
        var tree := Artifacts.Stage(w.tree, w.stored.id, c.drafts, batch, now, w.limits, io).0;
        SettleWaits(w, id, c.purpose, c.base, [], now, category, w.tree);
        SettleWaits(w, id, if c.purpose.Success? then Failure(category) else c.purpose, c.base, [], now, category, tree);
      }
    case CommitNext(id, now, works, discardIo, category) =>
      if id in w.clients && w.clients[id].Committing? {
        var c := w.clients[id];
        assert HeldBack(c);
        SettleWaits(w, id, if c.purpose.Success? then Failure(category) else c.purpose, c.base, [], now, category,
                    Discard(w.tree, w.stored.id, c.batch, discardIo).0);
      }
    case CommitEnd(id, now, io, discardIo, category) =>
      if id in w.clients && w.clients[id].Committing? {
        var c := w.clients[id];
        assert HeldBack(c);
        var listed := if io > 0 then w.tree.(manifest := w.tree.manifest + c.batch.refs) else w.tree;
        SettleWaits(w, id, c.purpose, c.base, c.batch.refs, now, category, RemoveAll(listed, c.batch.dir));
        SettleWaits(w, id, if c.purpose.Success? then Failure(category) else c.purpose, c.base, [], now, category,
                    Discard(listed, w.stored.id, c.batch, discardIo).0);
      }
    case _ =>
  }

  lemma BeginWaits(p: Project, op: Op)
    requires UpToEmit(p) && op.OpBegin? && Change(p, op).Some?
    ensures UpToEmit(Step(p, op))
  {
    BeginEffect(p, op);
  }

  /** In every interleaving without resets and landings in which every output of emit asks for a human, the stored
      project never gets past emit, crashes included. */
  lemma {:induction false} NobodyPassesEmit(p: Project, root: Path, limits: Limits, actions: seq<Action>)
    requires UpToEmit(p) && Unattended(Start(p, root, limits), actions)
    ensures NobodyPasses(Exec(Start(p, root, limits), actions))
    ensures StageIndex(Exec(Start(p, root, limits), actions).stored.current) <= StageIndex(Emit)
  {
    hide Next, HeldBack;
    if actions != [] {
      var front := actions[..|actions| - 1];
      assert forall m | 0 <= m < |front| :: front[..m] == actions[..m];
      NobodyPassesEmit(p, root, limits, front);
      NobodyPassesNext(Exec(Start(p, root, limits), front), actions[|actions| - 1]);
    }
  }
}

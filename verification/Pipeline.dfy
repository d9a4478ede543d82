/** The concurrent protocol around one project: any number of advances, resets and landings, each a
    client that goes through the steps of its call, one store operation at a time. Steps of different
    clients interleave freely, any client may stop for good between two steps, and the whole process may
    crash between any two steps. */
module Pipeline {
  import opened Common
  import opened Lifecycle
  import opened LifecycleRuns
  import opened ProjectStore
  import opened Artifacts
  import opened Paths

  // ----- Preparing the drafts of a stage run

  /** What a stage run returns. */
  datatype StageOutput = StageOutput(artifacts: seq<Draft>, evidence: seq<Draft>, blocked: bool, reason: string)

  const NO_STAGE := Unknown("")

  /** A draft without a stage belongs to the stage that ran. */
  function Filed(stage: Stage, d: Draft): Draft {
    if d.stage == NO_STAGE then d.(stage := stage) else d
  }

  function FiledAll(stage: Stage, drafts: seq<Draft>): (r: seq<Draft>)
    ensures |r| == |drafts| && forall i | 0 <= i < |r| :: r[i] == Filed(stage, drafts[i])
  {
    seq(|drafts|, i requires 0 <= i < |drafts| => Filed(stage, drafts[i]))
  }

  predicate AllEvidence(drafts: seq<Draft>) {
    forall d | d in drafts :: d.kind == Evidence
  }

  predicate AllOfStage(stage: Stage, drafts: seq<Draft>) {
    forall d | d in drafts :: d.stage == stage
  }

  /** The drafts of a successful run, or None when evidence is not evidence or a draft names another
      stage. */
  function Drafts(stage: Stage, out: StageOutput): Option<seq<Draft>> {
    var drafts := FiledAll(stage, out.artifacts + out.evidence);
    if AllEvidence(out.evidence) && AllOfStage(stage, drafts) then Some(drafts) else None
  }

  /** The drafts a failed run may leave: evidence of its own stage, or none at all. */
  function EvidenceDrafts(stage: Stage, evidence: seq<Draft>): seq<Draft> {
    var drafts := FiledAll(stage, evidence);
    if AllEvidence(evidence) && AllOfStage(stage, drafts) then drafts else []
  }

  method PrepareDrafts(stage: Stage, out: StageOutput) returns (r: Option<seq<Draft>>)
    ensures r == Drafts(stage, out)
  {
    for i := 0 to |out.evidence|
      invariant AllEvidence(out.evidence[..i])
    {
      assert out.evidence[..i + 1] == out.evidence[..i] + [out.evidence[i]];
      if out.evidence[i].kind != Evidence {
        return None;
      }
    }
    assert out.evidence[..|out.evidence|] == out.evidence;
    var drafts := out.artifacts + out.evidence;
    ghost var given := drafts;
    for i := 0 to |drafts|
      invariant |drafts| == |given|
      invariant forall k | i <= k < |given| :: drafts[k] == given[k]
      invariant forall k | 0 <= k < i :: drafts[k] == Filed(stage, given[k]) && drafts[k].stage == stage
    {
      if drafts[i].stage == NO_STAGE {
        drafts := drafts[i := drafts[i].(stage := stage)];
      }
      if drafts[i].stage != stage {
        assert FiledAll(stage, given)[i] in FiledAll(stage, given);
        return None;
      }
    }
    assert drafts == FiledAll(stage, given);
    return Some(drafts);
  }

  // ----- The world

  datatype How = ByCreate | ByBegin | ByFinish | ByFail | ByReset | ByLand

  /** One successful write of the project file. */
  datatype Saved = Saved(project: Project, run: nat, how: How)

  /** Why a client is storing artifacts. */
  datatype Purpose =
    | Success(blocked: bool, reason: string)
    | Failure(category: string)
    | Landing(partial: bool)

  /** Where a client stands; `base` is the project value it works on. */
  datatype Client =
    | Saving(how: How, base: Project, op: Op)
    | Working(base: Project)
    | Storing(purpose: Purpose, base: Project, drafts: seq<Draft>)
    | Committing(purpose: Purpose, base: Project, batch: Batch, done: nat)

  datatype World = World(
    stored: Project, history: seq<Saved>, trace: seq<Op>,
    tree: Tree, limits: Limits, clients: map<nat, Client>, nextRun: nat)

  datatype Action =
      /** Get, the transition check, and Begin on the clone. */
    | LoadAdvance(target: Stage, now: nat)
    | LoadReset(stage: Stage, now: nat)
      /** The applier planned from the stored project, wrote files, and is left with its receipt. */
    | LoadLanding(partial: bool, receipt: Draft)
    | Save(id: nat, works: bool)
      /** The stage run ends; `category` classifies the error if it, or storing its output, fails. */
    | StageFails(id: nat, evidence: seq<Draft>, category: string)
    | StageReturns(id: nat, out: StageOutput, category: string)
    | Store(id: nat, batch: string, now: nat, io: nat, category: string)
    | CommitNext(id: nat, now: nat, works: bool, discardIo: nat, category: string)
    | CommitEnd(id: nat, now: nat, io: nat, discardIo: nat, category: string)
    | Abandon(id: nat)
    | Crash

  function With(w: World, id: nat, c: Client): World {
    w.(clients := w.clients[id := c])
  }

  function Without(w: World, id: nat): World {
    w.(clients := w.clients - {id})
  }

  function Spawn(w: World, c: Client): World {
    w.(clients := w.clients[w.nextRun := c], nextRun := w.nextRun + 1)
  }

  /** The transition a client saves once its references are committed (or given up). */
  function SettleOp(purpose: Purpose, base: Project, refs: seq<ArtifactRef>, now: nat): (How, Op) {
    match purpose
    case Success(blocked, reason) => (ByFinish, OpFinish(base.current, blocked, reason, refs, now))
    case Failure(category) => (ByFail, OpFail(base.current, category, refs, now))
    case Landing(partial) => (ByLand, OpLand(partial, refs, now))
  }

  /** A transition the project value refuses is a failure of the stage; a refused failure or landing
      ends the client. */
  function Settle(w: World, id: nat, purpose: Purpose, base: Project, refs: seq<ArtifactRef>, now: nat,
                  category: string): World
  {
    var (how, op) := SettleOp(purpose, base, refs, now);
    if Change(base, op).Some? then With(w, id, Saving(how, base, op))
    else if purpose.Success? then With(w, id, Storing(Failure(category), base, []))
    else Without(w, id)
  }

  /** Storing failed: a stage run becomes a failure without evidence, the others go on without
      references. */
  function GiveUp(w: World, id: nat, purpose: Purpose, base: Project, now: nat, category: string): World {
    Settle(w, id, if purpose.Success? then Failure(category) else purpose, base, [], now, category)
  }

  function SaveClient(w: World, id: nat, c: Client, works: bool): World
    requires c.Saving?
  {
    var next := Step(c.base, c.op);
    if !works || !SaveAllowed(w.stored, next) then Without(w, id)
    else
      var w' := w.(stored := next, history := w.history + [Saved(next, id, c.how)], trace := w.trace + [c.op]);
      if c.how.ByBegin? then With(w', id, Working(next)) else Without(w', id)
  }

  ghost function StoreClient(w: World, id: nat, c: Client, batch: string, now: nat, io: nat, category: string): World
    requires c.Storing?
  {
    if c.drafts == [] then Settle(w, id, c.purpose, c.base, [], now, category)
    else
      var (tree, handle) := Artifacts.Stage(w.tree, w.stored.id, c.drafts, batch, now, w.limits, io);
      if handle.None? then GiveUp(w.(tree := tree), id, c.purpose, c.base, now, category)
      else With(w.(tree := tree), id, Committing(c.purpose, c.base, handle.value, 0))
  }

  function CommitClient(w: World, id: nat, c: Client, now: nat, works: bool, discardIo: nat, category: string): World
    requires c.Committing?
  {
    if c.done >= |c.batch.refs| then w
    else if works && BatchOk(w.tree.home, w.stored.id, c.batch)
            && CommitRef(w.tree, c.batch.dir, c.batch.refs[c.done]).Some? then
      With(w.(tree := CommitRef(w.tree, c.batch.dir, c.batch.refs[c.done]).value), id, c.(done := c.done + 1))
    else
      GiveUp(w.(tree := Discard(w.tree, w.stored.id, c.batch, discardIo).0), id, c.purpose, c.base, now, category)
  }

  function EndClient(w: World, id: nat, c: Client, now: nat, io: nat, discardIo: nat, category: string): World
    requires c.Committing?
  {
    if c.done != |c.batch.refs| then w
    else
      var listed := if io > 0 then w.tree.(manifest := w.tree.manifest + c.batch.refs) else w.tree;
      if io > 1 then
        Settle(w.(tree := RemoveAll(listed, c.batch.dir)), id, c.purpose, c.base, c.batch.refs, now, category)
      else
        GiveUp(w.(tree := Discard(listed, w.stored.id, c.batch, discardIo).0), id, c.purpose, c.base, now, category)
  }

  /** One step; an action that does not apply leaves the world as it is. */
  ghost function Next(w: World, a: Action): World {
    match a
    case LoadAdvance(target, now) =>
      var op := OpBegin(target, now);
      if Change(w.stored, op).Some? then Spawn(w, Saving(ByBegin, w.stored, op)) else w
    case LoadReset(stage, now) =>
      var op := OpReset(stage, now);
      if Change(w.stored, op).Some? then Spawn(w, Saving(ByReset, w.stored, op)) else w
    case LoadLanding(partial, receipt) =>
      if HasEmitOutput(w.stored) then Spawn(w, Storing(Landing(partial), w.stored, [receipt])) else w
    case Save(id, works) =>
      if id in w.clients && w.clients[id].Saving? then SaveClient(w, id, w.clients[id], works) else w
    case StageFails(id, evidence, category) =>
      if id in w.clients && w.clients[id].Working? then
        var base := w.clients[id].base;
        With(w, id, Storing(Failure(category), base, EvidenceDrafts(base.current, evidence)))
      else w
    case StageReturns(id, out, category) =>
      if id in w.clients && w.clients[id].Working? then
        var base := w.clients[id].base;
        var drafts := Drafts(base.current, out);
        With(w, id, if drafts.Some? then Storing(Success(out.blocked, out.reason), base, drafts.value)
                    else Storing(Failure(category), base, []))
      else w
    case Store(id, batch, now, io, category) =>
      if id in w.clients && w.clients[id].Storing? then StoreClient(w, id, w.clients[id], batch, now, io, category)
      else w
    case CommitNext(id, now, works, discardIo, category) =>
      if id in w.clients && w.clients[id].Committing? then
        CommitClient(w, id, w.clients[id], now, works, discardIo, category)
      else w
    case CommitEnd(id, now, io, discardIo, category) =>
      if id in w.clients && w.clients[id].Committing? then
        EndClient(w, id, w.clients[id], now, io, discardIo, category)
      else w
    case Abandon(id) => Without(w, id)
    case Crash => w.(clients := map[], stored := Reload(w.stored), trace := w.trace + [OpReload])
  }

  ghost function Exec(w: World, actions: seq<Action>): World {
    if actions == [] then w else Next(Exec(w, actions[..|actions| - 1]), actions[|actions| - 1])
  }

  /** The world right after Create; the artifacts of a project are kept below `root`, under its id. */
  function Start(p: Project, root: Path, limits: Limits): World {
    World(p, [Saved(p, 0, ByCreate)], [], Tree(root + [p.id], map[], []), limits, map[], 1)
  }
}

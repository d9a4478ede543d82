/** Whole runs of the lifecycle: the transitions in the combinations in which the pipeline, the
    applier and a restart perform them, and what holds after every run. */
module LifecycleRuns {
  import opened Common
  import opened Lifecycle

  const APPLY_PARTIAL := "apply_partial"
  const AWAITING_APPLY := "awaiting_apply"
  const AWAITING_HUMAN := "awaiting_human"

  datatype Op =
    | OpBegin(stage: Stage, now: nat)
      /** The successful end of a stage run: a hold when the stage asks for a human. */
    | OpFinish(stage: Stage, blocked: bool, reason: string, refs: seq<ArtifactRef>, now: nat)
    | OpFail(stage: Stage, kind: string, refs: seq<ArtifactRef>, now: nat)
      /** The applier's record of a landing, which it only attempts on emit output. */
    | OpLand(partial: bool, refs: seq<ArtifactRef>, now: nat)
    | OpReset(stage: Stage, now: nat)
    | OpReload

  /** The category of a hold; a stage that gave none waits for a human. */
  function HoldReason(reason: string): string {
    if TrimSpace(reason) == "" then AWAITING_HUMAN else reason
  }

  /** The state change of one saved operation, without the revision. */
  function Change(p: Project, op: Op): Option<Project> {
    match op
    case OpBegin(stage, now) => Begin(p, stage, now)
    case OpFinish(stage, blocked, reason, refs, now) =>
      if blocked then Hold(p, stage, refs, HoldReason(reason), now)
      else Complete(p, stage, refs, now)
    case OpFail(stage, kind, refs, now) => FailWith(p, stage, kind, refs, now)
    case OpLand(partial, refs, now) =>
      if !HasEmitOutput(p) then None
      else if partial then ApplyFailed(p, Emit, APPLY_PARTIAL, refs, now)
      else Applied(p, Emit, refs, now)
    case OpReset(stage, now) => Reset(p, stage, now)
    case OpReload => Some(Reload(p))
  }

  /** One operation: every saved change moves the revision by one, a refused one changes nothing. */
  function Step(p: Project, op: Op): Project {
    match Change(p, op)
    case None => p
    case Some(q) => if op.OpReload? then q else q.(revision := p.revision + 1)
  }

  function Run(p: Project, ops: seq<Op>): Project {
    if ops == [] then p else Step(Run(p, ops[..|ops| - 1]), ops[|ops| - 1])
  }

  // ----- No stale downstream output

  /** The operation is the successful end of a run of stage s. */
  predicate Finishes(p: Project, op: Op, s: Stage) {
    op.OpFinish? && op.stage == s && Change(p, op).Some?
  }

  /** Operation k of the run was the successful end of a run of stage s. */
  ghost predicate Finished(p: Project, ops: seq<Op>, k: nat, s: Stage) {
    k < |ops| && Finishes(Run(p, ops[..k]), ops[k], s)
  }

  ghost predicate LastFinish(p: Project, ops: seq<Op>, k: nat, s: Stage) {
    && Finished(p, ops, k, s)
    && forall m | k < m < |ops| :: !Finished(p, ops, m, s)
  }

  /** Stage s has had an entry ever since operation k. */
  ghost predicate HeldSince(p: Project, ops: seq<Op>, k: nat, s: Stage) {
    forall m: nat | k < m <= |ops| :: s in Run(p, ops[..m]).artifacts
  }

  /** Stage s still holds what operation k, its last success, recorded. */
  ghost predicate StillHolds(p: Project, ops: seq<Op>, k: nat, s: Stage) {
    LastFinish(p, ops, k, s) && HeldSince(p, ops, k, s)
  }

  lemma RefusedStep(p: Project, op: Op)
    requires Change(p, op).None?
    ensures Step(p, op) == p
  {
  }

  lemma RunNext(p: Project, ops: seq<Op>, k: nat)
    requires k < |ops|
    ensures Run(p, ops[..k + 1]) == Step(Run(p, ops[..k]), ops[k])
  {
    hide Step;
    assert ops[..k + 1][..k] == ops[..k];
  }

  /** Right after a success the stage holds what was recorded, no later stage holds anything, and the
      evidence is verify's own. */
  lemma FinishClearsDownstream(p: Project, op: Op, i: Stage)
    requires Finishes(p, op, i) && Known(i)
    ensures var q := Step(p, op);
            && i in q.artifacts && q.artifacts[i] == op.refs
            && (forall j | j in q.artifacts :: StageIndex(j) <= StageIndex(i))
            && q.evidence == if i == Verify then CollectEvidence(op.refs) else []
  {
    hide ShortCategory, RefsOf, EvidenceOf, CollectEvidence;
  }

  /** Whatever put it there, a success, a failure or a landing: an entry that has been held since operation
      b is younger than any success of an earlier stage. */
  lemma DownstreamIsYounger(p: Project, ops: seq<Op>, a: nat, i: Stage, b: nat, j: Stage)
    requires Finished(p, ops, a, i) && HeldSince(p, ops, b, j) && 0 <= StageIndex(i) < StageIndex(j)
    ensures a < b
  {
    hide Step, Change;
    RunNext(p, ops, a);
    FinishClearsDownstream(Run(p, ops[..a]), ops[a], i);
    assert j !in Run(p, ops[..a + 1]).artifacts;
  }

  /** Over every run from any project: when two stages still hold what their last successes recorded, the
      later stage's came after the earlier stage's. */
  lemma NoStaleDownstream(p: Project, ops: seq<Op>, i: Stage, j: Stage, a: nat, b: nat)
    requires StillHolds(p, ops, a, i) && StillHolds(p, ops, b, j) && 0 <= StageIndex(i) < StageIndex(j)
    ensures a < b
  {
    hide Step, Change;
    DownstreamIsYounger(p, ops, a, i, b, j);
  }

  // ----- What is held was recorded

  lemma FinishedFront(p: Project, ops: seq<Op>, k: nat, s: Stage)
    requires k + 1 < |ops|
    ensures Finished(p, ops[..|ops| - 1], k, s) <==> Finished(p, ops, k, s)
  {
    assert ops[..|ops| - 1][..k] == ops[..k];
  }

  lemma HeldFront(p: Project, ops: seq<Op>, k: nat, s: Stage)
    requires k + 1 < |ops|
    ensures HeldSince(p, ops, k, s)
            <==> HeldSince(p, ops[..|ops| - 1], k, s) && s in Run(p, ops).artifacts
  {
    hide Run;
    var front := ops[..|ops| - 1];
    if HeldSince(p, ops, k, s) {
      assert ops[..|ops|] == ops;
      forall m: nat | k < m <= |front| ensures s in Run(p, front[..m]).artifacts {
        assert front[..m] == ops[..m];
      }
    }
    if HeldSince(p, front, k, s) && s in Run(p, ops).artifacts {
      forall m: nat | k < m <= |ops| ensures s in Run(p, ops[..m]).artifacts {
        assert if m < |ops| then ops[..m] == front[..m] else ops[..m] == ops;
      }
    }
  }

  /** The last operation apart, a stage still holds what it held. */
  lemma StillHoldsFront(p: Project, ops: seq<Op>, k: nat, s: Stage)
    requires k + 1 < |ops|
    ensures StillHolds(p, ops, k, s)
            <==> StillHolds(p, ops[..|ops| - 1], k, s) && !Finished(p, ops, |ops| - 1, s) && s in Run(p, ops).artifacts
  {
    hide Run, Finished, HeldSince;
    HeldFront(p, ops, k, s);
    var front := ops[..|ops| - 1];
    forall m: nat | m + 1 < |ops| ensures Finished(p, front, m, s) <==> Finished(p, ops, m, s) {
      FinishedFront(p, ops, m, s);
    }
    assert LastFinish(p, ops, k, s) <==> LastFinish(p, front, k, s) && !Finished(p, ops, |ops| - 1, s);
  }

  lemma StillHoldsNow(p: Project, ops: seq<Op>, s: Stage)
    requires ops != [] && Finished(p, ops, |ops| - 1, s) && Known(s)
    ensures StillHolds(p, ops, |ops| - 1, s)
  {
    hide Step, Change;
    FinishClearsDownstream(Run(p, ops[..|ops| - 1]), ops[|ops| - 1], s);
    assert ops[..|ops|] == ops;
  }

  lemma AppendedEntry(p: Project, op: Op)
    requires (op.OpFail? || op.OpLand?) && Change(p, op).Some?
    ensures var stage := if op.OpFail? then op.stage else Emit;
            Step(p, op).artifacts == Append(p, stage, op.refs).artifacts && EvidenceOf(stage, op.refs)
  {
    hide ShortCategory, EvidenceOf, HasEmitOutput;
  }

  lemma KeptEntry(p: Project, op: Op, s: Stage)
    requires !op.OpFail? && !op.OpLand? && !Finishes(p, op, s) && s in Step(p, op).artifacts
    ensures s in p.artifacts && Step(p, op).artifacts[s] == p.artifacts[s]
  {
    if Change(p, op).None? {
      RefusedStep(p, op);
    } else if op.OpFinish? {
      hide ShortCategory, RefsOf, CollectEvidence, StageIndex;
      RecordKeeps(p, op.stage, op.refs, op.now, s);
    }
  }

  lemma RecordKeeps(p: Project, stage: Stage, refs: seq<ArtifactRef>, now: nat, s: Stage)
    requires Record(p, stage, refs, now).Some? && s in Record(p, stage, refs, now).value.artifacts && s != stage
    ensures s in p.artifacts && Record(p, stage, refs, now).value.artifacts[s] == p.artifacts[s]
  {
    hide StageIndex, RefsOf, CollectEvidence;
  }

  /** Only a success replaces an entry; everything else leaves it, appends to it or removes it. */
  lemma EntryGrows(p: Project, op: Op, s: Stage)
    requires s in p.artifacts && s in Step(p, op).artifacts && !Finishes(p, op, s)
    ensures p.artifacts[s] <= Step(p, op).artifacts[s]
  {
    hide Step, Change, EvidenceOf;
    if !op.OpFail? && !op.OpLand? {
      KeptEntry(p, op, s);
    } else if Change(p, op).None? {
      RefusedStep(p, op);
    } else {
      AppendedEntry(p, op);
    }
  }

  /** What a stage still holds begins with exactly the references its last success recorded. */
  lemma {:induction false} RecordedStays(p: Project, ops: seq<Op>, k: nat, s: Stage)
    requires StillHolds(p, ops, k, s) && Known(s)
    ensures s in Run(p, ops).artifacts && ops[k].refs <= Run(p, ops).artifacts[s]
  {
    hide Step, Change;
    if k + 1 == |ops| {
      FinishClearsDownstream(Run(p, ops[..k]), ops[k], s);
    } else {
      var front := ops[..|ops| - 1];
      StillHoldsFront(p, ops, k, s);
      RecordedStays(p, front, k, s);
      EntryGrows(Run(p, front), ops[|ops| - 1], s);
    }
  }

  // ----- What is held was made from the inputs that are held

  /** An operation that removes an entry removes every later one as well. */
  lemma RemovedWithLater(p: Project, op: Op, i: Stage, j: Stage)
    requires p.hasMap && 0 <= StageIndex(i) < StageIndex(j)
    requires i in p.artifacts && j in Step(p, op).artifacts
    ensures i in Step(p, op).artifacts
  {
    if Change(p, op).None? {
      RefusedStep(p, op);
    } else if op.OpFail? || op.OpLand? {
      hide Step, Change;
      AppendedEntry(p, op);
    } else if op.OpFinish? {
      hide ShortCategory, RefsOf, CollectEvidence, StageIndex;
      var q := Record(p, op.stage, op.refs, op.now).value;
      RecordRemoves(p, op.stage, op.refs, op.now, i, j);
      assert Step(p, op).artifacts == q.artifacts;
    }
  }

  lemma RecordRemoves(p: Project, stage: Stage, refs: seq<ArtifactRef>, now: nat, i: Stage, j: Stage)
    requires Record(p, stage, refs, now).Some? && i in p.artifacts && 0 <= StageIndex(i) < StageIndex(j)
    requires j in Record(p, stage, refs, now).value.artifacts
    ensures i in Record(p, stage, refs, now).value.artifacts
  {
    hide StageIndex, RefsOf, CollectEvidence;
  }

  /** An entry comes with a map. */
  lemma EntryHasMap(p: Project, op: Op, j: Stage)
    requires j in p.artifacts && p.hasMap && j in Step(p, op).artifacts
    ensures Step(p, op).hasMap
  {
    hide ShortCategory, RefsOf, EvidenceOf, CollectEvidence, HasEmitOutput;
  }

  /** Right after a success the stage's inputs are as the run was shown them. */
  lemma FinishKeepsInputs(p: Project, op: Op, i: Stage, j: Stage)
    requires Finishes(p, op, j) && 0 <= StageIndex(i) < StageIndex(j) && i in p.artifacts
    ensures var q := Step(p, op); q.hasMap && i in q.artifacts && q.artifacts[i] == p.artifacts[i]
  {
    hide ShortCategory, RefsOf, EvidenceOf, CollectEvidence;
  }

  /** Over every run from any project: as long as a stage holds what its last success recorded, every entry
      that was its input is still there, and still begins with the references the run was shown. */
  lemma {:induction false} HeldOutputFitsInputs(p: Project, ops: seq<Op>, b: nat, j: Stage, i: Stage)
    requires StillHolds(p, ops, b, j) && 0 <= StageIndex(i) < StageIndex(j) && i in Run(p, ops[..b]).artifacts
    ensures var q := Run(p, ops);
            q.hasMap && i in q.artifacts && Run(p, ops[..b]).artifacts[i] <= q.artifacts[i]
  {
    hide Step, Change;
    var last := |ops| - 1;
    var front := ops[..last];
    if b == last {
      FinishKeepsInputs(Run(p, front), ops[b], i, j);
    } else {
      StillHoldsFront(p, ops, b, j);
      assert front[..b] == ops[..b];
      HeldOutputFitsInputs(p, front, b, j, i);
      StillHeld(p, front, b, j);
      var before := Run(p, front);
      RemovedWithLater(before, ops[last], i, j);
      EntryHasMap(before, ops[last], j);
      if Finished(p, ops, last, i) {
        DownstreamIsYounger(p, ops, last, i, b, j);
      }
      EntryGrows(before, ops[last], i);
    }
  }

  lemma StillHeld(p: Project, ops: seq<Op>, k: nat, s: Stage)
    requires StillHolds(p, ops, k, s)
    ensures s in Run(p, ops).artifacts
  {
    hide Step, Change;
    assert ops[..|ops|] == ops;
  }

  /** A reference that only a successful run of its stage can have left. */
  predicate HoldsOutput(p: Project, s: Stage) {
    s in p.artifacts && exists ref :: ref in p.artifacts[s] && ref.kind != Evidence
  }

  lemma OutputStep(p: Project, op: Op, s: Stage)
    requires HoldsOutput(Step(p, op), s) && !Finishes(p, op, s)
    ensures HoldsOutput(p, s)
  {
    hide Step, Change;
    var ref :| ref in Step(p, op).artifacts[s] && ref.kind != Evidence;
    if !op.OpFail? && !op.OpLand? {
      KeptEntry(p, op, s);
    } else if Change(p, op).None? {
      RefusedStep(p, op);
    } else {
      AppendedEntry(p, op);
    }
  }

  /** Everything but evidence that a stage holds after a run from Create was recorded by a success of that
      stage whose record it still holds. */
  lemma {:induction false} OutputIsRecorded(p: Project, ops: seq<Op>, s: Stage)
    requires p.artifacts == map[] && HoldsOutput(Run(p, ops), s) && Known(s)
    ensures exists k: nat :: StillHolds(p, ops, k, s)
  {
    hide Step, Change, StillHolds, HoldsOutput;
    if ops == [] {
      NothingHeld(p, s);
    } else {
      var front := ops[..|ops| - 1];
      if Finished(p, ops, |ops| - 1, s) {
        StillHoldsNow(p, ops, s);
      } else {
        OutputStep(Run(p, front), ops[|ops| - 1], s);
        OutputIsRecorded(p, front, s);
        var k: nat :| StillHolds(p, front, k, s);
        StillHoldsWithin(p, front, k, s);
        OutputIsHeld(p, ops, s);
        StillHoldsFront(p, ops, k, s);
      }
    }
  }

  lemma NothingHeld(p: Project, s: Stage)
    requires p.artifacts == map[]
    ensures !HoldsOutput(p, s)
  {
  }

  lemma OutputIsHeld(p: Project, ops: seq<Op>, s: Stage)
    requires HoldsOutput(Run(p, ops), s)
    ensures s in Run(p, ops).artifacts
  {
  }

  lemma StillHoldsWithin(p: Project, ops: seq<Op>, k: nat, s: Stage)
    requires StillHolds(p, ops, k, s)
    ensures k < |ops|
  {
  }

  // ----- No stale evidence

  /** The evidence is what the verify run that ended at operation b collected, and no stage succeeded since. */
  ghost predicate EvidenceFrom(p: Project, ops: seq<Op>, b: nat) {
    && Finished(p, ops, b, Verify)
    && Run(p, ops).evidence == CollectEvidence(ops[b].refs)
    && forall m, s | b < m < |ops| && Known(s) :: !Finished(p, ops, m, s)
  }

  lemma EvidenceStep(p: Project, op: Op)
    requires forall s | Known(s) :: !Finishes(p, op, s)
    ensures Step(p, op).evidence == p.evidence || Step(p, op).evidence == []
  {
    hide ShortCategory, RefsOf, EvidenceOf, CollectEvidence, HasEmitOutput;
    if op.OpFinish? && Known(op.stage) {
      assert !Finishes(p, op, op.stage);
    }
  }

  lemma EvidenceExtends(p: Project, ops: seq<Op>, b: nat)
    requires ops != [] && EvidenceFrom(p, ops[..|ops| - 1], b)
    requires forall s | Known(s) :: !Finished(p, ops, |ops| - 1, s)
    requires Run(p, ops).evidence == Run(p, ops[..|ops| - 1]).evidence
    ensures EvidenceFrom(p, ops, b)
  {
    hide Run, Finished, CollectEvidence;
    assert Finished(p, ops[..|ops| - 1], b, Verify) ==> b < |ops| - 1 by { FinishedWithin(p, ops[..|ops| - 1], b, Verify); }
    forall m: nat, s | m + 1 < |ops| ensures Finished(p, ops[..|ops| - 1], m, s) <==> Finished(p, ops, m, s) {
      FinishedFront(p, ops, m, s);
    }
  }

  lemma FinishedWithin(p: Project, ops: seq<Op>, k: nat, s: Stage)
    requires Finished(p, ops, k, s)
    ensures k < |ops|
  {
  }

  /** Over every run: the evidence a project shows was collected by a successful verify, and neither that
      stage nor any other has succeeded since. */
  lemma {:induction false} NoStaleEvidence(p: Project, ops: seq<Op>)
    requires p.evidence == [] && Run(p, ops).evidence != []
    ensures exists b: nat :: EvidenceFrom(p, ops, b)
  {
    hide Step, Change, EvidenceFrom;
    if ops != [] {
      var front, op := ops[..|ops| - 1], ops[|ops| - 1];
      if s :| Known(s) && Finished(p, ops, |ops| - 1, s) {
        FinishClearsDownstream(Run(p, front), op, s);
        EvidenceNow(p, ops);
      } else {
        EvidenceStep(Run(p, front), op);
        NoStaleEvidence(p, front);
        var b: nat :| EvidenceFrom(p, front, b);
        EvidenceExtends(p, ops, b);
      }
    }
  }

  lemma EvidenceNow(p: Project, ops: seq<Op>)
    requires ops != [] && Finished(p, ops, |ops| - 1, Verify)
    requires Run(p, ops).evidence == CollectEvidence(ops[|ops| - 1].refs)
    ensures EvidenceFrom(p, ops, |ops| - 1)
  {
  }

  // ----- The frontier

  /** Every reset of the run targets a stage at or before the current one. */
  predicate BackwardOnly(p: Project, ops: seq<Op>) {
    forall k | 0 <= k < |ops| && ops[k].OpReset? ::
      StageIndex(ops[k].stage) <= StageIndex(Run(p, ops[..k]).current)
  }

  /** Every stage before the current one holds an entry; entries beyond it occur only for verify while
      the project waits at emit; evidence only from emit on. */
  ghost predicate Frontier(p: Project) {
    && Known(p.current)
    && (p.status == Done ==> p.current == Verify)
    && (p.artifacts != map[] ==> p.hasMap)
    && (forall s | s in p.artifacts :: Known(s))
    && (forall s | Known(s) && StageIndex(s) < StageIndex(p.current) :: s in p.artifacts)
    && (forall s | s in p.artifacts && StageIndex(s) > StageIndex(p.current) :: s == Verify && p.current == Emit)
    && (p.evidence != [] ==> StageIndex(p.current) >= StageIndex(Emit))
  }

  lemma FrontierRecord(p: Project, stage: Stage, refs: seq<ArtifactRef>, now: nat)
    requires Frontier(p) && Record(p, stage, refs, now).Some?
    ensures Complete(p, stage, refs, now).Some? && Frontier(Complete(p, stage, refs, now).value)
    ensures forall reason :: var q := Hold(p, stage, refs, reason, now); q.Some? && Frontier(q.value)
  {
    var q := Record(p, stage, refs, now).value;
    assert stage in q.artifacts && q.hasMap;
  }

  lemma FrontierReset(p: Project, stage: Stage, now: nat)
    requires Frontier(p) && StageIndex(stage) <= StageIndex(p.current)
    requires Reset(p, stage, now).Some?
    ensures Frontier(Reset(p, stage, now).value)
  {
    assert p.current == Plan || Plan in p.artifacts;
  }

  lemma FrontierLand(p: Project, partial: bool, refs: seq<ArtifactRef>, now: nat)
    requires Frontier(p)
    requires Change(p, OpLand(partial, refs, now)).Some?
    ensures Frontier(Change(p, OpLand(partial, refs, now)).value)
  {
    assert Emit in p.artifacts;
    assert p.current == Emit || p.current == Verify;
  }

  lemma FrontierFail(p: Project, stage: Stage, kind: string, refs: seq<ArtifactRef>, now: nat)
    requires Frontier(p) && FailWith(p, stage, kind, refs, now).Some?
    ensures Frontier(FailWith(p, stage, kind, refs, now).value)
  {
  }

  lemma FrontierReload(p: Project)
    requires Frontier(p)
    ensures Frontier(Reload(p))
  {
    assert Plan in p.artifacts ==> p.artifacts != map[];
  }

  lemma FrontierBegin(p: Project, stage: Stage, now: nat)
    requires Frontier(p) && Begin(p, stage, now).Some?
    ensures Frontier(Begin(p, stage, now).value)
  {
  }

  lemma FrontierBump(p: Project, q: Project)
    requires Frontier(p) && q == p.(revision := q.revision)
    ensures Frontier(q)
  {
  }

  lemma FrontierChange(p: Project, op: Op)
    requires Frontier(p) && Change(p, op).Some?
    requires op.OpReset? ==> StageIndex(op.stage) <= StageIndex(p.current)
    ensures Frontier(Change(p, op).value)
  {
    hide ShortCategory, RefsOf, EvidenceOf, CollectEvidence, Frontier, Record, ClearAfter, CanAdvance;
    match op
    case OpBegin(stage, now) => FrontierBegin(p, stage, now);
    case OpReload => FrontierReload(p);
    case OpReset(stage, now) => FrontierReset(p, stage, now);
    case OpFinish(stage, _, _, refs, now) => FrontierRecord(p, stage, refs, now);
    case OpFail(stage, kind, refs, now) => FrontierFail(p, stage, kind, refs, now);
    case OpLand(partial, refs, now) => FrontierLand(p, partial, refs, now);
  }

  lemma FrontierStep(p: Project, op: Op)
    requires Frontier(p)
    requires op.OpReset? ==> StageIndex(op.stage) <= StageIndex(p.current)
    ensures Frontier(Step(p, op))
  {
    hide Change, Frontier;
    if Change(p, op).Some? {
      FrontierChange(p, op);
      FrontierBump(Change(p, op).value, Step(p, op));
    }
  }

  lemma {:induction false} FrontierRun(p: Project, ops: seq<Op>)
    requires Frontier(p) && BackwardOnly(p, ops)
    ensures Frontier(Run(p, ops))
  {
    if ops != [] {
      var front := ops[..|ops| - 1];
      assert forall k: nat | k < |front| :: front[..k] == ops[..k];
      FrontierRun(p, front);
      assert ops[..|ops| - 1] == front;
      FrontierStep(Run(p, front), ops[|ops| - 1]);
    }
  }

  // ----- The store's gate never refuses a transition

  lemma ValidRecord(p: Project, stage: Stage, refs: seq<ArtifactRef>, now: nat)
    requires ValidProject(p) && Record(p, stage, refs, now).Some?
    ensures ValidProject(Record(p, stage, refs, now).value)
  {
    ShortCategoryIdempotent("");
  }

  lemma ValidAppend(p: Project, stage: Stage, refs: seq<ArtifactRef>)
    requires ValidProject(p) && EvidenceOf(stage, refs)
    ensures ValidProject(Append(p, stage, refs))
  {
    if refs != [] {
      assert refs[0] in refs;
    }
  }

  lemma ValidReset(p: Project, stage: Stage, now: nat)
    requires ValidProject(p) && Reset(p, stage, now).Some?
    ensures ValidProject(Reset(p, stage, now).value)
  {
    ShortCategoryIdempotent("");
    assert ValidProject(ClearAfter(p.(artifacts := p.artifacts - {stage}), stage));
  }

  lemma ValidHold(p: Project, stage: Stage, refs: seq<ArtifactRef>, reason: string, now: nat)
    requires ValidProject(p) && Hold(p, stage, refs, reason, now).Some?
    ensures ValidProject(Hold(p, stage, refs, reason, now).value)
  {
    ValidRecord(p, stage, refs, now);
    ShortCategoryIdempotent(reason);
  }

  lemma ValidComplete(p: Project, stage: Stage, refs: seq<ArtifactRef>, now: nat)
    requires ValidProject(p) && Complete(p, stage, refs, now).Some?
    ensures ValidProject(Complete(p, stage, refs, now).value)
  {
    ValidRecord(p, stage, refs, now);
  }

  lemma ValidFail(p: Project, op: Op)
    requires ValidProject(p) && op.OpFail? && Change(p, op).Some?
    ensures ValidProject(Change(p, op).value)
  {
    ShortCategoryIdempotent(op.kind);
    ValidAppend(p.(status := Blocked, lastError := ShortCategory(op.kind), updatedAt := op.now), op.stage, op.refs);
  }

  lemma ValidApplyFailed(p: Project, stage: Stage, kind: string, refs: seq<ArtifactRef>, now: nat)
    requires ValidProject(p) && Known(stage) && ApplyFailed(p, stage, kind, refs, now).Some?
    ensures ValidProject(ApplyFailed(p, stage, kind, refs, now).value)
  {
    ShortCategoryIdempotent(kind);
    ValidAppend(p, stage, refs);
  }

  lemma ValidApplied(p: Project, stage: Stage, refs: seq<ArtifactRef>, now: nat)
    requires ValidProject(p) && Known(stage) && Applied(p, stage, refs, now).Some?
    ensures ValidProject(Applied(p, stage, refs, now).value)
  {
    ShortCategoryIdempotent("");
    ValidAppend(p, stage, refs);
  }

  /** A transition of a project that passes Validate gives a project that passes it. */
  lemma ValidStep(p: Project, op: Op)
    requires ValidProject(p)
    ensures ValidProject(Step(p, op))
  {
    if Change(p, op).Some? {
      match op
      case OpBegin(_, _) => ShortCategoryIdempotent("");
      case OpReload =>
      case OpReset(stage, now) => ValidReset(p, stage, now);
      case OpFinish(stage, blocked, reason, refs, now) =>
        if blocked {
          ValidHold(p, stage, refs, HoldReason(reason), now);
        } else {
          ValidComplete(p, stage, refs, now);
        }
      case OpFail(_, _, _, _) => ValidFail(p, op);
      case OpLand(partial, refs, now) =>
        if partial {
          ValidApplyFailed(p, Emit, APPLY_PARTIAL, refs, now);
        } else {
          ValidApplied(p, Emit, refs, now);
        }
    }
  }

  // ----- Done, and the stop at emit

  lemma DoneStep(p: Project, op: Op)
    requires Known(p.current) && (p.status == Done ==> p.current == Verify)
    ensures Known(Step(p, op).current)
    ensures Step(p, op).status == Done ==> Step(p, op).current == Verify
  {
    hide ShortCategory, RefsOf, EvidenceOf, CollectEvidence;
  }

  /** Over every run, resets forward included: a project is done only at verify, and a stage that may
      run is the current one. */
  lemma {:induction false} OnlyTheCurrentStageRuns(p: Project, ops: seq<Op>)
    requires Known(p.current) && p.status != Done
    ensures var q := Run(p, ops);
            && Known(q.current)
            && (q.status == Done ==> q.current == Verify)
            && (forall to | CanAdvance(q, to) :: to == q.current)
  {
    if ops != [] {
      OnlyTheCurrentStageRuns(p, ops[..|ops| - 1]);
      DoneStep(Run(p, ops[..|ops| - 1]), ops[|ops| - 1]);
    }
    var q := Run(p, ops);
    forall to | CanAdvance(q, to) ensures to == q.current {
      assert StageIndex(to) == StageIndex(q.current);
    }
  }

  /** A run without resets and landings in which emit always asks for a human. */
  predicate Unattended(ops: seq<Op>) {
    forall op | op in ops ::
      && !op.OpReset? && !op.OpLand?
      && (op.OpFinish? && op.stage == Emit ==> op.blocked && op.reason == AWAITING_APPLY)
  }

  lemma TokenIsACategory(s: string)
    requires |s| <= MAX_CATEGORY && forall i | 0 <= i < |s| :: TokenChar(s[i])
    ensures TrimSpace(s) == s && ShortCategory(s) == s
  {
    assert Trimmed(s);
    TrimSpaceTrims(s);
    TokenOfToken(s);
  }

  /** Without a reset or a landing no run gets past emit. */
  lemma {:induction false} NeverPastEmit(p: Project, ops: seq<Op>)
    requires p.status != Done && p.current == Plan && Unattended(ops)
    ensures 0 <= StageIndex(Run(p, ops).current) <= StageIndex(Emit)
  {
    if ops != [] {
      var front, op := ops[..|ops| - 1], ops[|ops| - 1];
      assert op in ops;
      NeverPastEmit(p, front);
      OnlyTheCurrentStageRuns(p, front);
    }
  }

  /** A successful emit of such a run leaves the project blocked at emit, awaiting an apply. */
  lemma EmitAwaitsApply(p: Project, op: Op)
    requires Finishes(p, op, Emit) && op.blocked && op.reason == AWAITING_APPLY
    ensures var q := Step(p, op);
            q.current == Emit && q.status == Blocked && q.lastError == AWAITING_APPLY && q.artifacts[Emit] == op.refs
  {
    AwaitingApplyIsAToken();
    HeldAt(p, op, op.reason);
  }

  lemma AwaitingApplyIsAToken()
    ensures 0 < |AWAITING_APPLY| <= MAX_CATEGORY
    ensures forall i | 0 <= i < |AWAITING_APPLY| :: TokenChar(AWAITING_APPLY[i])
  {
  }

  lemma HeldAt(p: Project, op: Op, reason: string)
    requires op.OpFinish? && op.blocked && Change(p, op).Some? && reason == op.reason
    requires 0 < |reason| <= MAX_CATEGORY && forall i | 0 <= i < |reason| :: TokenChar(reason[i])
    ensures var q := Step(p, op);
            && q.current == op.stage && q.status == Blocked && q.lastError == reason
            && op.stage in q.artifacts && q.artifacts[op.stage] == op.refs
  {
    TokenIsACategory(reason);
    assert HoldReason(reason) == reason;
  }

  // ----- Evidence

  /** A reset drops the evidence exactly when it targets a stage before verify and the Artifacts map
      is there to be cleared. */
  lemma ResetDropsEvidence(p: Project, stage: Stage, now: nat)
    requires p.evidence != [] && Reset(p, stage, now).Some?
    ensures Reset(p, stage, now).value.evidence == [] <==> p.hasMap && stage != Verify
  {
  }

  /** findStageArtifact: among what a run of the stage is shown there is a reference of that kind. */
  predicate HasInput(p: Project, stage: Stage, kind: Kind) {
    var inputs := InputsBefore(p, stage);
    exists s :: s in inputs && exists ref :: ref in inputs[s] && ref.kind == kind
  }

  /** Verify succeeds only where an earlier stage has left a register representation: its run begins by
      loading it. */
  ghost predicate VerifyHadRegIr(p: Project, ops: seq<Op>) {
    forall k: nat | Finished(p, ops, k, Verify) :: HasInput(Run(p, ops[..k]), Verify, RegIRDoc)
  }

  /** Evidence is never alone: with it there is an entry of an earlier stage, and so a map. */
  ghost predicate Grounded(p: Project) {
    && (p.artifacts != map[] ==> p.hasMap)
    && (p.evidence != [] ==> exists s :: s in p.artifacts && 0 <= StageIndex(s) < StageIndex(Verify))
  }

  lemma GroundedFinish(p: Project, op: Op)
    requires Grounded(p) && op.OpFinish? && Change(p, op).Some?
    requires op.stage == Verify ==> HasInput(p, Verify, RegIRDoc)
    ensures Grounded(Step(p, op))
  {
    hide ShortCategory, RefsOf, EvidenceOf, CollectEvidence, HasEmitOutput;
    var q := Step(p, op);
    assert op.stage in q.artifacts;
    if Known(op.stage) {
      FinishClearsDownstream(p, op, op.stage);
    }
    if q.evidence != [] && op.stage == Verify {
      var s :| s in InputsBefore(p, Verify);
      assert s in q.artifacts;
    }
  }

  lemma GroundedOther(p: Project, op: Op)
    requires Grounded(p) && !op.OpFinish?
    ensures Grounded(Step(p, op))
  {
    hide ShortCategory, RefsOf, EvidenceOf, CollectEvidence, HasEmitOutput;
    if p.evidence != [] {
      var s :| s in p.artifacts && 0 <= StageIndex(s) < StageIndex(Verify);
      assert op.OpReset? || s in Step(p, op).artifacts;
      assert op.OpReset? && op.stage == Verify ==> s in Step(p, op).artifacts;
    }
  }

  lemma {:induction false} GroundedRun(p: Project, ops: seq<Op>)
    requires Grounded(p) && VerifyHadRegIr(p, ops)
    ensures Grounded(Run(p, ops))
  {
    hide Step, Change, Grounded, HasInput;
    if ops != [] {
      var front, op := ops[..|ops| - 1], ops[|ops| - 1];
      forall k: nat | Finished(p, front, k, Verify) ensures HasInput(Run(p, front[..k]), Verify, RegIRDoc) {
        FinishedFront(p, ops, k, Verify);
        assert front[..k] == ops[..k];
      }
      GroundedRun(p, front);
      if !op.OpFinish? {
        GroundedOther(Run(p, front), op);
      } else if Change(Run(p, front), op).Some? {
        assert op.stage == Verify ==> Finished(p, ops, |ops| - 1, Verify);
        GroundedFinish(Run(p, front), op);
      } else {
        RefusedStep(Run(p, front), op);
      }
    }
  }

  /** In every run from Create in which verify saw a register representation, restarts anywhere included, a
      reset to a stage before verify empties the evidence. */
  lemma ResetEmptiesEvidence(p: Project, ops: seq<Op>, stage: Stage, now: nat)
    requires p.artifacts == map[] && p.evidence == [] && VerifyHadRegIr(p, ops)
    requires Reset(Run(p, ops), stage, now).Some? && stage != Verify
    ensures Reset(Run(p, ops), stage, now).value.evidence == []
  {
    hide Step, Change, Run, HasInput, VerifyHadRegIr;
    GroundedRun(p, ops);
  }

  lemma VerifyRecordsEvidence(p: Project, ref: ArtifactRef)
    requires p.status == Pending && p.current == Plan && p.artifacts == map[]
    requires ref.stage == Verify && ref.kind == Evidence && ValidRef(ref)
    ensures var q := Step(Step(Step(p, OpReset(Verify, 1)), OpBegin(Verify, 1)), OpFinish(Verify, false, "", [ref], 1));
            q.evidence == [ref] && q.artifacts.Keys == {Verify} && q.hasMap
  {
    var p1 := Step(p, OpReset(Verify, 1));
    assert p1.artifacts == map[] && p1.current == Verify && p1.status == Pending;
    var p2 := Step(p1, OpBegin(Verify, 1));
    assert p2.artifacts == map[] && p2.current == Verify && p2.status == Running;
    assert CollectEvidence([ref]) == [ref];
    var p3 := Step(p2, OpFinish(Verify, false, "", [ref], 1));
    assert p3.artifacts.Keys == {Verify};
  }

  lemma RestartForgetsTheMap(p: Project)
    requires p.artifacts.Keys == {Verify} && p.hasMap
    ensures var q := Step(Step(Step(p, OpReset(Verify, 1)), OpReload), OpReset(Plan, 1));
            q.current == Plan && q.evidence == p.evidence
  {
    var p1 := Step(p, OpReset(Verify, 1));
    assert p1.artifacts == map[] && p1.evidence == p.evidence;
    assert !Step(p1, OpReload).hasMap;
  }

  lemma RunSnoc(p: Project, ops: seq<Op>, op: Op)
    ensures Run(p, ops + [op]) == Step(Run(p, ops), op)
  {
    hide Step;
    assert (ops + [op])[..|ops|] == ops;
  }

  lemma RunNothing(p: Project)
    ensures Run(p, []) == p
  {
  }

  lemma RunOfSix(p: Project, a: Op, b: Op, c: Op, d: Op, e: Op, f: Op)
    ensures Run(p, [a, b, c, d, e, f]) == Step(Step(Step(Step(Step(Step(p, a), b), c), d), e), f)
  {
    hide Step, Run;
    RunNothing(p);
    RunSnoc(p, [], a);
    RunSnoc(p, [a], b);
    RunSnoc(p, [a, b], c);
    RunSnoc(p, [a, b, c], d);
    RunSnoc(p, [a, b, c, d], e);
    RunSnoc(p, [a, b, c, d, e], f);
    assert [] + [a] == [a] && [a] + [b] == [a, b] && [a, b] + [c] == [a, b, c];
    assert [a, b, c] + [d] == [a, b, c, d] && [a, b, c, d] + [e] == [a, b, c, d, e];
    assert [a, b, c, d, e] + [f] == [a, b, c, d, e, f];
  }

  /** Without the register representation it may not. The stages are replaceable, and a verify that needs
      no input leaves evidence behind: the map was emptied by a reset of verify and a restart read it back
      as nil. */
  lemma EvidenceOutlivesRestart(p: Project, ref: ArtifactRef)
    requires p.status == Pending && p.current == Plan && p.artifacts == map[]
    requires ref.stage == Verify && ref.kind == Evidence && ValidRef(ref)
    ensures var q := Run(p, [OpReset(Verify, 1), OpBegin(Verify, 1), OpFinish(Verify, false, "", [ref], 1),
                             OpReset(Verify, 1), OpReload, OpReset(Plan, 1)]);
            q.current == Plan && q.evidence == [ref]
  {
    RunOfSix(p, OpReset(Verify, 1), OpBegin(Verify, 1), OpFinish(Verify, false, "", [ref], 1),
             OpReset(Verify, 1), OpReload, OpReset(Plan, 1));
    VerifyRecordsEvidence(p, ref);
    RestartForgetsTheMap(
      Step(Step(Step(p, OpReset(Verify, 1)), OpBegin(Verify, 1)), OpFinish(Verify, false, "", [ref], 1)));
  }
}

/** What each operation makes of a project, said of the project before and after, and that the stages can
    always be gone through. */
module LifecycleEffects {
  import opened Common
  import opened Lifecycle
  import opened LifecycleRuns

  const ORDER: seq<Stage> := [Plan, Extract, Infer, Emit, Verify]

  // ----- The leading token

  /** A rune of a token, in either case. */
  predicate TokenRune(c: char) {
    TokenChar(c) || 'A' <= c <= 'Z'
  }

  /** A category is the longest run of token runes a text starts with, in lower case. */
  lemma {:induction false} TokenIsLeading(s: string)
    ensures var n := |Token(s)|;
            && n <= |s| && Token(s) == ToLower(s[..n])
            && (forall i | 0 <= i < n :: TokenRune(s[i])) && (n < |s| ==> !TokenRune(s[n]))
  {
    if s != "" && TokenRune(s[0]) {
      TokenIsLeading(s[1..]);
      var n := |Token(s)|;
      assert s[1..][..n - 1] == s[..n][1..];
      assert ToLower(s[..n])[1..] == ToLower(s[1..][..n - 1]);
      assert ToLower(s[..n]) == [ToLower(s[..n])[0]] + ToLower(s[..n])[1..];
    }
  }

  /** A kind is accepted in any case and with any space around it, if it is one of the five then. */
  lemma KindsExactly(kind: Kind)
    ensures KindAccepted(kind) <==>
              kind.UnknownKind? ==> ToLower(TrimSpace(kind.name)) in ["plan", "regir", "code", "diff", "evidence"]
  {
    hide ToLower, TrimSpace;
  }

  // ----- One operation

  /** The project goes on from a stage that is finished, to the next one, or it is done; the stage it is at then is
      the one that may run. */
  ghost predicate MovedOn(stage: Stage, q: Project) {
    && (if stage == Verify then q.current == Verify && q.status == Done
        else 0 <= StageIndex(stage) < 4 && q.current == ORDER[StageIndex(stage) + 1] && q.status == Pending)
    && forall s :: CanAdvance(q, s) <==> s == q.current
  }

  /** The project waits at the stage for a human, with the category of the reason. */
  ghost predicate WaitsAt(stage: Stage, reason: string, q: Project) {
    && q.current == stage && q.status == Blocked
    && q.lastError == ShortCategory(if TrimSpace(reason) == "" then "awaiting_human" else reason)
    && forall s :: CanAdvance(q, s) <==> s == stage
  }

  lemma OnlyCurrentMayRun(q: Project)
    requires Known(q.current) && q.status != Running && (q.status == Done ==> q.current == Verify)
    ensures forall s :: CanAdvance(q, s) <==> s == q.current
  {
    forall s | CanAdvance(q, s) ensures s == q.current {
      assert StageIndex(s) == StageIndex(q.current);
    }
  }

  /** The end of a stage run that succeeded. */
  ghost predicate FinishedAs(p: Project, stage: Stage, blocked: bool, reason: string, refs: seq<ArtifactRef>, q: Project) {
    && (if blocked then WaitsAt(stage, reason, q) else MovedOn(stage, q) && q.lastError == "")
    && stage in q.artifacts && q.artifacts[stage] == refs
    && (forall s | s in p.artifacts && 0 <= StageIndex(s) < StageIndex(stage) ::
          s in q.artifacts && q.artifacts[s] == p.artifacts[s])
    && (forall s | s in q.artifacts :: StageIndex(s) <= StageIndex(stage) && (s == stage || s in p.artifacts))
    && q.revision == p.revision + 1
  }

  lemma FinishEffect(p: Project, op: Op)
    requires op.OpFinish? && Change(p, op).Some? && Known(p.current)
    ensures p.current == op.stage && p.status == Running
    ensures FinishedAs(p, op.stage, op.blocked, op.reason, op.refs, Step(p, op))
  {
    FinishMoves(p, op);
    FinishRecords(p, op);
  }

  lemma FinishMoves(p: Project, op: Op)
    requires op.OpFinish? && Change(p, op).Some? && Known(p.current)
    ensures p.current == op.stage && p.status == Running
    ensures var q := Step(p, op);
            && (if op.blocked then WaitsAt(op.stage, op.reason, q) else MovedOn(op.stage, q) && q.lastError == "")
            && q.revision == p.revision + 1
  {
    hide ShortCategory, RefsOf, CollectEvidence, CanAdvance, TrimSpace;
    OnlyCurrentMayRun(Step(p, op));
  }

  lemma FinishRecords(p: Project, op: Op)
    requires op.OpFinish? && Change(p, op).Some?
    ensures var q := Step(p, op);
            && op.stage in q.artifacts && q.artifacts[op.stage] == op.refs
            && (forall s | s in p.artifacts && 0 <= StageIndex(s) < StageIndex(op.stage) ::
                  s in q.artifacts && q.artifacts[s] == p.artifacts[s])
            && (Known(op.stage) ==> forall s | s in q.artifacts :: StageIndex(s) <= StageIndex(op.stage))
            && (forall s | s in q.artifacts :: s == op.stage || s in p.artifacts)
  {
    hide ShortCategory, RefsOf, CollectEvidence, StageIndex;
    var q := Record(p, op.stage, op.refs, op.now).value;
    assert Step(p, op).artifacts == q.artifacts;
  }

  /** References are added at the end of a stage's entry and nothing else of the artifacts changes. */
  predicate Added(p: Project, stage: Stage, refs: seq<ArtifactRef>, q: Project) {
    && (refs != [] ==> stage in q.artifacts
                       && q.artifacts[stage] == (if stage in p.artifacts then p.artifacts[stage] else []) + refs)
    && (refs == [] ==> q.artifacts == p.artifacts)
    && q.artifacts - {stage} == p.artifacts - {stage} && q.evidence == p.evidence
    && q.revision == p.revision + 1
  }

  /** A stage run that failed: the project is blocked at its stage. */
  predicate FailedAs(p: Project, stage: Stage, category: string, refs: seq<ArtifactRef>, q: Project) {
    && q.current == stage && q.status == Blocked && q.lastError == ShortCategory(category) && q.lastError != ""
    && Added(p, stage, refs, q)
  }

  lemma FailEffect(p: Project, op: Op)
    requires op.OpFail? && Change(p, op).Some?
    ensures p.current == op.stage && p.status == Running
    ensures FailedAs(p, op.stage, op.kind, op.refs, Step(p, op))
  {
    hide ShortCategory, EvidenceOf;
  }

  /** The record of a landing: a partial one blocks the project at emit, a complete one gets it past emit. */
  predicate LandedAs(p: Project, partial: bool, refs: seq<ArtifactRef>, q: Project) {
    && (if partial then q.current == Emit && q.status == Blocked && q.lastError == ShortCategory("apply_partial")
        else if p.current == Verify then q.current == Verify && q.status == p.status && q.lastError == ""
        else q.current == Verify && q.status == Pending && q.lastError == "")
    && Added(p, Emit, refs, q)
  }

  lemma LandEffect(p: Project, op: Op)
    requires op.OpLand? && Change(p, op).Some?
    ensures LandedAs(p, op.partial, op.refs, Step(p, op))
  {
    hide ShortCategory, EvidenceOf, HasEmitOutput;
  }

  /** A reset: the stage is to be run again, its entry and every later one are gone, the earlier ones stay. */
  ghost predicate ResetTo(p: Project, stage: Stage, q: Project) {
    && q.current == stage && q.status == Pending && q.lastError == "" && stage !in q.artifacts
    && (forall s | s in q.artifacts :: s in p.artifacts && q.artifacts[s] == p.artifacts[s])
    && (forall s | s in p.artifacts && StageIndex(s) < StageIndex(stage) :: s in q.artifacts)
    && (p.hasMap ==> forall s | s in q.artifacts :: StageIndex(s) < StageIndex(stage))
    && q.revision == p.revision + 1
    && forall s :: CanAdvance(q, s) <==> s == stage
  }

  lemma ResetEffect(p: Project, op: Op)
    requires op.OpReset? && Change(p, op).Some?
    ensures ResetTo(p, op.stage, Step(p, op))
  {
    hide CanAdvance;
    OnlyCurrentMayRun(Step(p, op));
  }

  /** The begin of a stage run changes the status and nothing of what the project holds. */
  lemma BeginEffect(p: Project, op: Op)
    requires op.OpBegin? && Change(p, op).Some?
    ensures Step(p, op) == p.(current := op.stage, status := Running, lastError := "", updatedAt := op.now,
                              revision := p.revision + 1)
  {
  }

  /** What is accepted: a stage that may run is begun; a running one ends, with valid references of its own, and when
      it fails with evidence only and a category; a landing needs emit output and evidence, and a complete one a project
      that is not running; any known stage can be reset; nothing without a time. */
  lemma AcceptedExactly(p: Project, op: Op)
    ensures op.OpBegin? ==> (Change(p, op).Some? <==> CanAdvance(p, op.stage) && op.now != 0)
    ensures op.OpFinish? ==>
              (Change(p, op).Some? <==> p.status == Running && p.current == op.stage && op.now != 0
                                        && forall ref | ref in op.refs :: ref.stage == op.stage && ValidRef(ref))
    ensures op.OpFail? ==>
              (Change(p, op).Some? <==> p.status == Running && p.current == op.stage && op.now != 0
                                        && ShortCategory(op.kind) != "" && AllEvidence(op.stage, op.refs))
    ensures op.OpLand? ==>
              (Change(p, op).Some? <==> Holds(p, "apply-manifest.json") && Holds(p, "device.diff") && op.now != 0
                                        && AllEvidence(Emit, op.refs) && (op.partial || p.status != Running))
    ensures op.OpReset? ==> (Change(p, op).Some? <==> op.stage in ORDER && op.now != 0)
  {
    hide Change;
    match op
    case OpBegin(_, _) => BeginAccepted(p, op);
    case OpFinish(_, _, _, _, _) => FinishAccepted(p, op);
    case OpFail(_, _, _, _) => FailAccepted(p, op);
    case OpLand(_, _, _) => LandAccepted(p, op);
    case OpReset(_, _) => ResetAccepted(p, op);
    case OpReload =>
  }

  lemma BeginAccepted(p: Project, op: Op)
    requires op.OpBegin?
    ensures Change(p, op).Some? <==> CanAdvance(p, op.stage) && op.now != 0
  {
    hide CanAdvance;
  }

  lemma FinishAccepted(p: Project, op: Op)
    requires op.OpFinish?
    ensures Change(p, op).Some? <==>
              && p.status == Running && p.current == op.stage && op.now != 0
              && forall ref | ref in op.refs :: ref.stage == op.stage && ValidRef(ref)
  {
    hide ShortCategory, ValidRef, ClearAfter, CollectEvidence;
  }

  lemma FailAccepted(p: Project, op: Op)
    requires op.OpFail?
    ensures Change(p, op).Some? <==>
              && p.status == Running && p.current == op.stage && op.now != 0
              && ShortCategory(op.kind) != "" && AllEvidence(op.stage, op.refs)
  {
    hide ShortCategory, ValidRef;
  }

  lemma LandAccepted(p: Project, op: Op)
    requires op.OpLand?
    ensures Change(p, op).Some? <==>
              && Holds(p, "apply-manifest.json") && Holds(p, "device.diff") && op.now != 0
              && AllEvidence(Emit, op.refs) && (op.partial || p.status != Running)
  {
    PartialIsNamed();
    hide ShortCategory, ValidRef, LastNamed;
    if Emit in p.artifacts {
      NamedIsThere(p.artifacts[Emit], MANIFEST);
      NamedIsThere(p.artifacts[Emit], REVIEW_DIFF);
    }
  }

  lemma ResetAccepted(p: Project, op: Op)
    requires op.OpReset?
    ensures Change(p, op).Some? <==> op.stage in ORDER && op.now != 0
  {
    hide ClearAfter;
    if Known(op.stage) {
      assert ORDER[StageIndex(op.stage)] == op.stage;
    }
  }

  predicate AllEvidence(stage: Stage, refs: seq<ArtifactRef>) {
    forall ref | ref in refs :: ref.stage == stage && ref.kind == Evidence && ValidRef(ref)
  }

  /** Under emit the project holds a reference of that name. */
  predicate Holds(p: Project, name: string) {
    Emit in p.artifacts && exists ref :: ref in p.artifacts[Emit] && ref.name == name
  }

  lemma NamedIsThere(refs: seq<ArtifactRef>, name: string)
    ensures LastNamed(refs, name).Some? <==> exists ref :: ref in refs && ref.name == name
  {
  }

  lemma PartialIsNamed()
    ensures ShortCategory("apply_partial") != ""
  {
    TokenIsACategory("apply_partial");
  }

  /** In any project: the stage that is current may run, and after a done one the next one, but nothing while a run is
      marked as going on. */
  lemma CanAdvanceExactly(p: Project, i: nat, j: nat)
    requires i < 5 && j < 5 && p.current == ORDER[i]
    ensures CanAdvance(p, ORDER[j]) <==> p.status != Running && (j == i || (j == i + 1 && p.status == Done))
  {
    OrderIndex();
  }

  /** As no project is done before verify, that is the current stage and no other. */
  lemma MayRunExactly(p: Project, stage: Stage)
    requires Known(p.current) && (p.status == Done ==> p.current == Verify)
    ensures CanAdvance(p, stage) <==> stage == p.current && p.status != Running
  {
    if CanAdvance(p, stage) {
      assert StageIndex(stage) == StageIndex(p.current);
    }
  }

  /** A run is shown what the stages before its own hold, and nothing else. */
  lemma InputsAreTheEarlier(p: Project, n: nat)
    requires n < 5
    ensures forall s :: s in InputsBefore(p, ORDER[n]) <==> s in p.artifacts && s in ORDER[..n]
    ensures forall s | s in InputsBefore(p, ORDER[n]) :: InputsBefore(p, ORDER[n])[s] == p.artifacts[s]
  {
    forall s ensures s in ORDER[..n] <==> 0 <= StageIndex(s) < n {
      if 0 <= StageIndex(s) < n {
        assert ORDER[StageIndex(s)] == s && ORDER[..n][StageIndex(s)] == s;
      }
      if s in ORDER[..n] {
        var i :| 0 <= i < n && ORDER[..n][i] == s;
      }
    }
  }

  // ----- All stages

  /** Begin and finish of the first n stages. */
  function Advances(refs: seq<seq<ArtifactRef>>, times: seq<nat>, n: nat): seq<Op>
    requires n <= 5 == |refs| && |times| == 10
  {
    if n == 0 then []
    else
      Advances(refs, times, n - 1)
      + [OpBegin(ORDER[n - 1], times[2 * n - 2]), OpFinish(ORDER[n - 1], false, "", refs[n - 1], times[2 * n - 1])]
  }

  ghost predicate NeverRefused(p: Project, ops: seq<Op>) {
    forall k | 0 <= k < |ops| :: Change(Run(p, ops[..k]), ops[k]).Some?
  }

  /** A project whose first n stages are done. */
  predicate Through(p: Project, refs: seq<seq<ArtifactRef>>, n: nat)
    requires n <= 5 == |refs|
  {
    && (if n == 5 then p.current == Verify && p.status == Done else p.current == ORDER[n] && p.status == Pending)
    && (forall i | 0 <= i < n :: ORDER[i] in p.artifacts && p.artifacts[ORDER[i]] == refs[i])
    && (forall s | s in p.artifacts :: 0 <= StageIndex(s) < n)
  }

  /** A pending project may begin its stage, and a run of it may finish. */
  lemma MayRun(p: Project, stage: Stage, begin: Op, finish: Op)
    requires p.current == stage && p.status == Pending && Known(stage)
    requires begin.OpBegin? && begin.stage == stage && begin.now != 0
    requires finish.OpFinish? && finish.stage == stage && !finish.blocked && finish.now != 0 && RefsOf(stage, finish.refs)
    ensures Change(p, begin).Some? && Change(Step(p, begin), finish).Some?
  {
    hide RefsOf, CollectEvidence, ShortCategory, ClearAfter;
  }

  lemma OneStage(p: Project, refs: seq<seq<ArtifactRef>>, n: nat, begin: Op, finish: Op)
    requires n < 5 == |refs| && Through(p, refs, n) && RefsOf(ORDER[n], refs[n])
    requires begin.OpBegin? && begin.stage == ORDER[n] && begin.now != 0
    requires finish.OpFinish? && finish.stage == ORDER[n] && !finish.blocked && finish.refs == refs[n] && finish.now != 0
    ensures Change(p, begin).Some? && Change(Step(p, begin), finish).Some?
    ensures Through(Step(Step(p, begin), finish), refs, n + 1)
    ensures n == 4 ==> Step(Step(p, begin), finish).evidence == CollectEvidence(refs[4])
  {
    hide RefsOf, CollectEvidence, Step, Change, CanAdvance;
    OrderIndex();
    MayRun(p, ORDER[n], begin, finish);
    BeginEffect(p, begin);
    var q := Step(p, begin);
    FinishClearsDownstream(q, finish, ORDER[n]);
    FinishEffect(q, finish);
  }

  lemma OrderIndex()
    ensures forall i | 0 <= i < 5 :: StageIndex(ORDER[i]) == i
  {
  }

  lemma OneMore(p: Project, ops: seq<Op>, op: Op)
    requires NeverRefused(p, ops) && Change(Run(p, ops), op).Some?
    ensures NeverRefused(p, ops + [op]) && Run(p, ops + [op]) == Step(Run(p, ops), op)
  {
    hide Step, Change;
    var all := ops + [op];
    assert all[..|ops|] == ops;
    hide Run;
    forall k | 0 <= k < |all| ensures Change(Run(p, all[..k]), all[k]).Some? {
      assert k < |ops| ==> all[..k] == ops[..k];
    }
  }

  /** From Create, beginning and finishing the stages in order is never refused; the project ends done at
      verify, and every stage holds exactly the references it was given. */
  lemma {:induction false} StagesInOrder(p: Project, refs: seq<seq<ArtifactRef>>, times: seq<nat>, n: nat)
    requires p.current == Plan && p.status == Pending && p.artifacts == map[]
    requires n <= 5 == |refs| && |times| == 10 && (forall t | t in times :: t != 0)
    requires forall i | 0 <= i < 5 :: RefsOf(ORDER[i], refs[i])
    ensures NeverRefused(p, Advances(refs, times, n))
    ensures Through(Run(p, Advances(refs, times, n)), refs, n)
    ensures n == 5 ==> Run(p, Advances(refs, times, n)).evidence == CollectEvidence(refs[4])
  {
    hide Step, Change, RefsOf, CollectEvidence, StageIndex, Through, NeverRefused;
    if n == 0 {
      AtTheStart(p, refs);
    } else {
      StagesInOrder(p, refs, times, n - 1);
      assert times[2 * n - 2] in times && times[2 * n - 1] in times;
      OneMoreStage(p, Advances(refs, times, n - 1), refs, n - 1, times[2 * n - 2], times[2 * n - 1]);
    }
  }

  lemma AtTheStart(p: Project, refs: seq<seq<ArtifactRef>>)
    requires p.current == Plan && p.status == Pending && p.artifacts == map[] && |refs| == 5
    ensures Through(p, refs, 0) && NeverRefused(p, []) && Run(p, []) == p
  {
  }

  lemma OneMoreStage(p: Project, ops: seq<Op>, refs: seq<seq<ArtifactRef>>, n: nat, now: nat, later: nat)
    requires n < 5 == |refs| && Through(Run(p, ops), refs, n) && RefsOf(ORDER[n], refs[n]) && NeverRefused(p, ops)
    requires now != 0 && later != 0
    ensures var more := [OpBegin(ORDER[n], now), OpFinish(ORDER[n], false, "", refs[n], later)];
            && NeverRefused(p, ops + more) && Through(Run(p, ops + more), refs, n + 1)
            && (n == 4 ==> Run(p, ops + more).evidence == CollectEvidence(refs[4]))
  {
    hide Step, Change, RefsOf, CollectEvidence, StageIndex, Through, NeverRefused, Run;
    var begin, finish := OpBegin(ORDER[n], now), OpFinish(ORDER[n], false, "", refs[n], later);
    OneStage(Run(p, ops), refs, n, begin, finish);
    OneMore(p, ops, begin);
    OneMore(p, ops + [begin], finish);
    assert ops + [begin] + [finish] == ops + [begin, finish];
  }

  /** So a project that was just created can go all the way. */
  lemma FromCreate(id: string, title: string, workspace: string, user: string, now: nat,
                   refs: seq<seq<ArtifactRef>>, times: seq<nat>)
    requires |refs| == 5 && |times| == 10 && (forall t | t in times :: t != 0)
    requires forall i | 0 <= i < 5 :: RefsOf(ORDER[i], refs[i])
    ensures var p := Created(id, title, workspace, user, now);
            && p.id == id && p.title == TrimSpace(title) && p.workspace == workspace && p.user == user
            && p.revision == 1 && p.createdAt == now && p.evidence == [] && p.lastError == ""
            && NeverRefused(p, Advances(refs, times, 5)) && Through(Run(p, Advances(refs, times, 5)), refs, 5)
  {
    hide RefsOf, TrimSpace, NeverRefused, Advances, Run;
    StagesInOrder(Created(id, title, workspace, user, now), refs, times, 5);
  }

  /** A complete landing on a project that waits at emit is not refused, and verify may run next. */
  lemma LandingMovesOn(p: Project, refs: seq<ArtifactRef>, now: nat)
    requires p.current == Emit && p.status == Blocked && HasEmitOutput(p) && EvidenceOf(Emit, refs) && now != 0
    ensures Change(p, OpLand(false, refs, now)).Some?
    ensures var q := Step(p, OpLand(false, refs, now));
            q.current == Verify && q.status == Pending && CanAdvance(q, Verify) && Added(p, Emit, refs, q)
  {
    hide EvidenceOf, LastNamed;
    assert p.artifacts[Emit] != [] by { assert LastNamed(p.artifacts[Emit], MANIFEST).Some?; NothingNamed(p.artifacts[Emit], MANIFEST); }
    LandEffect(p, OpLand(false, refs, now));
  }

  lemma NothingNamed(refs: seq<ArtifactRef>, name: string)
    requires LastNamed(refs, name).Some?
    ensures refs != []
  {
  }
}

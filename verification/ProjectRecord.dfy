/** The project as the record whose fields the lifecycle methods update in place. Every method is
    proved against the transition function of the same name. */
module ProjectRecords {
  import opened Common
  import opened Lifecycle

  const STAGE_ORDER: seq<Stage> := [Plan, Extract, Infer, Emit, Verify]

  /** The loop that reads a category token off an error text. */
  method ComputeShortCategory(raw: string) returns (category: string)
    ensures category == ShortCategory(raw)
  {
    var trimmed := TrimSpace(raw);
    category := "";
    var i := 0;
    while i < |trimmed| && (TokenChar(trimmed[i]) || 'A' <= trimmed[i] <= 'Z')
      invariant 0 <= i <= |trimmed|
      invariant Token(trimmed) == category + Token(trimmed[i..])
    {
      category := category + [if TokenChar(trimmed[i]) then trimmed[i] else Lower(trimmed[i])];
      i := i + 1;
    }
    assert Token(trimmed[i..]) == "";
    if |category| > MAX_CATEGORY {
      category := category[..MAX_CATEGORY];
    }
  }

  /** The entries left when the stages after `stage` and before position `index` are gone. */
  ghost function Without(m: map<Stage, seq<ArtifactRef>>, stage: Stage, index: int): map<Stage, seq<ArtifactRef>> {
    map s | s in m && !(StageIndex(stage) < StageIndex(s) < index) :: m[s]
  }

  lemma WithoutNext(m: map<Stage, seq<ArtifactRef>>, stage: Stage, index: int)
    requires StageIndex(stage) < index && 0 <= index < 5
    ensures Without(m, stage, index) - {STAGE_ORDER[index]} == Without(m, stage, index + 1)
  {
    assert forall s: Stage :: StageIndex(s) == index <==> s == STAGE_ORDER[index];
  }

  class ProjectRecord {
    const id: string
    const title: string
    const workspace: string
    const user: string
    const createdAt: nat
    var current: Stage
    var status: Status
    var hasMap: bool
    var artifacts: map<Stage, seq<ArtifactRef>>
    var evidence: seq<ArtifactRef>
    var lastError: string
    var revision: int
    var updatedAt: nat

    function Value(): Project
      reads this
    {
      Project(id, title, workspace, user, current, status, hasMap, artifacts, evidence,
              lastError, revision, createdAt, updatedAt)
    }

    /** Clone: a fresh record with the same value, so that changing it leaves the original alone. */
    constructor (p: Project)
      ensures Value() == p
    {
      id, title, workspace, user, createdAt := p.id, p.title, p.workspace, p.user, p.createdAt;
      current, status, hasMap, artifacts := p.current, p.status, p.hasMap, p.artifacts;
      evidence, lastError, revision, updatedAt := p.evidence, p.lastError, p.revision, p.updatedAt;
    }

    method Begin(stage: Stage, now: nat) returns (ok: bool)
      modifies this
      ensures ok <==> Lifecycle.Begin(old(Value()), stage, now).Some?
      ensures Value() == if ok then Lifecycle.Begin(old(Value()), stage, now).value else old(Value())
    {
      if !CanAdvance(Value(), stage) || now == 0 {
        return false;
      }
      current := stage;
      status := Running;
      lastError := "";
      updatedAt := now;
      return true;
    }

    method ClearAfter(stage: Stage)
      modifies this
      ensures Value() == Lifecycle.ClearAfter(old(Value()), stage)
    {
      if !Known(stage) || !hasMap {
        return;
      }
      ghost var before := artifacts;
      var index := StageIndex(stage) + 1;
      assert artifacts == Without(before, stage, index);
      while index < 5
        invariant StageIndex(stage) < index <= 5
        invariant artifacts == Without(before, stage, index)
        invariant evidence == if StageIndex(stage) < 4 && index == 5 then [] else old(evidence)
        invariant Value() == old(Value()).(artifacts := artifacts, evidence := evidence)
      {
        WithoutNext(before, stage, index);
        artifacts := artifacts - {STAGE_ORDER[index]};
        if STAGE_ORDER[index] == Verify {
          evidence := [];
        }
        index := index + 1;
      }
      assert artifacts == map s | s in before && StageIndex(s) <= StageIndex(stage) :: before[s];
    }

    method Record(stage: Stage, refs: seq<ArtifactRef>, now: nat) returns (ok: bool)
      modifies this
      ensures ok <==> Lifecycle.Record(old(Value()), stage, refs, now).Some?
      ensures Value() == if ok then Lifecycle.Record(old(Value()), stage, refs, now).value else old(Value())
    {
      if status != Running || current != stage || now == 0 || !RefsOf(stage, refs) {
        return false;
      }
      hasMap := true;
      artifacts := artifacts[stage := refs];
      ClearAfter(stage);
      if stage == Verify {
        evidence := CollectEvidence(refs);
      }
      lastError := "";
      updatedAt := now;
      return true;
    }

    method Complete(stage: Stage, refs: seq<ArtifactRef>, now: nat) returns (ok: bool)
      modifies this
      ensures ok <==> Lifecycle.Complete(old(Value()), stage, refs, now).Some?
      ensures Value() == if ok then Lifecycle.Complete(old(Value()), stage, refs, now).value else old(Value())
    {
      ok := Record(stage, refs, now);
      if !ok {
        return;
      }
      match NextStage(stage) {
        case Some(next) =>
          current := next;
          status := Pending;
        case None =>
          current := stage;
          status := Done;
      }
    }

    method Hold(stage: Stage, refs: seq<ArtifactRef>, reason: string, now: nat) returns (ok: bool)
      modifies this
      ensures ok <==> Lifecycle.Hold(old(Value()), stage, refs, reason, now).Some?
      ensures Value() == if ok then Lifecycle.Hold(old(Value()), stage, refs, reason, now).value else old(Value())
    {
      ok := Record(stage, refs, now);
      if !ok {
        return;
      }
      current := stage;
      status := Blocked;
      lastError := ComputeShortCategory(reason);
    }

    method AppendEvidence(stage: Stage, refs: seq<ArtifactRef>) returns (ok: bool)
      modifies this
      ensures ok <==> EvidenceOf(stage, refs)
      ensures Value() == if ok then Append(old(Value()), stage, refs) else old(Value())
    {
      if !EvidenceOf(stage, refs) {
        return false;
      }
      if refs != [] {
        hasMap := true;
        artifacts := artifacts[stage := (if stage in artifacts then artifacts[stage] else []) + refs];
      }
      return true;
    }

    method FailWith(stage: Stage, kind: string, refs: seq<ArtifactRef>, now: nat) returns (ok: bool)
      modifies this
      ensures ok <==> Lifecycle.FailWith(old(Value()), stage, kind, refs, now).Some?
      ensures Value() == if ok then Lifecycle.FailWith(old(Value()), stage, kind, refs, now).value else old(Value())
    {
      var category := ComputeShortCategory(kind);
      if !EvidenceOf(stage, refs) || status != Running || current != stage || now == 0 || category == "" {
        return false;
      }
      status := Blocked;
      lastError := category;
      updatedAt := now;
      ok := AppendEvidence(stage, refs);
    }

    method Applied(stage: Stage, refs: seq<ArtifactRef>, now: nat) returns (ok: bool)
      modifies this
      ensures ok <==> Lifecycle.Applied(old(Value()), stage, refs, now).Some?
      ensures Value() == if ok then Lifecycle.Applied(old(Value()), stage, refs, now).value else old(Value())
    {
      if status == Running || stage !in artifacts || artifacts[stage] == [] || now == 0 {
        return false;
      }
      ok := AppendEvidence(stage, refs);
      if !ok {
        return;
      }
      if StageIndex(stage) >= StageIndex(current) {
        match NextStage(stage) {
          case Some(next) =>
            current := next;
            status := Pending;
          case None =>
            current := stage;
            status := Done;
        }
      }
      lastError := "";
      updatedAt := now;
    }

    method ApplyFailed(stage: Stage, kind: string, refs: seq<ArtifactRef>, now: nat) returns (ok: bool)
      modifies this
      ensures ok <==> Lifecycle.ApplyFailed(old(Value()), stage, kind, refs, now).Some?
      ensures Value() == if ok then Lifecycle.ApplyFailed(old(Value()), stage, kind, refs, now).value else old(Value())
    {
      var category := ComputeShortCategory(kind);
      if category == "" || now == 0 {
        return false;
      }
      ok := AppendEvidence(stage, refs);
      if !ok {
        return;
      }
      current := stage;
      status := Blocked;
      lastError := category;
      updatedAt := now;
    }

    method Reset(stage: Stage, now: nat) returns (ok: bool)
      modifies this
      ensures ok <==> Lifecycle.Reset(old(Value()), stage, now).Some?
      ensures Value() == if ok then Lifecycle.Reset(old(Value()), stage, now).value else old(Value())
    {
      if !Known(stage) || now == 0 {
        return false;
      }
      artifacts := artifacts - {stage};  // a nil map has no entry to delete
      ClearAfter(stage);
      current := stage;
      status := Pending;
      lastError := "";
      updatedAt := now;
      return true;
    }
  }
}

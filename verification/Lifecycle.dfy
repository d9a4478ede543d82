/** The value layer of a modeling project: stages, statuses, artifact references, and the lifecycle
    transitions as functions from a project value to the next one. */
module Lifecycle {
  import opened Common

  datatype Stage = Plan | Extract | Infer | Emit | Verify | Unknown(name: string)

  datatype Status = Pending | Running | Blocked | Done

  /** A kind as it is spelled; `UnknownKind` is any spelling but the five constants. */
  datatype Kind = PlanDoc | RegIRDoc | Code | Diff | Evidence | UnknownKind(name: string)

  /** A project's reference to a stored artifact. Times are counted from an arbitrary origin and 0 is
      the zero time. */
  datatype ArtifactRef = ArtifactRef(
    id: string, stage: Stage, name: string, kind: Kind, bytes: int, digest: string, created: nat)

  /** `hasMap` tells a nil Artifacts map from an empty one. */
  datatype Project = Project(
    id: string, title: string, workspace: string, user: string,
    current: Stage, status: Status,
    hasMap: bool, artifacts: map<Stage, seq<ArtifactRef>>, evidence: seq<ArtifactRef>,
    lastError: string, revision: int, createdAt: nat, updatedAt: nat)

  // ----- Stage order

  function StageIndex(s: Stage): int {
    match s
    case Plan => 0
    case Extract => 1
    case Infer => 2
    case Emit => 3
    case Verify => 4
    case Unknown(_) => -1
  }

  predicate Known(s: Stage) {
    StageIndex(s) >= 0
  }

  function NextStage(s: Stage): Option<Stage> {
    match s
    case Plan => Some(Extract)
    case Extract => Some(Infer)
    case Infer => Some(Emit)
    case Emit => Some(Verify)
    case _ => None
  }

  // ----- Validation of names and references

  predicate NameChar(c: char) {
    IsLetter(c) || IsDecimal(c) || c == '.' || c == '_' || c == '-'
  }

  predicate HasDotDot(s: string) {
    exists i | 0 <= i < |s| - 1 :: s[i] == '.' && s[i + 1] == '.'
  }

  predicate ValidName(name: string) {
    var trimmed := TrimSpace(name);
    && 1 <= |trimmed| <= 64
    && '/' !in trimmed && '\\' !in trimmed && !HasDotDot(trimmed)
    && (IsLetter(trimmed[0]) || IsDecimal(trimmed[0]))
    && forall i | 0 <= i < |trimmed| :: NameChar(trimmed[i])
  }

  /** ParseKind folds case and trims before it compares; the reference keeps its own spelling. */
  predicate KindAccepted(kind: Kind) {
    match kind
    case UnknownKind(name) =>
      var folded := ToLower(TrimSpace(name));
      folded == "plan" || folded == "regir" || folded == "code" || folded == "diff" || folded == "evidence"
    case _ => true
  }

  predicate ValidRef(ref: ArtifactRef) {
    && ValidName(ref.name)
    && Known(ref.stage)
    && KindAccepted(ref.kind)
    && IsDigest(ref.digest)
    && ref.id <= ref.digest && |ref.id| == 16
    && ref.bytes >= 0
    && ref.created != 0
  }

  predicate ValidProjectId(raw: string) {
    var id := TrimSpace(raw);
    && |id| == 19
    && id[..3] == "mp-"
    && forall i | 3 <= i < 19 :: IsHex(id[i])
  }

  // ----- Error categories

  predicate TokenChar(c: char) {
    'a' <= c <= 'z' || '0' <= c <= '9' || c == '_'
  }

  /** The leading category token of a text, in lower case. */
  function Token(s: string): string {
    if s == "" then ""
    else if TokenChar(s[0]) then [s[0]] + Token(s[1..])
    else if 'A' <= s[0] <= 'Z' then [Lower(s[0])] + Token(s[1..])
    else ""
  }

  const MAX_CATEGORY := 32

  function ShortCategory(raw: string): string {
    var token := Token(TrimSpace(raw));
    if |token| > MAX_CATEGORY then token[..MAX_CATEGORY] else token
  }

  lemma {:induction false} TokenChars(s: string)
    ensures forall i | 0 <= i < |Token(s)| :: TokenChar(Token(s)[i])
  {
    if s != "" && (TokenChar(s[0]) || 'A' <= s[0] <= 'Z') {
      TokenChars(s[1..]);
    }
  }

  lemma {:induction false} TokenOfToken(s: string)
    requires forall i | 0 <= i < |s| :: TokenChar(s[i])
    ensures Token(s) == s
  {
    if s != "" {
      TokenOfToken(s[1..]);
      assert s == [s[0]] + s[1..];
    }
  }

  /** A stored category is already in category form, so it passes the check Validate makes. */
  lemma ShortCategoryIdempotent(raw: string)
    ensures ShortCategory(ShortCategory(raw)) == ShortCategory(raw)
    ensures |ShortCategory(raw)| <= MAX_CATEGORY
    ensures forall i | 0 <= i < |ShortCategory(raw)| :: TokenChar(ShortCategory(raw)[i])
  {
    var c := ShortCategory(raw);
    TokenChars(TrimSpace(raw));
    assert Trimmed(c);
    TrimSpaceTrims(c);
    TokenOfToken(c);
  }

  // ----- The project gate

  predicate ValidProject(p: Project) {
    && ValidProjectId(p.id)
    && TrimSpace(p.title) != ""
    && TrimSpace(p.workspace) != ""
    && Known(p.current)
    && p.revision >= 0
    && p.createdAt != 0 && p.updatedAt != 0
    && (forall s | s in p.artifacts :: Known(s) && RefsOf(s, p.artifacts[s]))
    && (forall ref | ref in p.evidence :: ValidRef(ref) && ref.kind == Evidence)
    && p.lastError == ShortCategory(p.lastError)
  }

  predicate RefsOf(stage: Stage, refs: seq<ArtifactRef>) {
    forall ref | ref in refs :: ref.stage == stage && ValidRef(ref)
  }

  predicate EvidenceOf(stage: Stage, refs: seq<ArtifactRef>) {
    forall ref | ref in refs :: ref.stage == stage && ref.kind == Evidence && ValidRef(ref)
  }

  function CollectEvidence(refs: seq<ArtifactRef>): (r: seq<ArtifactRef>)
    ensures forall ref :: ref in r <==> ref in refs && ref.kind == Evidence
  {
    if refs == [] then []
    else (if refs[0].kind == Evidence then [refs[0]] else []) + CollectEvidence(refs[1..])
  }

  /** A reference spelled "EVIDENCE" is accepted, and is no evidence: it is not collected, and a failed run
      or a landing may not leave it. */
  lemma SpelledEvidence(stage: Stage, ref: ArtifactRef)
    requires ValidRef(ref.(kind := Evidence)) && ref.kind == UnknownKind("EVIDENCE")
    ensures ValidRef(ref) && CollectEvidence([ref]) == [] && !EvidenceOf(stage, [ref])
  {
    assert KindAccepted(ref.kind) by {
      TrimSpaceTrims("EVIDENCE") by { assert Trimmed("EVIDENCE"); }
      assert ToLower("EVIDENCE") == "evidence";
    }
    hide KindAccepted, ValidName, IsDigest;
    assert ref in [ref];
  }

  // ----- Transitions; None is a refusal that changes nothing

  predicate CanAdvance(p: Project, to: Stage) {
    && Known(to) && Known(p.current)
    && p.status != Running
    && (|| StageIndex(to) == StageIndex(p.current)
        || (StageIndex(to) == StageIndex(p.current) + 1 && p.status == Done))
  }

  function Begin(p: Project, stage: Stage, now: nat): Option<Project> {
    if CanAdvance(p, stage) && now != 0 then
      Some(p.(current := stage, status := Running, lastError := "", updatedAt := now))
    else None
  }

  /** The Artifacts map without the stages after `stage`; a nil map stays as it is. */
  function ClearAfter(p: Project, stage: Stage): Project {
    if !Known(stage) || !p.hasMap then p
    else p.(artifacts := map s | s in p.artifacts && StageIndex(s) <= StageIndex(stage) :: p.artifacts[s],
            evidence := if StageIndex(stage) < StageIndex(Verify) then [] else p.evidence)
  }

  function Record(p: Project, stage: Stage, refs: seq<ArtifactRef>, now: nat): Option<Project> {
    if p.status == Running && p.current == stage && now != 0 && RefsOf(stage, refs) then
      var q := ClearAfter(p.(hasMap := true, artifacts := p.artifacts[stage := refs]), stage);
      Some(q.(evidence := if stage == Verify then CollectEvidence(refs) else q.evidence,
              lastError := "", updatedAt := now))
    else None
  }

  function Complete(p: Project, stage: Stage, refs: seq<ArtifactRef>, now: nat): Option<Project> {
    match Record(p, stage, refs, now)
    case None => None
    case Some(q) =>
      match NextStage(stage)
      case Some(next) => Some(q.(current := next, status := Pending))
      case None => Some(q.(current := stage, status := Done))
  }

  function Hold(p: Project, stage: Stage, refs: seq<ArtifactRef>, reason: string, now: nat): Option<Project> {
    match Record(p, stage, refs, now)
    case None => None
    case Some(q) => Some(q.(current := stage, status := Blocked, lastError := ShortCategory(reason)))
  }

  function Append(p: Project, stage: Stage, refs: seq<ArtifactRef>): Project {
    if refs == [] then p
    else p.(hasMap := true,
            artifacts := p.artifacts[stage := (if stage in p.artifacts then p.artifacts[stage] else []) + refs])
  }

  function FailWith(p: Project, stage: Stage, kind: string, refs: seq<ArtifactRef>, now: nat): Option<Project> {
    if EvidenceOf(stage, refs) && p.status == Running && p.current == stage && now != 0
       && ShortCategory(kind) != "" then
      Some(Append(p.(status := Blocked, lastError := ShortCategory(kind), updatedAt := now), stage, refs))
    else None
  }

  function Applied(p: Project, stage: Stage, refs: seq<ArtifactRef>, now: nat): Option<Project> {
    if p.status != Running && stage in p.artifacts && p.artifacts[stage] != [] && now != 0
       && EvidenceOf(stage, refs) then
      var q := Append(p, stage, refs).(lastError := "", updatedAt := now);
      if StageIndex(stage) < StageIndex(p.current) then Some(q)
      else
        match NextStage(stage)
        case Some(next) => Some(q.(current := next, status := Pending))
        case None => Some(q.(current := stage, status := Done))
    else None
  }

  function ApplyFailed(p: Project, stage: Stage, kind: string, refs: seq<ArtifactRef>, now: nat): Option<Project> {
    if ShortCategory(kind) != "" && now != 0 && EvidenceOf(stage, refs) then
      Some(Append(p, stage, refs).(
        current := stage, status := Blocked, lastError := ShortCategory(kind), updatedAt := now))
    else None
  }

  function Reset(p: Project, stage: Stage, now: nat): Option<Project> {
    if Known(stage) && now != 0 then
      var q := ClearAfter(p.(artifacts := p.artifacts - {stage}), stage);
      Some(q.(current := stage, status := Pending, lastError := "", updatedAt := now))
    else None
  }

  /** What a restart makes of a stored project: an empty Artifacts map is not written to the file, so
      it is read back as a nil map. */
  function Reload(p: Project): Project {
    p.(hasMap := p.artifacts != map[])
  }

  /** The optimistic-concurrency check of a save. */
  predicate CanReplace(previous: Project, next: Project) {
    && next.id == previous.id && next.workspace == previous.workspace && next.user == previous.user
    && next.createdAt == previous.createdAt
    && next.revision == previous.revision + 1
  }

  // ----- Looking references up

  /** The last reference of that name the project holds under the stage. */
  function FindArtifact(p: Project, stage: Stage, name: string): Option<ArtifactRef> {
    if stage in p.artifacts then LastNamed(p.artifacts[stage], name) else None
  }

  function LastNamed(refs: seq<ArtifactRef>, name: string): (r: Option<ArtifactRef>)
    ensures r.Some? ==> r.value in refs && r.value.name == name
    ensures r.None? ==> forall ref | ref in refs :: ref.name != name
  {
    if refs == [] then None
    else if refs[|refs| - 1].name == name then Some(refs[|refs| - 1])
    else LastNamed(refs[..|refs| - 1], name)
  }

  const MANIFEST := "apply-manifest.json"
  const REVIEW_DIFF := "device.diff"

  /** The two emit artifacts without which an apply refuses before it writes anything. */
  predicate HasEmitOutput(p: Project) {
    FindArtifact(p, Emit, MANIFEST).Some? && FindArtifact(p, Emit, REVIEW_DIFF).Some?
  }

  /** The references of the earlier stages, which is all a stage run is shown. */
  function InputsBefore(p: Project, stage: Stage): map<Stage, seq<ArtifactRef>> {
    map s | s in p.artifacts && 0 <= StageIndex(s) < StageIndex(stage) :: p.artifacts[s]
  }

  /** The project that Create writes. */
  function Created(id: string, title: string, workspace: string, user: string, now: nat): Project {
    Project(id, TrimSpace(title), workspace, user, Plan, Pending, false, map[], [], "", 1, now, now)
  }
}

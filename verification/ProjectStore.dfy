/** The project store: one file per project plus the whole index in memory. A file holds what decoding
    it yields, so it differs from the index only by `Reload`. Writing a file is atomic and may fail. */
module ProjectStore {
  import opened Common
  import opened Lifecycle
  import opened LifecycleRuns

  /** The read rule: the workspace must match, and an owned project is its owner's. */
  predicate VisibleTo(p: Project, workspace: string, user: string) {
    && p.workspace != "" && workspace != "" && p.workspace == workspace
    && (p.user == "" || (user != "" && p.user == user))
  }

  /** What a save checks against the stored project. */
  predicate SaveAllowed(previous: Project, next: Project) {
    && ValidProject(next)
    && VisibleTo(previous, next.workspace, next.user)
    && CanReplace(previous, next)
  }

  /** A project never leaves its workspace, and an owned one is shown to its owner only. */
  lemma OwnedStaysOwned(p: Project, workspace: string, user: string)
    requires VisibleTo(p, workspace, user)
    ensures workspace == p.workspace && (p.user != "" ==> user == p.user)
  {
  }

  /** Its owner is shown it, and so is everybody in the workspace if nobody owns it. */
  lemma OwnerSees(p: Project, user: string)
    requires ValidProject(p) && (user == p.user || p.user == "")
    ensures VisibleTo(p, p.workspace, user)
  {
    assert TrimSpace("") == "";
  }

  /** A valid project is replaced exactly by a valid one of the same identity and the next revision: the check of
      the scope adds nothing to that. */
  lemma SaveAllowedExactly(previous: Project, next: Project)
    requires ValidProject(previous)
    ensures SaveAllowed(previous, next) <==>
              && ValidProject(next) && next.id == previous.id && next.workspace == previous.workspace
              && next.user == previous.user && next.createdAt == previous.createdAt
              && next.revision == previous.revision + 1
  {
    assert TrimSpace("") == "";
    hide ValidProjectId, ShortCategory, RefsOf;
  }

  /** A lifecycle step of a stored project is always allowed to replace exactly that project. */
  lemma StepReplaces(p: Project, op: Op)
    requires ValidProject(p) && !op.OpReload? && Change(p, op).Some?
    ensures SaveAllowed(p, Step(p, op))
  {
    ValidStep(p, op);
    assert TrimSpace("") == "";
    ChangeKeepsIdentity(p, op);
  }

  lemma ChangeKeepsIdentity(p: Project, op: Op)
    requires Change(p, op).Some?
    ensures var q := Change(p, op).value;
            && q.id == p.id && q.title == p.title && q.workspace == p.workspace && q.user == p.user
            && q.createdAt == p.createdAt && q.revision == p.revision
  {
    hide ShortCategory, RefsOf, EvidenceOf, CollectEvidence, CanAdvance, HasEmitOutput, StageIndex;
    if op.OpFinish? {
      RecordKeepsIdentity(p, op.stage, op.refs, op.now);
      hide Record;
    }
  }

  lemma RecordKeepsIdentity(p: Project, stage: Stage, refs: seq<ArtifactRef>, now: nat)
    requires Record(p, stage, refs, now).Some?
    ensures var q := Record(p, stage, refs, now).value;
            && q.id == p.id && q.title == p.title && q.workspace == p.workspace && q.user == p.user
            && q.createdAt == p.createdAt && q.revision == p.revision
  {
    hide RefsOf, CollectEvidence;
  }

  /** A project under its own id, next to what its file decodes to. */
  predicate Stored(id: string, p: Project, file: Project) {
    p.id == id && TrimSpace(id) == id && ValidProject(p) && file == Reload(p)
  }

  lemma StoredAgain(id: string, p: Project, file: Project)
    requires Stored(id, p, file)
    ensures Stored(id, file, file) && file.id == id && ValidProject(file) && file == Reload(p)
  {
  }

  const ATTEMPTS := 8

  /** The first id of the generator that is not taken, unless an unusable one comes before it or there is
      none among the first eight. */
  function FreeId(taken: set<string>, candidates: seq<string>, k: nat): (r: Option<string>)
    requires |candidates| >= ATTEMPTS
    ensures r.Some? <==>
              exists j | k <= j < ATTEMPTS ::
                ValidProjectId(TrimSpace(candidates[j])) && TrimSpace(candidates[j]) !in taken
                && forall i | k <= i < j :: ValidProjectId(TrimSpace(candidates[i])) && TrimSpace(candidates[i]) in taken
    decreases ATTEMPTS - k
  {
    if k >= ATTEMPTS then None
    else
      var candidate := TrimSpace(candidates[k]);
      if !ValidProjectId(candidate) then None
      else if candidate !in taken then Some(candidate)
      else FreeId(taken, candidates, k + 1)
  }

  lemma CreatedIsValid(id: string, title: string, workspace: string, user: string, now: nat)
    requires ValidProjectId(id) && TrimSpace(title) != "" && TrimSpace(workspace) != ""
    ensures ValidProject(Created(id, title, workspace, user, now)) <==> now != 0
  {
    TrimSpaceTrims(title);
    TrimSpaceTrims(TrimSpace(title));
    ShortCategoryIdempotent("");
    assert ShortCategory("") == "";
    hide ValidProjectId, TrimSpace, ShortCategory;
  }

  class FileProjectStore {
    const maxProjects: nat
    var byId: map<string, Project>
    var files: map<string, Project>

    ghost predicate Valid()
      reads this
    {
      && files.Keys == byId.Keys
      && |byId.Keys| <= maxProjects
      && forall id | id in byId :: Stored(id, byId[id], files[id])
    }

    constructor (maxProjects: nat)
      ensures Valid() && byId == map[] && this.maxProjects == maxProjects
    {
      this.maxProjects := maxProjects;
      byId, files := map[], map[];
    }

    /** Tries at most eight ids of the generator; an unusable one ends the search. */
    method GenerateId(candidates: seq<string>) returns (id: Option<string>)
      requires |candidates| >= ATTEMPTS
      ensures id == FreeId(byId.Keys, candidates, 0)
      ensures id.Some? ==> ValidProjectId(id.value) && TrimSpace(id.value) == id.value && id.value !in byId
    {
      hide ValidProjectId, TrimSpace;
      for attempt := 0 to ATTEMPTS
        invariant FreeId(byId.Keys, candidates, 0) == FreeId(byId.Keys, candidates, attempt)
      {
        var candidate := TrimSpace(candidates[attempt]);
        TrimSpaceTrims(candidates[attempt]);
        TrimSpaceTrims(candidate);
        if !ValidProjectId(candidate) {
          return None;
        }
        if candidate !in byId {
          return Some(candidate);
        }
      }
      return None;
    }

    /** Create writes revision 1 at the first stage; only title, workspace and user are the caller's. It
        succeeds whenever it can. */
    method Create(title: string, workspace: string, user: string, candidates: seq<string>, now: nat, io: bool)
      returns (r: Option<Project>)
      requires Valid() && |candidates| >= ATTEMPTS
      modifies this
      ensures Valid()
      ensures r.Some? <==>
                && TrimSpace(title) != "" && TrimSpace(workspace) != ""
                && |old(byId)| < maxProjects && FreeId(old(byId).Keys, candidates, 0).Some?
                && now != 0 && io
      ensures r.Some? ==>
                && r.value == Created(FreeId(old(byId).Keys, candidates, 0).value, title, workspace, user, now)
                && r.value.id !in old(byId)
                && byId == old(byId)[r.value.id := r.value] && files == old(files)[r.value.id := Reload(r.value)]
      ensures r.None? ==> byId == old(byId) && files == old(files)
    {
      hide TrimSpace, ValidProjectId, FreeId, ValidProject;
      if TrimSpace(title) == "" || TrimSpace(workspace) == "" || |byId| >= maxProjects {
        return None;
      }
      var id := GenerateId(candidates);
      if id.None? {
        return None;
      }
      var created := Created(id.value, title, workspace, user, now);
      CreatedIsValid(id.value, title, workspace, user, now);
      if !ValidProject(created) || !io {
        return None;
      }
      files := files[id.value := Reload(created)];
      byId := byId[id.value := created];
      return Some(created);
    }

    method Get(id: string, workspace: string, user: string) returns (r: Option<Project>)
      requires Valid()
      ensures r == if TrimSpace(id) in byId && VisibleTo(byId[TrimSpace(id)], workspace, user)
                   then Some(byId[TrimSpace(id)]) else None
      ensures r.Some? ==> r.value.workspace == workspace && (r.value.user != "" ==> r.value.user == user)
    {
      var trimmed := TrimSpace(id);
      if !ValidProjectId(trimmed) || trimmed !in byId || !VisibleTo(byId[trimmed], workspace, user) {
        return None;
      }
      return Some(byId[trimmed]);
    }

    /** The only commit point of project state: a compare-and-swap on the revision. A rejected save
        touches neither the directory nor the index. */
    method Save(project: Project, io: bool) returns (ok: bool)
      requires Valid()
      modifies this
      ensures Valid()
      ensures ok <==> project.id in old(byId) && SaveAllowed(old(byId)[project.id], project) && io
      ensures byId == if ok then old(byId)[project.id := project] else old(byId)
      ensures files == if ok then old(files)[project.id := Reload(project)] else old(files)
    {
      hide ValidProject, TrimSpace, VisibleTo, Reload;
      if !ValidProject(project) || project.id !in byId {
        return false;
      }
      var previous := byId[project.id];
      if !VisibleTo(previous, project.workspace, project.user) || !CanReplace(previous, project) || !io {
        return false;
      }
      files := files[project.id := Reload(project)];
      assert byId[project.id := project].Keys == byId.Keys;
      assert Stored(project.id, previous, old(files)[project.id]);
      byId := byId[project.id := project];
      return true;
    }

    /** loadExisting after a restart: the index is rebuilt from the directory and every project comes
        back as its file says. */
    method Restart()
      requires Valid()
      modifies this
      ensures Valid()
      ensures files == old(files)
      ensures byId == map id | id in old(byId) :: Reload(old(byId)[id])
    {
      hide Stored, ValidProject, TrimSpace, Reload;
      ghost var before := byId;
      byId := map[];
      var names := files.Keys;
      while names != {}
        invariant names <= files.Keys && files == old(files)
        invariant byId == map id | id in before && id !in names :: Reload(before[id])
        invariant forall id | id in byId :: Stored(id, byId[id], files[id])
        decreases names
      {
        var name :| name in names;
        var project := files[name];
        assert Stored(name, before[name], project);
        StoredAgain(name, before[name], project);
        if project.id == name && ValidProject(project) && project.id !in byId {
          byId := byId[project.id := project];
        }
        names := names - {name};
      }
      assert byId.Keys == before.Keys;
    }
  }
}

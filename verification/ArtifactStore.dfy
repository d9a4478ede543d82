/** The artifact store as the object that creates, renames and removes the files of one project. Each
    method is proved against the function of the same name in `Artifacts`. */
module ArtifactStore {
  import opened Common
  import opened Lifecycle
  import opened Paths
  import A = Artifacts

  /** Adds up the sizes of a directory walk. */
  method SumSizes<K(==)>(files: map<K, Bytes>) returns (total: nat)
    ensures total == A.Size(files)
  {
    total := 0;
    var rest := files;
    while rest != map[]
      invariant total + A.Size(rest) == A.Size(files)
      decreases |rest|
    {
      var k :| k in rest;
      A.SizeRemove(rest, k);
      total := total + |rest[k]|;
      rest := rest - {k};
    }
  }

  class FileArtifactStore {
    const project: string
    const home: Path
    const limits: A.Limits
    var files: map<Path, Bytes>
    var manifest: seq<ArtifactRef>

    function Tree(): A.Tree
      reads this
    {
      A.Tree(home, files, manifest)
    }

    ghost predicate Valid()
      reads this
    {
      A.StoreOk(Tree(), limits)
    }

    constructor (project: string, home: Path, limits: A.Limits)
      requires Proper(home)
      ensures Valid() && Tree() == A.Tree(home, map[], [])
      ensures this.project == project && this.limits == limits
    {
      this.project, this.home, this.limits := project, home, limits;
      files, manifest := map[], [];
      assert A.Below(map[], home) == map[];
    }

    method ProjectBytes() returns (total: nat)
      ensures total == A.Used(Tree())
    {
      total := SumSizes(A.Below(files, home));
    }

    /** The first phase: every name, stage, kind and size, and the references. */
    method CheckDrafts(drafts: seq<A.Draft>, now: nat) returns (ok: bool, refs: seq<ArtifactRef>, bytes: nat)
      ensures ok <==> drafts == [] || A.DraftsOk(drafts, limits)
      ensures ok ==> refs == A.RefsOfDrafts(drafts, now) && bytes == A.BodyBytes(drafts)
    {
      hide A.DraftOk, IdOf, IsDigest;
      refs, bytes := [], 0;
      var seen: set<(Stage, string)> := {};
      for i := 0 to |drafts|
        invariant refs == A.RefsOfDrafts(drafts[..i], now) && bytes == A.BodyBytes(drafts[..i])
        invariant seen == set k | 0 <= k < i :: (drafts[k].stage, drafts[k].name)
        invariant forall k | 0 <= k < i :: A.DraftOk(drafts[k], limits)
        invariant forall j, k | 0 <= j < k < i :: !A.SameFile(drafts[j], drafts[k])
      {
        var d := drafts[i];
        if !A.DraftOk(d, limits) || (d.stage, d.name) in seen {
          return false, refs, bytes;
        }
        seen := seen + {(d.stage, d.name)};
        assert drafts[..i + 1][..i] == drafts[..i];
        refs := refs + [A.RefOf(d, now)];
        bytes := bytes + |d.body|;
      }
      assert drafts[..|drafts|] == drafts;
      return true, refs, bytes;
    }

    method Stage(drafts: seq<A.Draft>, newId: string, now: nat, io: nat) returns (r: Option<A.Batch>)
      requires Valid()
      modifies this
      ensures Valid() && A.Keeps(old(Tree()), Tree())
      ensures (Tree(), r) == A.Stage(old(Tree()), project, drafts, newId, now, limits, io)
      ensures r.Some? ==> A.BatchIsContained(home, r.value)
    {
      hide A.StoreOk, A.Keeps, A.DraftOk, ValidName, TrimSpace, A.DirOf, A.Contained;
      A.StoreStepEffect(Tree(), project, A.OpStage(drafts, newId, now), limits, io);
      HomeIsProper();
      A.StagedIsContained(Tree(), project, drafts, newId, now, limits, io);
      if !ValidProjectId(project) || |drafts| == 0 {
        return None;
      }
      var ok, refs, bytes := CheckDrafts(drafts, now);
      var used := ProjectBytes();
      if !ok || used + bytes > limits.maxProject {
        return None;
      }
      var id := TrimSpace(newId);
      if !ValidName(id) {
        return None;
      }
      var dir := A.DirOf(home, id);
      for i := 0 to |drafts|
        invariant i <= io
        invariant Tree() == old(Tree()).(files := A.WriteDrafts(old(files), dir, drafts[..i]))
      {
        if i == io {
          return None;
        }
        assert drafts[..i + 1][..i] == drafts[..i];
        files := files[A.SourceOf(dir, drafts[i].stage, drafts[i].name) := drafts[i].body];
      }
      assert drafts[..|drafts|] == drafts;
      return Some(A.Batch(project, id, dir, refs));
    }

    lemma HomeIsProper()
      requires Valid()
      ensures Proper(home)
    {
    }

    /** On a handle that is not contained the tree is what the specification says, and no more. */
    method Commit(batch: A.Batch, io: nat) returns (ok: bool)
      requires Valid()
      modifies this
      ensures (Tree(), ok) == A.Commit(old(Tree()), project, batch, io)
      ensures A.Contained(home, batch.id) ==>
                Valid() && A.Keeps(old(Tree()), Tree()) && (ok ==> A.AllOpen(Tree(), batch.refs))
    {
      hide A.StoreOk, A.Keeps, A.DirOf, A.Contained, ValidRef, A.AllOpen, IsDigest;
      if A.Contained(home, batch.id) {
        A.StoreStepEffect(Tree(), project, A.OpCommit(batch), limits, io);
        A.CommitEffect(Tree(), project, batch, io);
      }
      if !A.BatchOk(home, project, batch) {
        return false;
      }
      var refs := batch.refs;
      assert refs[0..] == refs;
      for i := 0 to |refs|
        invariant i <= io
        invariant A.CommitRefs(old(Tree()), batch.dir, refs, io) == A.CommitRefs(Tree(), batch.dir, refs[i..], io - i)
        invariant manifest == old(manifest)
      {
        assert refs[i..][0] == refs[i] && refs[i..][1..] == refs[i + 1..];
        if i == io {
          return false;
        }
        var target, source := A.PathOf(home, refs[i]), A.SourceOf(batch.dir, refs[i].stage, refs[i].name);
        if target in files {
          if Sha256(files[target]) != refs[i].digest {
            return false;
          }
        } else {
          if source !in files || Sha256(files[source]) != refs[i].digest {
            return false;
          }
          files := (files - {source})[target := files[source]];
        }
      }
      if io < |refs| + 1 {
        return false;
      }
      manifest := manifest + refs;
      if io < |refs| + 2 {
        return false;
      }
      RemoveDirectory(batch.dir);
      return true;
    }

    method RemoveDirectory(dir: Path)
      modifies this
      ensures Tree() == A.RemoveAll(old(Tree()), dir)
    {
      files := map p | p in files && !(dir <= p) :: files[p];
      if dir <= home + [A.MANIFEST_FILE] {
        manifest := [];
      }
    }

    method Discard(batch: A.Batch, io: nat) returns (ok: bool)
      requires Valid()
      modifies this
      ensures (Tree(), ok) == A.Discard(old(Tree()), project, batch, io)
      ensures A.Contained(home, batch.id) ==> Valid() && A.Keeps(old(Tree()), Tree()) && manifest == old(manifest)
    {
      hide A.StoreOk, A.Keeps, A.DirOf, A.Contained, A.RemoveAll;
      if A.Contained(home, batch.id) {
        A.StoreStepEffect(Tree(), project, A.OpDiscard(batch), limits, io);
        A.ContainedIsStaged(home, batch.id);
      }
      if !A.BatchOk(home, project, batch) || io == 0 {
        return false;
      }
      if A.Contained(home, batch.id) {
        A.RemoveAllEffect(Tree(), batch.dir);
      }
      RemoveDirectory(batch.dir);
      return true;
    }
  }
}

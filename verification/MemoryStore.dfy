/** What the memory store keeps over every run of its operations, failed writes and restarts included, and
    the store object itself. */
module MemoryStore {
  import opened Common
  import opened MemoryText
  import opened MemoryItems
  import opened MemoryIndex
  import opened TextOrder
  import Sorting

  // ----- Opening

  lemma {:induction false} ListLength<V>(s: seq<string>, m: map<string, V>)
    requires Lists(s, m)
    ensures |s| == |m|
  {
    if s == [] {
      assert m.Keys == {};
      assert |m| == |m.Keys|;
    } else {
      var front := s[..|s| - 1];
      var last := s[|s| - 1];
      assert forall id :: id in s <==> id in front || id == last;
      ListLength(front, m - {last});
      assert (m - {last}).Keys == m.Keys - {last};
      assert |m - {last}| == |(m - {last}).Keys| && |m| == |m.Keys|;
    }
  }

  /** An index that is its own directory's: everything but the contents of the files. */
  ghost predicate Indexed(s: State, files: map<string, Option<Memory>>, names: seq<string>, maxBytes: nat) {
    && s.files == files && s.ordered == names
    && Lists(names, s.byId) && Inverse(s.byId, s.byHash) && GoodItems(s.byId, maxBytes)
  }

  lemma ReadItemIsGood(files: map<string, Option<Memory>>, name: string, maxBytes: nat)
    requires ReadItem(files, name, maxBytes).Some?
    ensures var item := ReadItem(files, name, maxBytes).value;
            item.id == name && ValidId(name) && Storable(item, maxBytes)
  {
    var file := files[name].value;
    NormalizedIsStorable(file, maxBytes, file.updatedAt, file.id, file.createdAt, file.lastUsedAt, file.useCount);
    hide KnownKind, ValidScope, Fingerprint, NormalizeText, Sanitize, ValidId, Storable;
    var n := NormalizeMemory(file, maxBytes, file.updatedAt).value;
    assert ReadItem(files, name, maxBytes).value
           == n.(id := file.id, createdAt := file.createdAt, lastUsedAt := file.lastUsedAt, useCount := file.useCount);
  }

  /** Whatever the directory holds, edited by hand or not, an index that could be loaded is consistent: no
      name and no fingerprint twice, and every item is in the form saving would have given it. */
  lemma {:induction false} LoadedIsIndexed(files: map<string, Option<Memory>>, names: seq<string>, maxBytes: nat)
    requires LoadNames(files, names, maxBytes).Some?
    ensures Indexed(LoadNames(files, names, maxBytes).value, files, names, maxBytes)
  {
    hide ReadItem, Storable, ValidId;
    if names != [] {
      var front := names[..|names| - 1];
      var last := names[|names| - 1];
      LoadedIsIndexed(files, front, maxBytes);
      ReadItemIsGood(files, last, maxBytes);
      var s := LoadNames(files, front, maxBytes).value;
      AddKeepsIndexed(s, files, front, ReadItem(files, last, maxBytes).value, maxBytes);
      assert names == front + [last];
    }
  }

  lemma AddKeepsIndexed(s: State, files: map<string, Option<Memory>>, names: seq<string>, item: Memory, maxBytes: nat)
    requires Indexed(s, files, names, maxBytes)
    requires item.id !in s.byId && item.fingerprint !in s.byHash && ValidId(item.id) && Storable(item, maxBytes)
    ensures Indexed(s.(byId := s.byId[item.id := item], byHash := s.byHash[item.fingerprint := item.id],
                       ordered := s.ordered + [item.id]), files, names + [item.id], maxBytes)
  {
    hide Storable, ValidId;
  }

  /** One file of a store in good order is read back as the item it was written for. */
  lemma ReadBack(s: State, id: string, limits: Limits)
    requires Agrees(s, limits) && id in s.byId
    ensures ReadItem(s.files, id, limits.maxBytes) == Some(s.byId[id])
  {
    GoodId(s, id, limits);
    hide Reread, ValidId;
    assert s.files[id] == Some(s.byId[id]);
  }

  lemma {:induction false} LoadNamesWorks(s: State, names: seq<string>, limits: Limits)
    requires Agrees(s, limits) && Distinct(names) && forall id | id in names :: id in s.byId
    ensures LoadNames(s.files, names, limits.maxBytes).Some?
    ensures forall id | id in LoadNames(s.files, names, limits.maxBytes).value.byId ::
              id in names && LoadNames(s.files, names, limits.maxBytes).value.byId[id] == s.byId[id]
  {
    hide ReadItem, Agrees;
    if names != [] {
      var front := names[..|names| - 1];
      var last := names[|names| - 1];
      LoadNamesWorks(s, front, limits);
      LoadedIsIndexed(s.files, front, limits.maxBytes);
      var t := LoadNames(s.files, front, limits.maxBytes).value;
      ReadBack(s, last, limits);
      GoodId(s, last, limits);
      if s.byId[last].fingerprint in t.byHash {
        FingerprintOwner(s, t, last, limits);
        assert false;
      }
    }
  }

  lemma FingerprintOwner(s: State, t: State, id: string, limits: Limits)
    requires Agrees(s, limits) && id in s.byId && Inverse(t.byId, t.byHash)
    requires forall k | k in t.byId :: k in s.byId && t.byId[k] == s.byId[k]
    requires s.byId[id].fingerprint in t.byHash
    ensures id in t.byId
  {
    hide GoodItems, Lists, Mirrors;
    var other := t.byHash[s.byId[id].fingerprint];
    assert s.byHash[s.byId[other].fingerprint] == other;
  }

  lemma InverseUnique(byId: map<string, Memory>, h1: map<string, string>, h2: map<string, string>)
    requires Inverse(byId, h1) && Inverse(byId, h2)
    ensures h1 == h2
  {
    assert forall h :: h in h1 <==> h in h2;
  }

  lemma SameItems(s: State, t: State, names: seq<string>)
    requires Lists(names, s.byId) && Lists(names, t.byId)
    requires forall id | id in t.byId :: id in s.byId && t.byId[id] == s.byId[id]
    requires Inverse(s.byId, s.byHash) && Inverse(t.byId, t.byHash) && t.files == s.files && t.ordered == names
    ensures t == s.(ordered := names)
  {
    hide Distinct;
    assert t.byId == s.byId;
    InverseUnique(s.byId, t.byHash, s.byHash);
  }

  lemma AsManyFiles(s: State, limits: Limits, names: seq<string>)
    requires Agrees(s, limits) && Lists(names, s.files)
    ensures |names| <= limits.maxItems && Lists(names, s.byId)
  {
    hide GoodItems, Inverse, Distinct;
    ListLength(names, s.files);
    assert |s.files| == |s.files.Keys| && |s.byId| == |s.byId.Keys|;
  }

  /** Reopening a store in good order, in whatever order the directory is read, rebuilds the same items and
      the same fingerprints. */
  lemma ReopenRebuilds(s: State, limits: Limits, names: seq<string>)
    requires Agrees(s, limits) && Lists(names, s.files)
    ensures Load(s.files, names, limits) == Some(s.(ordered := names))
  {
    hide LoadNames, GoodItems, Distinct, Inverse;
    AsManyFiles(s, limits, names);
    LoadNamesWorks(s, names, limits);
    LoadedIsIndexed(s.files, names, limits.maxBytes);
    SameItems(s, LoadNames(s.files, names, limits.maxBytes).value, names);
  }

  // ----- Runs

  /** One call. A process that stops between a write and the update of its index is a finished call followed
      by a restart, since a restart looks at the directory alone; one that stops inside a touch is a touch of
      fewer ids. */
  datatype Op =
    | OpSave(item: Memory, now: nat, newId: nat -> string, disk: bool)
    | OpDelete(id: string, scope: Scope, disk: bool)
    | OpTouch(ids: seq<string>, now: nat, writes: nat -> bool)
    | OpRestart(names: seq<string>)

  /** A restart reads the directory in some order; where loading fails no store comes up. */
  ghost function Step(s: State, limits: Limits, op: Op): Option<State> {
    match op
    case OpSave(item, now, newId, disk) => Some(Save(s, limits, item, now, newId, disk).0)
    case OpDelete(id, scope, disk) => Some(Delete(s, id, scope, disk).0)
    case OpTouch(ids, now, writes) => Some(Touch(s, ids, now, writes))
    case OpRestart(names) => if Lists(names, s.files) then Load(s.files, names, limits) else Some(s)
  }

  ghost function Run(s: State, limits: Limits, ops: seq<Op>): Option<State> {
    if ops == [] then Some(s)
    else
      match Run(s, limits, ops[..|ops| - 1])
      case None => None
      case Some(t) => Step(t, limits, ops[|ops| - 1])
  }

  lemma StepKeeps(s: State, limits: Limits, op: Op)
    requires Agrees(s, limits)
    ensures Step(s, limits, op).Some? && Agrees(Step(s, limits, op).value, limits)
  {
    hide Agrees, Save, Touch, Load, Put, Remove;
    match op
    case OpSave(item, now, newId, disk) => SaveKeeps(s, limits, item, now, newId, disk);
    case OpDelete(id, scope, disk) =>
      if MayDelete(s, TrimSpace(id), scope) {
        RemoveKeeps(s, TrimSpace(id), limits);
      }
    case OpTouch(ids, now, writes) => TouchKeeps(s, ids, now, writes, limits);
    case OpRestart(names) =>
      if Lists(names, s.files) {
        ReopenRebuilds(s, limits, names);
        Reordered(s, names, limits);
      }
  }

  lemma Reordered(s: State, names: seq<string>, limits: Limits)
    requires Agrees(s, limits) && Lists(names, s.files)
    ensures Agrees(s.(ordered := names), limits)
  {
    hide GoodItems, Inverse, Distinct;
  }

  const EMPTY := State(map[], map[], [], map[])

  /** After any sequence of saves, deletes and touches, with any writes failing and restarts anywhere, the
      three indexes and the directory agree, the store is within its size, and it comes up again. */
  lemma {:induction false} RunKeeps(limits: Limits, ops: seq<Op>)
    ensures Run(EMPTY, limits, ops).Some? && Agrees(Run(EMPTY, limits, ops).value, limits)
  {
    hide Step, Agrees;
    if ops == [] {
      EmptyAgrees(limits);
    } else {
      RunKeeps(limits, ops[..|ops| - 1]);
      StepKeeps(Run(EMPTY, limits, ops[..|ops| - 1]).value, limits, ops[|ops| - 1]);
    }
  }

  lemma EmptyAgrees(limits: Limits)
    ensures Agrees(EMPTY, limits)
  {
  }

  // ----- What one call means to the others

  /** A save by one scope leaves every item alone that this scope may not write. */
  lemma SaveTouchesOnlyOwn(s: State, limits: Limits, item: Memory, now: nat, newId: nat -> string, disk: bool,
                           other: string)
    requires Agrees(s, limits) && other in s.byId && !WritableBy(s.byId[other].scope, item.scope)
    ensures var t := Save(s, limits, item, now, newId, disk).0;
            other in t.byId && t.byId[other] == s.byId[other]
  {
    hide Save, WritableBy, NormalizeMemory, Agrees, ValidId;
    SaveWrote(s, limits, item, now, newId, disk);
  }

  /** So does a delete. */
  lemma DeleteTouchesOnlyOwn(s: State, id: string, scope: Scope, disk: bool, other: string)
    requires other in s.byId && !WritableBy(s.byId[other].scope, scope)
    ensures var t := Delete(s, id, scope, disk).0;
            other in t.byId && t.byId[other] == s.byId[other]
  {
    hide WritableBy, TrimSpace;
  }

  /** What was forgotten stays forgotten over every restart. */
  lemma DeletedStaysDeleted(s: State, limits: Limits, id: string, scope: Scope, names: seq<string>)
    requires Agrees(s, limits) && Delete(s, id, scope, true).1
    requires Lists(names, Delete(s, id, scope, true).0.files)
    ensures var t := Load(Delete(s, id, scope, true).0.files, names, limits);
            t.Some? && forall workspace, user :: Get(t.value, id, workspace, user).None?
  {
    var t := Delete(s, id, scope, true).0;
    RemoveKeeps(s, TrimSpace(id), limits);
    ReopenRebuilds(t, limits, names);
    hide Agrees, Load, Lists;
  }

  /** The fact just saved is found again, before and after a restart, by whoever may see its scope. */
  lemma SavedIsFound(s: State, limits: Limits, item: Memory, now: nat, newId: nat -> string, disk: bool,
                     names: seq<string>, workspace: string, user: string)
    requires Agrees(s, limits)
    requires var (t, r) := Save(s, limits, item, now, newId, disk);
             r.Saved? && Lists(names, t.files) && VisibleTo(item.scope, workspace, user)
    ensures var (t, r) := Save(s, limits, item, now, newId, disk);
            && Get(t, r.item.id, workspace, user) == Some(r.item)
            && Load(t.files, names, limits).Some?
            && Get(Load(t.files, names, limits).value, r.item.id, workspace, user) == Some(r.item)
  {
    var (t, r) := Save(s, limits, item, now, newId, disk);
    SaveWrote(s, limits, item, now, newId, disk);
    SaveKeeps(s, limits, item, now, newId, disk);
    ReopenRebuilds(t, limits, names);
    NormalizeKeepsScope(item, limits.maxBytes, now);
    IdIsTrimmed(r.item.id);
    hide Agrees, Load, Lists, Save, NormalizeMemory, ValidId, TrimSpace, VisibleTo;
  }

  lemma NormalizeKeepsScope(item: Memory, maxBytes: nat, now: nat)
    requires NormalizeMemory(item, maxBytes, now).Some?
    ensures var n := NormalizeMemory(item, maxBytes, now).value; n.scope == item.scope && n.kind == item.kind
  {
    hide KnownKind, ValidScope, Fingerprint, NormalizeText, Sanitize;
  }

  lemma IdIsTrimmed(id: string)
    requires ValidId(id)
    ensures TrimSpace(id) == id
  {
    TrimSpaceTrims(id);
  }

  /** Creating a fact that is already there, in other spacing or case, gives back the item that has it and
      changes nothing. */
  lemma SavingAgainIsDuplicate(s: State, limits: Limits, first: Memory, again: Memory, now: nat, later: nat,
                               newId: nat -> string, disk: bool, id: string)
    requires Agrees(s, limits)
    requires NormalizeMemory(first, limits.maxBytes, now).Some? && NormalizeMemory(again, limits.maxBytes, later).Some?
    requires id in s.byId && s.byId[id].fingerprint == NormalizeMemory(first, limits.maxBytes, now).value.fingerprint
    requires first.scope == again.scope && first.kind == again.kind && TrimSpace(again.id) == ""
    requires ToLower(NormalizeText(first.content)) == ToLower(NormalizeText(again.content))
    ensures Save(s, limits, again, later, newId, disk) == (s, Duplicate(s.byId[id]))
  {
    SameFactSameFingerprint(first, again, limits.maxBytes, now, later);
    GoodId(s, id, limits);
    hide Agrees, NormalizeMemory, TrimSpace, GenerateId, Put;
  }

  lemma StoredIdentity(item: Memory, maxBytes: nat)
    requires Storable(item, maxBytes)
    ensures item.fingerprint == Fingerprint(item.scope, item.kind, item.content)
    ensures KnownKind(item.kind) && KnownVisibility(item.scope.visibility)
  {
    hide KnownKind, Fingerprint, NormalizeText, KnownVisibility, TrimSpace;
  }

  /** The item a duplicate is answered with is the caller's own fact: same scope, same kind, same folded
      content. One user's save can hand out another's item only through a collision of the hash or an id
      with a NUL in it. */
  lemma DuplicateIsTheSameFact(s: State, limits: Limits, item: Memory, now: nat, newId: nat -> string, disk: bool)
    requires Agrees(s, limits) && Save(s, limits, item, now, newId, disk).1.Duplicate?
    requires var e := Save(s, limits, item, now, newId, disk).1.existing;
             && NulFree(e.scope) && NulFree(item.scope)
             && var a, b := FingerprintText(e.scope, e.kind, e.content),
                            FingerprintText(item.scope, item.kind, NormalizeText(item.content));
                HashText(a) == HashText(b) ==> a == b
    ensures var e := Save(s, limits, item, now, newId, disk).1.existing;
            && e.id in s.byId && s.byId[e.id] == e
            && e.scope == item.scope && e.kind == item.kind
            && ToLower(NormalizeText(e.content)) == ToLower(NormalizeText(item.content))
  {
    var e := Save(s, limits, item, now, newId, disk).1.existing;
    DuplicateHasFingerprint(s, limits, item, now, newId, disk);
    GoodId(s, e.id, limits);
    StoredIdentity(e, limits.maxBytes);
    NormalizedIdentity(item, limits.maxBytes, now);
    NormalizeIdempotent(item.content);
    FingerprintTextInjective(e.scope, e.kind, e.content, item.scope, item.kind, NormalizeText(item.content)) by {
      hide Save, FingerprintText, NormalizeText;
    }
    hide Save, FingerprintText, NormalizeText, ToLower, Agrees, NulFree;
  }

  lemma NormalizedIdentity(item: Memory, maxBytes: nat, now: nat)
    requires NormalizeMemory(item, maxBytes, now).Some?
    ensures NormalizeMemory(item, maxBytes, now).value.fingerprint
            == Fingerprint(item.scope, item.kind, NormalizeText(item.content))
    ensures KnownKind(item.kind) && KnownVisibility(item.scope.visibility)
  {
    hide KnownKind, Fingerprint, NormalizeText, KnownVisibility, TrimSpace;
  }

  lemma DuplicateHasFingerprint(s: State, limits: Limits, item: Memory, now: nat, newId: nat -> string, disk: bool)
    requires Agrees(s, limits) && Save(s, limits, item, now, newId, disk).1.Duplicate?
    ensures NormalizeMemory(item, limits.maxBytes, now).Some?
    ensures var e := Save(s, limits, item, now, newId, disk).1.existing;
            && e.id in s.byId && s.byId[e.id] == e
            && e.fingerprint == NormalizeMemory(item, limits.maxBytes, now).value.fingerprint
  {
    hide NormalizeMemory, TrimSpace, Put, GenerateId, WritableBy, Storable, ValidId;
  }

  /** The item keeps its history. */
  predicate Continues(item: Memory, previous: Memory) {
    && item.id == previous.id && item.createdAt == previous.createdAt
    && item.useCount == previous.useCount && item.lastUsedAt == previous.lastUsedAt
  }

  lemma SaveNewHistory(s: State, limits: Limits, n: Memory, newId: nat -> string, disk: bool)
    requires SaveNew(s, limits, n, newId, disk).1.Saved?
    ensures var (t, r) := SaveNew(s, limits, n, newId, disk);
            t == Put(s, r.item) && r.item.id !in s.byId && r.item == n.(id := r.item.id)
  {
    hide Put, GenerateId, ValidId;
  }

  lemma SaveOverHistory(s: State, limits: Limits, id: string, scope: Scope, n: Memory, disk: bool)
    requires GoodItems(s.byId, limits.maxBytes) && SaveOver(s, id, scope, n, disk).1.Saved?
    ensures var (t, r) := SaveOver(s, id, scope, n, disk);
            && t == Put(s, r.item) && id in s.byId && Continues(r.item, s.byId[id]) && r.item.id == id
            && r.item.content == n.content && r.item.updatedAt == n.updatedAt
  {
    hide Put, ValidId, Storable, WritableBy;
  }

  lemma PutFrame(s: State, item: Memory)
    ensures Put(s, item).byId == s.byId[item.id := item]
  {
  }

  /** A successful save changes one item only; an update keeps what that item has lived through. */
  lemma UpdateKeepsHistory(s: State, limits: Limits, item: Memory, now: nat, newId: nat -> string, disk: bool)
    requires Agrees(s, limits) && Save(s, limits, item, now, newId, disk).1.Saved?
    ensures var (t, r) := Save(s, limits, item, now, newId, disk);
            && t.byId == s.byId[r.item.id := r.item]
            && r.item.updatedAt == now && Some(r.item.content) == Sanitize(item.content, limits.maxBytes)
            && (if TrimSpace(item.id) == "" then r.item.id !in s.byId
                else r.item.id == TrimSpace(item.id) && r.item.id in s.byId && Continues(r.item, s.byId[r.item.id]))
  {
    hide NormalizeMemory, TrimSpace, SaveNew, SaveOver, Put, Sanitize, Continues;
    NormalizedContent(item, limits.maxBytes, now);
    var n := NormalizeMemory(item, limits.maxBytes, now).value;
    if TrimSpace(item.id) == "" {
      SaveNewHistory(s, limits, n, newId, disk);
    } else {
      SaveOverHistory(s, limits, TrimSpace(item.id), item.scope, n, disk);
    }
    PutFrame(s, Save(s, limits, item, now, newId, disk).1.item);
  }

  lemma NormalizedContent(item: Memory, maxBytes: nat, now: nat)
    ensures var n := NormalizeMemory(item, maxBytes, now);
            n.Some? ==> n.value.updatedAt == now && Some(n.value.content) == Sanitize(item.content, maxBytes)
  {
    hide Sanitize, NormalizeText, KnownKind, ValidScope, Fingerprint;
  }

  /** How often a touch counted an item: once for each listed id whose write worked. */
  function Touches(ids: seq<string>, writes: nat -> bool, id: string): nat {
    if ids == [] then 0
    else
      var n := |ids| - 1;
      Touches(ids[..n], writes, id) + if TrimSpace(ids[n]) == id && writes(n) then 1 else 0
  }

  function Counted(item: Memory, n: nat, now: nat): Memory {
    if n == 0 then item else item.(useCount := (item.useCount + n) % U64_MODULUS, lastUsedAt := now)
  }

  lemma TouchOneCounts(s: State, raw: string, now: nat, disk: bool, limits: Limits, id: string)
    requires Agrees(s, limits) && id in s.byId
    ensures var t := TouchOne(s, raw, now, disk);
            id in t.byId && t.byId[id] == if TrimSpace(raw) == id && disk then Used(s.byId[id], now) else s.byId[id]
  {
    hide Agrees, TrimSpace, Used, Put;
    var key := TrimSpace(raw);
    if key in s.byId {
      GoodId(s, key, limits);
      UsedKeeps(s.byId[key], now);
      PutFrame(s, Used(s.byId[key], now));
    }
  }

  /** A touch of any ids changes nothing about an item but its count, by the number of its writes, and its
      stamp. */
  lemma {:induction false} TouchCounts(s: State, ids: seq<string>, now: nat, writes: nat -> bool, limits: Limits,
                                       id: string)
    requires Agrees(s, limits) && id in s.byId
    ensures var t := Touch(s, ids, now, writes);
            id in t.byId && t.byId[id] == Counted(s.byId[id], Touches(ids, writes, id), now)
  {
    hide Agrees, TrimSpace, TouchOne, Counted, Used;
    CountedOnce(s.byId[id], Touches(ids, writes, id), now);
    if ids != [] {
      var n := |ids| - 1;
      TouchCounts(s, ids[..n], now, writes, limits, id);
      TouchKeeps(s, ids[..n], now, writes, limits);
      TouchOneCounts(Touch(s, ids[..n], now, writes), ids[n], now, writes(n), limits, id);
      CountedOnce(s.byId[id], Touches(ids[..n], writes, id), now);
    }
  }

  lemma CountedOnce(item: Memory, n: nat, now: nat)
    ensures Used(Counted(item, n, now), now) == Counted(item, n + 1, now)
    ensures Counted(item, 0, now) == item
  {
  }

  // ----- The store object

  lemma {:induction false} WithoutFirst(s: seq<string>, id: string, i: nat)
    requires i < |s| && s[i] == id && id !in s[..i]
    ensures Without(s, id) == s[..i] + s[i + 1..]
  {
    if i > 0 {
      assert s[0] == s[..i][0] && s[1..][..i - 1] == s[..i][1..];
      WithoutFirst(s[1..], id, i - 1);
    }
  }

  lemma {:induction false} WithoutAbsent(s: seq<string>, id: string)
    requires id !in s
    ensures Without(s, id) == s
  {
    if s != [] {
      WithoutAbsent(s[1..], id);
    }
  }

  predicate NameLe(a: string, b: string) {
    TextLe(a + ".json", b + ".json")
  }

  lemma NameOrder()
    ensures Sorting.TotalPreorder(NameLe)
  {
    forall a, b ensures NameLe(a, b) || NameLe(b, a) {
      TextLeTotal(a + ".json", b + ".json");
    }
    forall a, b, c | NameLe(a, b) && NameLe(b, c) ensures NameLe(a, c) {
      TextLeTransitive(a + ".json", b + ".json", c + ".json");
    }
  }

  class FileStore {
    const limits: Limits
    var byId: map<string, Memory>
    var byHash: map<string, string>
    var ordered: seq<string>
    var files: map<string, Option<Memory>>

    function Value(): State
      reads this
    {
      State(byId, byHash, ordered, files)
    }

    ghost predicate Valid()
      reads this
    {
      Agrees(Value(), limits)
    }

    constructor (limits: Limits, files: map<string, Option<Memory>>)
      ensures this.limits == limits && Value() == State(map[], map[], [], files)
    {
      this.limits := limits;
      this.files := files;
      byId, byHash, ordered := map[], map[], [];
    }

    /** `entries` is what reading the directory lists. */
    method LoadExisting(entries: seq<string>) returns (ok: bool, ghost names: seq<string>)
      requires byId == map[] && byHash == map[] && ordered == []
      modifies this
      ensures files == old(files) && Sorting.IsSorting(names, entries, NameLe)
      ensures ok <==> Load(files, names, limits).Some?
      ensures ok ==> Load(files, names, limits) == Some(Value())
    {
      hide ReadItem;
      NameOrder();
      var sorted := Sorting.Sort(entries, NameLe);
      names := sorted;
      if |sorted| > limits.maxItems {
        return false, names;
      }
      for i := 0 to |sorted|
        invariant files == old(files)
        invariant LoadNames(files, sorted[..i], limits.maxBytes) == Some(Value())
      {
        var item := ReadItem(files, sorted[i], limits.maxBytes);
        assert sorted[..i + 1][..i] == sorted[..i];
        if item.None? || item.value.id in byId || item.value.fingerprint in byHash {
          StopsHere(files, sorted, i + 1, limits.maxBytes);
          return false, names;
        }
        byId := byId[item.value.id := item.value];
        byHash := byHash[item.value.fingerprint := item.value.id];
        ordered := ordered + [item.value.id];
      }
      assert sorted[..|sorted|] == sorted;
      return true, names;
    }

    method MakeId(newId: nat -> string) returns (id: Option<string>)
      ensures id == GenerateId(byId, newId, 0)
    {
      for attempt := 0 to ATTEMPTS
        invariant GenerateId(byId, newId, 0) == GenerateId(byId, newId, attempt)
      {
        var candidate := TrimSpace(newId(attempt));
        if !ValidId(candidate) {
          return None;
        }
        if candidate !in byId {
          return Some(candidate);
        }
      }
      return None;
    }

    /** writeItem: the file is replaced in one step or not at all. */
    method WriteItem(item: Memory, disk: bool) returns (ok: bool)
      modifies `files
      ensures ok == disk && files == if disk then old(files)[item.id := Some(item)] else old(files)
    {
      if disk {
        files := files[item.id := Some(item)];
      }
      return disk;
    }

    method SaveItem(item: Memory, now: nat, newId: nat -> string, disk: bool) returns (r: SaveResult)
      requires Valid()
      modifies this
      ensures Valid() && (Value(), r) == Save(old(Value()), limits, item, now, newId, disk)
    {
      hide NormalizeMemory, Agrees, TrimSpace, GenerateId, WritableBy;
      ghost var before := Value();
      SaveKeeps(before, limits, item, now, newId, disk);
      var requested := TrimSpace(item.id);
      var gate := NormalizeMemory(item, limits.maxBytes, now);
      if gate.None? {
        return Refused;
      }
      var normalized := gate.value;
      if requested == "" {
        if normalized.fingerprint in byHash {
          return Duplicate(ItemAt(byId, byHash[normalized.fingerprint]));
        }
        if |byId| >= limits.maxItems {
          return Refused;
        }
        var id := MakeId(newId);
        if id.None? {
          return Refused;
        }
        normalized := normalized.(id := id.value);
      } else {
        if requested !in byId || !WritableBy(byId[requested].scope, item.scope) {
          return NotFound;
        }
        var previous := byId[requested];
        if normalized.fingerprint in byHash && byHash[normalized.fingerprint] != requested {
          return Duplicate(ItemAt(byId, byHash[normalized.fingerprint]));
        }
        normalized := normalized.(id := requested, createdAt := previous.createdAt);
        normalized := normalized.(useCount := previous.useCount, lastUsedAt := previous.lastUsedAt);
        byHash := byHash - {previous.fingerprint};
      }
      var ok := WriteItem(normalized, disk);
      if !ok {
        if requested != "" && requested in byId {
          GoodId(before, requested, limits);
          byHash := byHash[byId[requested].fingerprint := byId[requested].id];
          assert byHash == before.byHash;
        }
        return Refused;
      }
      if requested == "" {
        ordered := ordered + [normalized.id];
      }
      byId := byId[normalized.id := normalized];
      byHash := byHash[normalized.fingerprint := normalized.id];
      return Saved(normalized);
    }

    method RemoveId(id: string) returns (rest: seq<string>)
      ensures rest == Without(ordered, id)
    {
      for i := 0 to |ordered|
        invariant id !in ordered[..i]
      {
        if ordered[i] == id {
          WithoutFirst(ordered, id, i);
          return ordered[..i] + ordered[i + 1..];
        }
      }
      WithoutAbsent(ordered, id);
      return ordered;
    }

    method DeleteItem(raw: string, scope: Scope, disk: bool) returns (ok: bool)
      requires Valid()
      modifies this
      ensures Valid() && (Value(), ok) == Delete(old(Value()), raw, scope, disk)
    {
      hide Agrees, TrimSpace, Without, ValidId, WritableBy;
      var trimmed := TrimSpace(raw);
      if !ValidId(trimmed) || trimmed !in byId || !WritableBy(byId[trimmed].scope, scope) || !disk {
        return false;
      }
      RemoveKeeps(Value(), trimmed, limits);
      var item := byId[trimmed];
      files := files - {trimmed};
      byId := byId - {trimmed};
      byHash := byHash - {item.fingerprint};
      ordered := RemoveId(trimmed);
      return true;
    }

    method TouchItem(raw: string, now: nat, disk: bool) returns (ok: bool)
      requires Valid()
      modifies this
      ensures Valid() && Value() == TouchOne(old(Value()), raw, now, disk)
      ensures byId.Keys == old(byId.Keys) && (ok <==> (TrimSpace(raw) in byId ==> disk))
    {
      hide Agrees, TrimSpace, Used;
      ghost var s := Value();
      TouchOneKeeps(s, raw, now, disk, limits);
      var id := TrimSpace(raw);
      if id !in byId {
        return true;
      }
      var item := Used(byId[id], now);
      GoodId(s, id, limits);
      UsedKeeps(byId[id], now);
      ok := WriteItem(item, disk);
      if ok {
        byId := byId[item.id := item];
        assert byHash == (byHash - {item.fingerprint})[item.fingerprint := item.id];
        assert byId.Keys == s.byId.Keys;
      }
    }

    method TouchItems(ids: seq<string>, now: nat, writes: nat -> bool) returns (ok: bool)
      requires Valid()
      modifies this
      ensures Valid() && Value() == Touch(old(Value()), ids, now, writes)
      ensures ok <==> forall k | 0 <= k < |ids| && TrimSpace(ids[k]) in old(byId) :: writes(k)
    {
      hide Agrees, TrimSpace, TouchOne;
      ok := true;
      for k := 0 to |ids|
        invariant Valid() && Value() == Touch(old(Value()), ids[..k], now, writes)
        invariant byId.Keys == old(byId.Keys)
        invariant ok <==> forall j | 0 <= j < k && TrimSpace(ids[j]) in old(byId) :: writes(j)
      {
        assert ids[..k + 1][..k] == ids[..k];
        var written := TouchItem(ids[k], now, writes(k));
        if !written {
          ok := false;
        }
      }
      assert ids[..|ids|] == ids;
    }

    method GetItem(raw: string, workspace: string, user: string) returns (r: Option<Memory>)
      ensures r == Get(Value(), raw, workspace, user)
    {
      var id := TrimSpace(raw);
      if !ValidId(id) || id !in byId || !VisibleTo(byId[id].scope, workspace, user) {
        return None;
      }
      return Some(byId[id]);
    }
  }

  lemma {:induction false} StopsHere(files: map<string, Option<Memory>>, names: seq<string>, n: nat, maxBytes: nat)
    requires n <= |names| && LoadNames(files, names[..n], maxBytes).None?
    ensures LoadNames(files, names, maxBytes).None?
  {
    if n < |names| {
      assert names[..|names| - 1][..n] == names[..n];
      StopsHere(files, names[..|names| - 1], n, maxBytes);
    } else {
      assert names[..n] == names;
    }
  }
}

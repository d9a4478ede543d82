/** The memory store as a value: three indexes over the items and the directory they mirror. A write or
    a removal on disk works (`disk`) or leaves everything as it was. */
module MemoryIndex {
  import opened Common
  import opened MemoryText
  import opened MemoryItems

  datatype Limits = Limits(maxItems: nat, maxBytes: nat)

  /** `files` are the entries of the directory that end in ".json", by the name before the suffix; None is
      a file that cannot be read or decoded. */
  datatype State = State(
    byId: map<string, Memory>, byHash: map<string, string>, ordered: seq<string>, files: map<string, Option<Memory>>)

  datatype SaveResult = Saved(item: Memory) | Duplicate(existing: Memory) | NotFound | Refused

  predicate IdChar(c: char) {
    IsLetter(c) || IsDecimal(c) || c == '_' || c == '-'
  }

  predicate ValidId(id: string) {
    1 <= |id| <= 64 && forall i | 0 <= i < |id| :: IdChar(id[i])
  }

  /** A Go map read: the zero value where there is no entry. */
  function ItemAt(byId: map<string, Memory>, id: string): Memory {
    if id in byId then byId[id] else ZERO_MEMORY
  }

  // ----- The invariant

  /** A duplicate-free listing of the keys. */
  ghost predicate Lists<V>(s: seq<string>, m: map<string, V>) {
    Distinct(s) && forall id :: id in s <==> id in m
  }

  /** byHash is exactly the inverse of the fingerprints of byId. */
  ghost predicate Inverse(byId: map<string, Memory>, byHash: map<string, string>) {
    && (forall id | id in byId :: byId[id].fingerprint in byHash && byHash[byId[id].fingerprint] == id)
    && (forall h | h in byHash :: byHash[h] in byId && byId[byHash[h]].fingerprint == h)
  }

  /** The directory holds exactly the items of byId. */
  ghost predicate Mirrors(files: map<string, Option<Memory>>, byId: map<string, Memory>) {
    && files.Keys == byId.Keys
    && forall id | id in files :: files[id] == Some(byId[id])
  }

  ghost predicate GoodItems(byId: map<string, Memory>, maxBytes: nat) {
    forall id | id in byId :: byId[id].id == id && ValidId(id) && Storable(byId[id], maxBytes)
  }

  ghost predicate Agrees(s: State, limits: Limits) {
    && Lists(s.ordered, s.byId)
    && Inverse(s.byId, s.byHash)
    && Mirrors(s.files, s.byId)
    && GoodItems(s.byId, limits.maxBytes)
    && |s.byId| <= limits.maxItems
  }

  // ----- Save

  const ATTEMPTS := 8

  /** `newId(k)` is what the generator returns on its k-th call. */
  function GenerateId(byId: map<string, Memory>, newId: nat -> string, attempt: nat): (r: Option<string>)
    ensures r.Some? ==> ValidId(r.value) && r.value !in byId
    decreases ATTEMPTS - attempt
  {
    if attempt >= ATTEMPTS then None
    else
      var candidate := TrimSpace(newId(attempt));
      if !ValidId(candidate) then None
      else if candidate !in byId then Some(candidate)
      else GenerateId(byId, newId, attempt + 1)
  }

  /** The state after the item was written under its id. */
  function Put(s: State, item: Memory): State {
    var freed := if item.id in s.byId then s.byHash - {s.byId[item.id].fingerprint} else s.byHash;
    State(s.byId[item.id := item],
          freed[item.fingerprint := item.id],
          if item.id in s.byId then s.ordered else s.ordered + [item.id],
          s.files[item.id := Some(item)])
  }

  function SaveNew(s: State, limits: Limits, n: Memory, newId: nat -> string, disk: bool): (State, SaveResult) {
    if n.fingerprint in s.byHash then (s, Duplicate(ItemAt(s.byId, s.byHash[n.fingerprint])))
    else if |s.byId| >= limits.maxItems then (s, Refused)
    else
      match GenerateId(s.byId, newId, 0)
      case None => (s, Refused)
      case Some(id) =>
        var item := n.(id := id);
        if disk then (Put(s, item), Saved(item)) else (s, Refused)
  }

  function SaveOver(s: State, id: string, scope: Scope, n: Memory, disk: bool): (State, SaveResult) {
    if id !in s.byId || !WritableBy(s.byId[id].scope, scope) then (s, NotFound)
    else if n.fingerprint in s.byHash && s.byHash[n.fingerprint] != id then
      (s, Duplicate(ItemAt(s.byId, s.byHash[n.fingerprint])))
    else
      var previous := s.byId[id];
      var item := n.(id := id, createdAt := previous.createdAt, useCount := previous.useCount,
                     lastUsedAt := previous.lastUsedAt);
      if disk then (Put(s, item), Saved(item)) else (s, Refused)
  }

  /** Save: an empty id creates, a present one updates in place. */
  function Save(s: State, limits: Limits, item: Memory, now: nat, newId: nat -> string, disk: bool)
    : (State, SaveResult)
  {
    match NormalizeMemory(item, limits.maxBytes, now)
    case None => (s, Refused)
    case Some(n) =>
      if TrimSpace(item.id) == "" then SaveNew(s, limits, n, newId, disk)
      else SaveOver(s, TrimSpace(item.id), item.scope, n, disk)
  }

  // ----- Delete, Touch, Get

  function Without(s: seq<string>, id: string): seq<string> {
    if s == [] then [] else if s[0] == id then s[1..] else [s[0]] + Without(s[1..], id)
  }

  function Remove(s: State, id: string): State
    requires id in s.byId
  {
    State(s.byId - {id}, s.byHash - {s.byId[id].fingerprint}, Without(s.ordered, id), s.files - {id})
  }

  predicate MayDelete(s: State, id: string, scope: Scope) {
    ValidId(id) && id in s.byId && WritableBy(s.byId[id].scope, scope)
  }

  function Delete(s: State, raw: string, scope: Scope, disk: bool): (State, bool) {
    var id := TrimSpace(raw);
    if MayDelete(s, id, scope) && disk then (Remove(s, id), true) else (s, false)
  }

  const U64_MODULUS := 0x1_0000_0000_0000_0000

  function Used(item: Memory, now: nat): Memory {
    item.(useCount := (item.useCount + 1) % U64_MODULUS, lastUsedAt := now)
  }

  function TouchOne(s: State, raw: string, now: nat, disk: bool): State {
    var id := TrimSpace(raw);
    if id in s.byId && disk then Put(s, Used(s.byId[id], now)) else s
  }

  /** `disk(k)` tells whether the write for the k-th id works. */
  function Touch(s: State, ids: seq<string>, now: nat, disk: nat -> bool): State {
    if ids == [] then s
    else
      var n := |ids| - 1;
      TouchOne(Touch(s, ids[..n], now, disk), ids[n], now, disk(n))
  }

  function Get(s: State, raw: string, workspace: string, user: string): Option<Memory> {
    var id := TrimSpace(raw);
    if ValidId(id) && id in s.byId && VisibleTo(s.byId[id].scope, workspace, user) then Some(s.byId[id]) else None
  }

  // ----- Opening an existing directory

  /** readItem: the item a file stands for. */
  function ReadItem(files: map<string, Option<Memory>>, name: string, maxBytes: nat): Option<Memory> {
    if name in files && files[name].Some? && files[name].value.id == name && ValidId(name) then
      Reread(files[name].value, maxBytes)
    else None
  }

  /** The index of the files read so far, in the order of the names. */
  function LoadNames(files: map<string, Option<Memory>>, names: seq<string>, maxBytes: nat): Option<State> {
    if names == [] then Some(State(map[], map[], [], files))
    else
      match LoadNames(files, names[..|names| - 1], maxBytes)
      case None => None
      case Some(s) =>
        match ReadItem(files, names[|names| - 1], maxBytes)
        case None => None
        case Some(item) =>
          if item.id in s.byId || item.fingerprint in s.byHash then None
          else Some(s.(byId := s.byId[item.id := item],
                       byHash := s.byHash[item.fingerprint := item.id],
                       ordered := s.ordered + [item.id]))
  }

  function Load(files: map<string, Option<Memory>>, names: seq<string>, limits: Limits): Option<State> {
    if |names| > limits.maxItems then None else LoadNames(files, names, limits.maxBytes)
  }

  // ----- Every step keeps the invariant

  lemma PutKeepsInverse(s: State, item: Memory)
    requires Inverse(s.byId, s.byHash)
    requires item.fingerprint in s.byHash ==> s.byHash[item.fingerprint] == item.id
    ensures Inverse(Put(s, item).byId, Put(s, item).byHash)
  {
    var t := Put(s, item);
    forall id | id in t.byId
      ensures t.byId[id].fingerprint in t.byHash && t.byHash[t.byId[id].fingerprint] == id
    {
      if id != item.id {
        assert s.byHash[s.byId[id].fingerprint] == id;
      }
    }
  }

  lemma PutKeepsListing(s: State, item: Memory)
    requires Lists(s.ordered, s.byId) && Mirrors(s.files, s.byId)
    ensures Lists(Put(s, item).ordered, Put(s, item).byId) && Mirrors(Put(s, item).files, Put(s, item).byId)
  {
    var t := Put(s, item);
    assert t.byId.Keys == s.byId.Keys + {item.id} && t.files.Keys == s.files.Keys + {item.id};
    assert forall id :: id in t.byId <==> id in s.byId || id == item.id;
  }

  lemma PutKeepsItems(byId: map<string, Memory>, item: Memory, limits: Limits)
    requires GoodItems(byId, limits.maxBytes) && |byId| <= limits.maxItems
    requires ValidId(item.id) && Storable(item, limits.maxBytes)
    requires item.id in byId || |byId| < limits.maxItems
    ensures GoodItems(byId[item.id := item], limits.maxBytes) && |byId[item.id := item]| <= limits.maxItems
  {
    hide Storable, ValidId;
    if item.id in byId {
      assert byId[item.id := item].Keys == byId.Keys;
      assert |byId[item.id := item]| == |byId[item.id := item].Keys| && |byId| == |byId.Keys|;
    }
  }

  lemma PutKeeps(s: State, item: Memory, limits: Limits)
    requires Agrees(s, limits) && ValidId(item.id) && Storable(item, limits.maxBytes)
    requires item.fingerprint in s.byHash ==> s.byHash[item.fingerprint] == item.id
    requires item.id in s.byId || |s.byId| < limits.maxItems
    ensures Agrees(Put(s, item), limits)
  {
    PutKeepsInverse(s, item);
    PutKeepsListing(s, item);
    PutKeepsItems(s.byId, item, limits);
    hide Storable, ValidId, Inverse, Lists, Mirrors, GoodItems;
  }

  lemma {:induction false} WithoutLists(s: seq<string>, id: string)
    requires Distinct(s)
    ensures Distinct(Without(s, id)) && forall x :: x in Without(s, id) <==> x in s && x != id
  {
    if s == [] {
    } else if s[0] == id {
      assert forall x :: x in s <==> x == s[0] || x in s[1..];
    } else {
      WithoutLists(s[1..], id);
      assert forall x :: x in s <==> x == s[0] || x in s[1..];
      assert s[0] !in Without(s[1..], id);
    }
  }

  lemma RemoveKeepsInverse(s: State, id: string)
    requires Inverse(s.byId, s.byHash) && id in s.byId
    ensures Inverse(Remove(s, id).byId, Remove(s, id).byHash)
  {
    var t := Remove(s, id);
    forall k | k in t.byId ensures t.byId[k].fingerprint in t.byHash && t.byHash[t.byId[k].fingerprint] == k {
      assert s.byHash[s.byId[k].fingerprint] == k;
    }
  }

  lemma RemoveKeepsListing(s: State, id: string)
    requires Lists(s.ordered, s.byId) && Mirrors(s.files, s.byId) && id in s.byId
    ensures Lists(Remove(s, id).ordered, Remove(s, id).byId) && Mirrors(Remove(s, id).files, Remove(s, id).byId)
    ensures |Remove(s, id).byId| <= |s.byId|
  {
    WithoutLists(s.ordered, id);
    hide Distinct, Without;
    var t := Remove(s, id);
    assert t.byId.Keys == s.byId.Keys - {id} && t.files.Keys == s.files.Keys - {id};
    assert |t.byId| == |t.byId.Keys| && |s.byId| == |s.byId.Keys|;
  }

  lemma RemoveKeeps(s: State, id: string, limits: Limits)
    requires Agrees(s, limits) && id in s.byId
    ensures Agrees(Remove(s, id), limits)
  {
    RemoveKeepsInverse(s, id);
    RemoveKeepsListing(s, id);
    hide Storable, ValidId, Inverse, Lists, Mirrors, Without;
  }

  /** What a successful save puts: the normalised item, under an id and with a history of its own. */
  ghost predicate Wrote(s: State, limits: Limits, scope: Scope, n: Memory, r: (State, SaveResult)) {
    r.1.Saved? ==>
      var item := r.1.item;
      && r.0 == Put(s, item) && ValidId(item.id)
      && item == n.(id := item.id, createdAt := item.createdAt, lastUsedAt := item.lastUsedAt, useCount := item.useCount)
      && (item.fingerprint in s.byHash ==> s.byHash[item.fingerprint] == item.id)
      && (if item.id in s.byId then WritableBy(s.byId[item.id].scope, scope) else |s.byId| < limits.maxItems)
  }

  lemma SaveNewWrote(s: State, limits: Limits, scope: Scope, n: Memory, newId: nat -> string, disk: bool)
    ensures Wrote(s, limits, scope, n, SaveNew(s, limits, n, newId, disk))
  {
    hide Put, GenerateId, ValidId, WritableBy;
  }

  lemma SaveOverWrote(s: State, limits: Limits, id: string, scope: Scope, n: Memory, disk: bool)
    requires GoodItems(s.byId, limits.maxBytes)
    ensures Wrote(s, limits, scope, n, SaveOver(s, id, scope, n, disk))
  {
    hide Put, ValidId, WritableBy, Storable;
  }

  lemma SaveWrote(s: State, limits: Limits, item: Memory, now: nat, newId: nat -> string, disk: bool)
    requires Agrees(s, limits)
    ensures var r := Save(s, limits, item, now, newId, disk);
            if NormalizeMemory(item, limits.maxBytes, now).None? then r == (s, Refused)
            else Wrote(s, limits, item.scope, NormalizeMemory(item, limits.maxBytes, now).value, r)
                 && (!r.1.Saved? ==> r.0 == s)
  {
    hide NormalizeMemory, TrimSpace, Put, Wrote, GenerateId, WritableBy;
    if NormalizeMemory(item, limits.maxBytes, now).Some? {
      var n := NormalizeMemory(item, limits.maxBytes, now).value;
      SaveNewWrote(s, limits, item.scope, n, newId, disk);
      SaveOverWrote(s, limits, TrimSpace(item.id), item.scope, n, disk);
    }
  }

  lemma SaveKeeps(s: State, limits: Limits, item: Memory, now: nat, newId: nat -> string, disk: bool)
    requires Agrees(s, limits)
    ensures Agrees(Save(s, limits, item, now, newId, disk).0, limits)
  {
    hide Save, NormalizeMemory, Storable, ValidId, Agrees, WritableBy, Put;
    SaveWrote(s, limits, item, now, newId, disk);
    var (t, result) := Save(s, limits, item, now, newId, disk);
    if result.Saved? {
      var n := result.item;
      NormalizedIsStorable(item, limits.maxBytes, now, n.id, n.createdAt, n.lastUsedAt, n.useCount);
      PutKeeps(s, n, limits);
    }
  }

  lemma TouchOneKeeps(s: State, raw: string, now: nat, disk: bool, limits: Limits)
    requires Agrees(s, limits)
    ensures Agrees(TouchOne(s, raw, now, disk), limits)
  {
    hide Storable, Used, Agrees;
    var id := TrimSpace(raw);
    if id in s.byId && disk {
      var item := s.byId[id];
      GoodId(s, id, limits);
      UsedKeeps(item, now);
      UsedIsStorable(item, now, limits.maxBytes);
      PutKeeps(s, Used(item, now), limits);
    }
  }

  lemma GoodId(s: State, id: string, limits: Limits)
    requires Agrees(s, limits) && id in s.byId
    ensures s.byId[id].id == id && ValidId(id) && Storable(s.byId[id], limits.maxBytes)
    ensures s.byId[id].fingerprint in s.byHash && s.byHash[s.byId[id].fingerprint] == id
  {
    hide Storable, ValidId;
  }

  lemma UsedKeeps(item: Memory, now: nat)
    ensures Used(item, now).id == item.id && Used(item, now).fingerprint == item.fingerprint
  {
  }

  lemma UsedIsStorable(item: Memory, now: nat, maxBytes: nat)
    requires Storable(item, maxBytes)
    ensures Storable(Used(item, now), maxBytes)
  {
    hide KnownKind, ValidScope, Fingerprint, NormalizeText, Sanitize;
  }

  lemma {:induction false} TouchKeeps(s: State, ids: seq<string>, now: nat, disk: nat -> bool, limits: Limits)
    requires Agrees(s, limits)
    ensures Agrees(Touch(s, ids, now, disk), limits)
  {
    hide Agrees, TouchOne;
    if ids != [] {
      var n := |ids| - 1;
      TouchKeeps(s, ids[..n], now, disk, limits);
      TouchOneKeeps(Touch(s, ids[..n], now, disk), ids[n], now, disk(n), limits);
    }
  }
}

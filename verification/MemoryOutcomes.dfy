/** What the calls on the memory answer, said of their inputs: who is shown what, and when a call succeeds. */
module MemoryOutcomes {
  import opened Common
  import opened MemoryText
  import opened MemoryItems
  import opened MemoryIndex
  import opened MemoryStore
  import opened MemorySearch
  import opened TextOrder

  // ----- The canonical form of a text that is put together

  function Spaced(a: string, b: string): string {
    if a == "" then b else if b == "" then a else a + " " + b
  }

  /** A rune that ends a word: a line break or tab, or a space that is kept. */
  predicate Separates(c: char) {
    c == '\n' || c == '\r' || c == '\t' || (IsSpace(c) && !IsControl(c) && !IsInvisible(c))
  }

  /** A rune that leaves no trace. */
  predicate Vanishes(c: char) {
    c != '\n' && c != '\r' && c != '\t' && (IsControl(c) || IsInvisible(c))
  }

  lemma {:induction false} CleanConcat(a: string, b: string)
    ensures Clean(a + b) == Clean(a) + Clean(b)
  {
    hide Clean, CleanRune;
    if b == "" {
      assert a + b == a;
      assert Clean("") == "" by { CleanNothing(); }
    } else {
      var front, last := b[..|b| - 1], b[|b| - 1];
      CleanConcat(a, front);
      assert a + b == (a + front) + [last];
      CleanNext(a + front, last);
      CleanNext(front, last);
      assert front + [last] == b;
    }
  }

  lemma CleanNothing()
    ensures Clean("") == ""
  {
  }

  lemma CleanNext(s: string, c: char)
    ensures Clean(s + [c]) == Clean(s) + CleanRune(c)
  {
    hide CleanRune;
    assert (s + [c])[..|s|] == s;
  }

  lemma CleanOne(c: char)
    ensures Clean([c]) == CleanRune(c)
  {
    assert [c][..0] == "";
    assert Clean("") == "";
  }

  lemma FieldsSkip(s: string)
    requires s != "" && IsSpace(s[0])
    ensures Fields(s) == Fields(s[1..])
  {
  }

  lemma FieldsWord(w: string, rest: string)
    requires IsWord(w) && (rest == "" || IsSpace(rest[0]))
    ensures Fields(w + rest) == [w] + Fields(rest)
  {
    WordLengthOf(w, rest);
    assert (w + rest)[..|w|] == w && (w + rest)[|w|..] == rest;
  }

  lemma {:induction false} FieldsSeparate(a: string, c: char, b: string)
    requires IsSpace(c)
    ensures Fields(a + [c] + b) == Fields(a) + Fields(b)
    decreases |a|
  {
    hide IsSpace, Fields;
    var text := a + [c] + b;
    if a == "" {
      assert text[1..] == b && Fields("") == [] by { EmptyFields(); }
      FieldsSkip(text);
    } else if IsSpace(a[0]) {
      assert text[1..] == a[1..] + [c] + b;
      FieldsSkip(text);
      FieldsSkip(a);
      FieldsSeparate(a[1..], c, b);
    } else {
      var n := WordLength(a);
      var w, rest := a[..n], a[n..];
      assert a == w + rest && text == w + (rest + [c] + b) && IsWord(w);
      FieldsWord(w, rest);
      FieldsWord(w, rest + [c] + b);
      FieldsSeparate(rest, c, b);
      assert [w] + (Fields(rest) + Fields(b)) == [w] + Fields(rest) + Fields(b);
    }
  }

  lemma JoinSpaced(a: seq<string>, b: seq<string>)
    requires AllWords(a) && AllWords(b)
    ensures Join(a + b, " ") == Spaced(Join(a, " "), Join(b, " "))
    decreases |a|
  {
    hide IsSpace;
    if a == [] {
      assert a + b == b;
    } else if b == [] {
      assert a + b == a;
      assert Join(b, " ") == "";
    } else {
      assert IsWord(a[0]) && IsWord(b[0]);
      assert (a + b)[1..] == a[1..] + b && (a + b)[0] == a[0];
      JoinSpaced(a[1..], b);
      NotEmptyJoin(b);
      NotEmptyJoin(a);
      if |a| > 1 {
        NotEmptyJoin(a[1..]);
        assert a[0] + " " + (Join(a[1..], " ") + " " + Join(b, " ")) == Join(a, " ") + " " + Join(b, " ");
      }
    }
  }

  lemma NotEmptyJoin(words: seq<string>)
    requires AllWords(words) && words != []
    ensures Join(words, " ") != ""
  {
    assert IsWord(words[0]);
  }

  lemma WordsOf(raw: string)
    ensures AllWords(Fields(Clean(raw)))
  {
    CleanKeeps(raw);
    FieldsAreWords(Clean(raw));
  }

  /** Line breaks, tabs and spaces separate, whatever they are and however many. */
  lemma SpaceSeparates(a: string, c: char, b: string)
    requires Separates(c)
    ensures NormalizeText(a + [c] + b) == Spaced(NormalizeText(a), NormalizeText(b))
  {
    hide Clean, Fields, Join, AllWords;
    CleanConcat(a + [c], b);
    CleanConcat(a, [c]);
    CleanOne(c);
    var d := if IsBreak(c) then ' ' else c;
    assert Clean(a + [c] + b) == Clean(a) + [d] + Clean(b);
    FieldsSeparate(Clean(a), d, Clean(b));
    WordsOf(a);
    WordsOf(b);
    JoinSpaced(Fields(Clean(a)), Fields(Clean(b)));
  }

  /** Control and invisible runes vanish without separating. */
  lemma HiddenVanishes(a: string, c: char, b: string)
    requires Vanishes(c)
    ensures NormalizeText(a + [c] + b) == NormalizeText(a + b)
  {
    hide Fields, Join, Clean;
    CleanConcat(a + [c], b);
    CleanConcat(a, [c]);
    CleanConcat(a, b);
    CleanOne(c);
    assert Clean(a) + "" == Clean(a);
  }

  // ----- Who is shown what

  /** A private item is shown to its owner in its workspace and to nobody else; no item leaves its workspace. */
  lemma PrivateStaysPrivate(scope: Scope, workspace: string, user: string)
    requires VisibleTo(scope, workspace, user)
    ensures workspace == scope.workspace
    ensures scope.visibility == "private" ==> user == scope.user && user != ""
    ensures scope.visibility == "private" || scope.visibility == "workspace"
  {
  }

  /** Whoever may write an item may see it, and only the owner writes a private one. */
  lemma WritersSee(scope: Scope, requested: Scope)
    requires WritableBy(scope, requested)
    ensures VisibleTo(scope, requested.workspace, requested.user)
    ensures requested.workspace == scope.workspace && (scope.visibility == "private" ==> requested.user == scope.user)
  {
  }

  /** In no state does a lookup or a search hand a user another's private item, or one of another workspace. */
  lemma OthersNeverSee(s: State, raw: string, q: Query, now: nat, r: seq<Match>)
    requires IsTop(r, Matches(s.byId, q, now), q.topK, Before)
    ensures var found := Get(s, raw, q.workspace, q.user);
            found.Some? ==> MayRead(found.value.scope, q.workspace, q.user)
    ensures forall m | m in r :: MayRead(m.item.scope, q.workspace, q.user)
  {
    AnswerIsVisible(s.byId, q, now, r);
    hide IsTop, Matches;
    forall m | m in r ensures MayRead(m.item.scope, q.workspace, q.user) {
      PrivateStaysPrivate(m.item.scope, q.workspace, q.user);
    }
  }

  predicate MayRead(scope: Scope, workspace: string, user: string) {
    scope.workspace == workspace && (scope.visibility != "workspace" ==> scope.visibility == "private" && scope.user == user)
  }

  /** A stored item that its owner, or for a shared one anybody in the workspace, asks for is given. */
  lemma OwnersSee(s: State, limits: Limits, id: string, workspace: string, user: string)
    requires Agrees(s, limits) && id in s.byId && workspace == s.byId[id].scope.workspace && workspace != ""
    requires s.byId[id].scope.visibility == "workspace" || (s.byId[id].scope.visibility == "private"
                                                            && user == s.byId[id].scope.user && user != "")
    ensures Get(s, id, workspace, user) == Some(s.byId[id])
  {
    hide Agrees, TrimSpace, ValidId;
    GoodId(s, id, limits);
    IdIsTrimmed(id);
  }

  /** What a query matches: every stored item that the caller may read, is of a kind that was asked for, and scores. */
  lemma MatchesExactly(byId: map<string, Memory>, q: Query, now: nat, m: Match)
    requires q.workspace != ""
    ensures m in Matches(byId, q, now) <==>
              && (exists id :: id in byId && byId[id] == m.item)
              && MayRead(m.item.scope, q.workspace, q.user) && (m.item.scope.visibility == "private" ==> q.user != "")
              && (q.kinds == [] || m.item.kind in q.kinds)
              && (m.score, m.terms) == Score(Tokens(q.text), m.item, now, q.requireAll) && m.score > 0.0
  {
    if id :| id in byId && byId[id] == m.item {
      assert MatchOf(byId[id], q, now) == Some(m) ==> m in Matches(byId, q, now);
    }
  }

  // ----- The ranking

  /** An answer goes from the greater score to the lesser, of equal scores from the newer to the older, and then by
      id; and nothing that was left out would have come earlier than something that is in it. */
  lemma Ranked(byId: map<string, Memory>, q: Query, now: nat, r: seq<Match>)
    requires IsTop(r, Matches(byId, q, now), q.topK, Before)
    ensures forall i, j | 0 <= i < j < |r| ::
              && r[i].score >= r[j].score
              && (r[i].score == r[j].score ==> r[i].item.updatedAt >= r[j].item.updatedAt)
              && (r[i].score == r[j].score && r[i].item.updatedAt == r[j].item.updatedAt ==>
                    NotAfter(r[i].item.id, r[j].item.id))
    ensures forall x, y | x in r && y in Matches(byId, q, now) && y !in r :: x.score >= y.score
  {
    hide Matches, TextLe, Distinct;
    forall i, j | 0 <= i < j < |r| ensures Before(r[i], r[j]) {
    }
    forall a, b | TextLe(a, b) ensures NotAfter(a, b) {
      TextLeIsLexical(a, b);
    }
  }

  /** The first text is a beginning of the second, or has the lesser rune where they first differ. */
  predicate NotAfter(a: string, b: string) {
    a <= b || exists k | 0 <= k < |a| && k < |b| :: a[..k] == b[..k] && a[k] < b[k]
  }

  lemma {:induction false} TextLeIsLexical(a: string, b: string)
    ensures TextLe(a, b) <==> NotAfter(a, b)
  {
    if a != "" && b != "" && a[0] == b[0] {
      TextLeIsLexical(a[1..], b[1..]);
      if k :| 0 <= k < |a[1..]| && k < |b[1..]| && a[1..][..k] == b[1..][..k] && a[1..][k] < b[1..][k] {
        assert a[..k + 1] == [a[0]] + a[1..][..k] && b[..k + 1] == [b[0]] + b[1..][..k];
        assert a[k + 1] < b[k + 1];
      }
      if k :| 0 <= k < |a| && k < |b| && a[..k] == b[..k] && a[k] < b[k] {
        assert k > 0;
        assert a[1..][..k - 1] == a[..k][1..] && b[1..][..k - 1] == b[..k][1..];
        assert a[1..][k - 1] < b[1..][k - 1];
      }
      assert a <= b <==> a[1..] <= b[1..];
    }
    if a != "" && b != "" && a[0] < b[0] {
      assert a[..0] == b[..0];
    }
    if a != "" && b != "" && a[0] > b[0] {
      forall k | 0 < k < |a| && k < |b| ensures a[..k] != b[..k] {
        assert a[..k][0] == a[0] && b[..k][0] == b[0];
      }
    }
  }

  // ----- When a call succeeds

  /** What may be remembered. */
  predicate Admissible(item: Memory, maxBytes: nat) {
    var content := NormalizeText(item.content);
    && KnownKind(item.kind) && TrimSpace(item.scope.workspace) != "" && KnownVisibility(item.scope.visibility)
    && (item.scope.visibility == "private" ==> TrimSpace(item.scope.user) != "")
    && content != "" && ByteLen(content) <= maxBytes && !LooksSecret(content) && !LooksLikeControl(content)
    && ExtractKeywords(content) != []
  }

  /** The gate lets through what is admissible, in canonical form, with the time of the call; where it came from is
      never left blank. */
  lemma GateExactly(item: Memory, maxBytes: nat, now: nat)
    ensures NormalizeMemory(item, maxBytes, now).Some? <==> Admissible(item, maxBytes)
    ensures Admissible(item, maxBytes) ==>
              var n := NormalizeMemory(item, maxBytes, now).value;
              && n.content == NormalizeText(item.content) && n.keywords == ExtractKeywords(n.content)
              && n.source == (if NormalizeText(item.source) == "" then "unspecified" else NormalizeText(item.source))
              && n.fingerprint == Fingerprint(item.scope, item.kind, n.content)
              && n.scope == item.scope && n.kind == item.kind && n.updatedAt == now
              && n.createdAt == (if item.createdAt == 0 then now else item.createdAt)
              && n.useCount == item.useCount && n.lastUsedAt == item.lastUsedAt && n.id == item.id
  {
    hide NormalizeText, KnownKind, KnownVisibility, TrimSpace, ByteLen, Fingerprint;
  }

  /** After every run with failures and restarts each stored item is admissible and in canonical form. */
  lemma StoredIsAdmissible(limits: Limits, ops: seq<Op>, id: string)
    requires Run(EMPTY, limits, ops).Some? && id in Run(EMPTY, limits, ops).value.byId
    ensures var item := Run(EMPTY, limits, ops).value.byId[id];
            Admissible(item, limits.maxBytes) && NormalizeText(item.content) == item.content && item.id == id
  {
    hide Run, NormalizeText, Admissible, Agrees;
    RunKeeps(limits, ops);
    var s := Run(EMPTY, limits, ops).value;
    GoodId(s, id, limits);
    var item := s.byId[id];
    GateExactly(item, limits.maxBytes, item.updatedAt);
  }

  /** Some item has the fingerprint. */
  predicate Taken(s: State, fingerprint: string) {
    exists id :: id in s.byId && s.byId[id].fingerprint == fingerprint
  }

  lemma TakenIsIndexed(s: State, limits: Limits, fingerprint: string)
    requires Agrees(s, limits)
    ensures Taken(s, fingerprint) <==> fingerprint in s.byHash
    ensures fingerprint in s.byHash ==> s.byHash[fingerprint] in s.byId && s.byId[s.byHash[fingerprint]].fingerprint == fingerprint
  {
    hide Lists, Mirrors, GoodItems;
  }

  /** The generator gives a usable id that is free within eight tries, with nothing unusable before it. */
  ghost predicate Generates(s: State, newId: nat -> string, from: nat) {
    exists k | from <= k < 8 ::
      && ValidId(TrimSpace(newId(k))) && TrimSpace(newId(k)) !in s.byId
      && forall i | from <= i < k :: ValidId(TrimSpace(newId(i))) && TrimSpace(newId(i)) in s.byId
  }

  lemma {:induction false} GeneratesExactly(s: State, newId: nat -> string, from: nat)
    requires from <= 8
    ensures GenerateId(s.byId, newId, from).Some? <==> Generates(s, newId, from)
    decreases 8 - from
  {
    hide TrimSpace, ValidId;
    if from < 8 {
      GeneratesExactly(s, newId, from + 1);
    }
  }

  /** A creation: refused, answered with the item that has the same fingerprint, or written under a new id, as said. */
  lemma CreateExactly(s: State, limits: Limits, item: Memory, now: nat, newId: nat -> string, disk: bool)
    requires Agrees(s, limits) && TrimSpace(item.id) == ""
    ensures var (t, r) := Save(s, limits, item, now, newId, disk);
            var fingerprint := Fingerprint(item.scope, item.kind, NormalizeText(item.content));
            && (r.Duplicate? <==> Admissible(item, limits.maxBytes) && Taken(s, fingerprint))
            && (r.Saved? <==> Admissible(item, limits.maxBytes) && !Taken(s, fingerprint) && |s.byId| < limits.maxItems
                              && Generates(s, newId, 0) && disk)
            && !r.NotFound?
            && (r.Saved? ==> r.item.id !in s.byId && t.byId == s.byId[r.item.id := r.item])
            && (!r.Saved? ==> t == s)
  {
    hide NormalizeMemory, Admissible, Fingerprint, NormalizeText, TrimSpace, Agrees, Taken, Generates, GenerateId, Put;
    GateExactly(item, limits.maxBytes, now);
    if Admissible(item, limits.maxBytes) {
      TakenIsIndexed(s, limits, NormalizeMemory(item, limits.maxBytes, now).value.fingerprint);
      GeneratesExactly(s, newId, 0);
      SaveNewWrote(s, limits, item.scope, NormalizeMemory(item, limits.maxBytes, now).value, newId, disk);
      if Save(s, limits, item, now, newId, disk).1.Saved? {
        PutFrame(s, Save(s, limits, item, now, newId, disk).1.item);
      }
    }
  }

  /** Another item than this one has the fingerprint. */
  predicate TakenByOther(s: State, fingerprint: string, own: string) {
    exists id :: id in s.byId && id != own && s.byId[id].fingerprint == fingerprint
  }

  lemma TakenByOtherIsIndexed(s: State, limits: Limits, fingerprint: string, own: string)
    requires Agrees(s, limits)
    ensures TakenByOther(s, fingerprint, own) <==> fingerprint in s.byHash && s.byHash[fingerprint] != own
  {
    hide Lists, Mirrors, GoodItems;
    if fingerprint in s.byHash && s.byHash[fingerprint] != own {
      assert s.byHash[fingerprint] in s.byId;
    }
  }

  /** An update: not found unless the item is there and the caller's to write, refused, answered with another item of
      the same fingerprint, or written, as said. */
  lemma UpdateExactly(s: State, limits: Limits, item: Memory, now: nat, newId: nat -> string, disk: bool)
    requires Agrees(s, limits) && TrimSpace(item.id) != ""
    ensures var (t, r) := Save(s, limits, item, now, newId, disk);
            var id, fingerprint := TrimSpace(item.id), Fingerprint(item.scope, item.kind, NormalizeText(item.content));
            var mine := id in s.byId && WritableBy(s.byId[id].scope, item.scope);
            && (r.NotFound? <==> Admissible(item, limits.maxBytes) && !mine)
            && (r.Duplicate? <==> Admissible(item, limits.maxBytes) && mine && TakenByOther(s, fingerprint, id))
            && (r.Saved? <==> Admissible(item, limits.maxBytes) && mine && !TakenByOther(s, fingerprint, id) && disk)
            && (r.Saved? ==> t.byId == s.byId[id := r.item])
            && (!r.Saved? ==> t == s)
  {
    hide NormalizeMemory, Admissible, Fingerprint, NormalizeText, TrimSpace, Agrees, TakenByOther, WritableBy, Put;
    GateExactly(item, limits.maxBytes, now);
    if Admissible(item, limits.maxBytes) {
      var id := TrimSpace(item.id);
      TakenByOtherIsIndexed(s, limits, NormalizeMemory(item, limits.maxBytes, now).value.fingerprint, id);
      if Save(s, limits, item, now, newId, disk).1.Saved? {
        PutFrame(s, Save(s, limits, item, now, newId, disk).1.item);
      }
    }
  }

  /** A delete succeeds exactly where the item is there, is the caller's to write, and its file can be removed; then
      that item is gone and no other. */
  lemma DeleteExactly(s: State, limits: Limits, raw: string, scope: Scope, disk: bool)
    requires Agrees(s, limits)
    ensures var (t, ok) := Delete(s, raw, scope, disk);
            && (ok <==> TrimSpace(raw) in s.byId && WritableBy(s.byId[TrimSpace(raw)].scope, scope) && disk)
            && (ok ==> t.byId == s.byId - {TrimSpace(raw)})
            && (!ok ==> t == s)
  {
    hide Agrees, TrimSpace, WritableBy;
    if TrimSpace(raw) in s.byId {
      GoodId(s, TrimSpace(raw), limits);
    }
  }

  // ----- Opening a directory

  /** The file holds an item under its own name that may be remembered. */
  predicate Loadable(files: map<string, Option<Memory>>, name: string, maxBytes: nat) {
    && name in files && files[name].Some? && files[name].value.id == name && ValidId(name)
    && Admissible(files[name].value, maxBytes)
  }

  function FingerprintOf(item: Memory): string {
    Fingerprint(item.scope, item.kind, NormalizeText(item.content))
  }

  lemma ReadExactly(files: map<string, Option<Memory>>, name: string, maxBytes: nat)
    ensures ReadItem(files, name, maxBytes).Some? <==> Loadable(files, name, maxBytes)
    ensures Loadable(files, name, maxBytes) ==>
              var item := ReadItem(files, name, maxBytes).value;
              item.id == name && item.fingerprint == FingerprintOf(files[name].value)
  {
    hide Admissible, ValidId, Fingerprint, NormalizeText, NormalizeMemory;
    if name in files && files[name].Some? {
      GateExactly(files[name].value, maxBytes, files[name].value.updatedAt);
    }
  }

  /** The names that are read and what they hold. */
  ghost predicate AllLoad(files: map<string, Option<Memory>>, names: seq<string>, maxBytes: nat) {
    && (forall name | name in names :: Loadable(files, name, maxBytes))
    && (forall i, j | 0 <= i < j < |names| ::
          && names[i] != names[j]
          && (Loadable(files, names[i], maxBytes) && Loadable(files, names[j], maxBytes) ==>
                FingerprintOf(files[names[i]].value) != FingerprintOf(files[names[j]].value)))
  }

  lemma {:induction false} NamesLoadExactly(files: map<string, Option<Memory>>, names: seq<string>, maxBytes: nat)
    ensures LoadNames(files, names, maxBytes).Some? <==> AllLoad(files, names, maxBytes)
    ensures LoadNames(files, names, maxBytes).Some? ==>
              var s := LoadNames(files, names, maxBytes).value;
              && (forall id :: id in s.byId <==> id in names)
              && (forall h :: h in s.byHash <==> exists id :: id in names && h == FingerprintOf(files[id].value))
  {
    hide ReadItem, Loadable, FingerprintOf;
    if names != [] {
      var front, last := names[..|names| - 1], names[|names| - 1];
      NamesLoadExactly(files, front, maxBytes);
      ReadExactly(files, last, maxBytes);
      LastLoads(files, names, maxBytes);
      assert forall id :: id in names <==> id in front || id == last;
      forall name | name in names && Loadable(files, name, maxBytes) ensures name in files && files[name].Some? {
        LoadableIsThere(files, name, maxBytes);
      }
    }
  }

  lemma LoadableIsThere(files: map<string, Option<Memory>>, name: string, maxBytes: nat)
    requires Loadable(files, name, maxBytes)
    ensures name in files && files[name].Some?
  {
    hide Admissible;
  }

  /** All load exactly if all but the last do, the last does, and it is new by name and by fingerprint. */
  lemma LastLoads(files: map<string, Option<Memory>>, names: seq<string>, maxBytes: nat)
    requires names != []
    ensures var front, last := names[..|names| - 1], names[|names| - 1];
            AllLoad(files, names, maxBytes) <==>
              && AllLoad(files, front, maxBytes) && Loadable(files, last, maxBytes) && last !in front
              && forall name | name in front && Loadable(files, name, maxBytes) ::
                   FingerprintOf(files[name].value) != FingerprintOf(files[last].value)
  {
    hide Admissible, FingerprintOf, ValidId;
    var front, last := names[..|names| - 1], names[|names| - 1];
    assert forall i | 0 <= i < |front| :: front[i] == names[i] && front[i] in front;
    assert forall name :: name in names <==> name in front || name == last;
  }

  /** A store comes up exactly if there are not too many files, every file is an admissible item under its own name,
      and no fact is there twice. */
  lemma LoadsExactly(files: map<string, Option<Memory>>, names: seq<string>, limits: Limits)
    ensures Load(files, names, limits).Some? <==> |names| <= limits.maxItems && AllLoad(files, names, limits.maxBytes)
  {
    hide LoadNames, AllLoad;
    NamesLoadExactly(files, names, limits.maxBytes);
  }
}

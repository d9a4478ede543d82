/** One remembered item: who may see and write it, what identifies it, and the gate it passes on create,
    on update and on load. */
module MemoryItems {
  import opened Common
  import opened MemoryText

  datatype Scope = Scope(workspace: string, user: string, visibility: string)

  datatype Memory = Memory(
    id: string, kind: string, scope: Scope, content: string, keywords: seq<string>, source: string,
    fingerprint: string, createdAt: nat, updatedAt: nat, lastUsedAt: nat, useCount: nat)

  /** A map read at a missing key gives this value. */
  const ZERO_MEMORY := Memory("", "", Scope("", "", ""), "", [], "", "", 0, 0, 0, 0)

  const PRIVATE := "private"
  const WORKSPACE := "workspace"
  const UNSPECIFIED := "unspecified"

  predicate KnownKind(raw: string) {
    var kind := ToLower(TrimSpace(raw));
    kind == "fact" || kind == "preference" || kind == "decision" || kind == "constraint"
  }

  predicate KnownVisibility(raw: string) {
    var value := ToLower(TrimSpace(raw));
    value == PRIVATE || value == WORKSPACE
  }

  // ----- Access

  predicate VisibleTo(scope: Scope, workspace: string, user: string) {
    && scope.workspace != "" && workspace != "" && scope.workspace == workspace
    && (|| scope.visibility == WORKSPACE
        || (scope.visibility == PRIVATE && scope.user != "" && user != "" && scope.user == user))
  }

  predicate WritableBy(scope: Scope, requested: Scope) {
    && scope.workspace != "" && scope.workspace == requested.workspace
    && if scope.visibility == PRIVATE then scope.user != "" && scope.user == requested.user
       else scope.visibility == WORKSPACE
  }

  predicate ValidScope(scope: Scope) {
    && TrimSpace(scope.workspace) != ""
    && KnownVisibility(scope.visibility)
    && !(scope.visibility == PRIVATE && TrimSpace(scope.user) == "")
  }

  lemma TrimmedAway()
    ensures TrimSpace("") == ""
  {
  }

  /** An accepted scope can be read and written by somebody exactly when its visibility is spelled as the
      constant. The check of the visibility folds case and trims, the access rules do not. */
  lemma ReachableWhenSpelled(scope: Scope)
    requires ValidScope(scope)
    ensures (exists requested :: WritableBy(scope, requested))
            <==> scope.visibility == PRIVATE || scope.visibility == WORKSPACE
    ensures (exists workspace, user :: VisibleTo(scope, workspace, user))
            <==> scope.visibility == PRIVATE || scope.visibility == WORKSPACE
  {
    hide TrimSpace, KnownVisibility;
    TrimmedAway();
    if scope.visibility == PRIVATE || scope.visibility == WORKSPACE {
      assert WritableBy(scope, scope);
      assert VisibleTo(scope, scope.workspace, scope.user);
    }
  }

  /** Such an item exists: "Private" with a capital is accepted, and then nobody reaches it. */
  lemma CapitalIsStranded(workspace: string)
    requires TrimSpace(workspace) != ""
    ensures var scope := Scope(workspace, "", "Private");
            ValidScope(scope) && !exists requested :: WritableBy(scope, requested)
  {
    var scope := Scope(workspace, "", "Private");
    TrimSpaceTrims("Private") by { assert Trimmed("Private"); }
    assert ToLower("Private") == PRIVATE;
    assert "Private"[0] != PRIVATE[0] && "Private"[0] != WORKSPACE[0];
    ReachableWhenSpelled(scope);
  }

  // ----- Identity

  /** SHA-256 of a text in hexadecimal, left open like every digest. */
  const HashText: string -> string

  const SEPARATOR := "\0"

  function FingerprintText(scope: Scope, kind: string, content: string): string {
    Join([scope.workspace, scope.user, scope.visibility, kind, ToLower(NormalizeText(content))], SEPARATOR)
  }

  function Fingerprint(scope: Scope, kind: string, content: string): string {
    HashText(FingerprintText(scope, kind, content))
  }

  lemma NulSurvives(raw: string)
    requires '\0' in raw
    ensures '\0' in ToLower(TrimSpace(raw))
  {
    TrimLeftKeeps(raw, '\0');
    TrimRightKeeps(TrimLeft(raw), '\0');
    var i :| 0 <= i < |TrimSpace(raw)| && TrimSpace(raw)[i] == '\0';
    assert ToLower(TrimSpace(raw))[i] == '\0';
  }

  lemma KnownHasNoNul(raw: string)
    requires KnownKind(raw) || KnownVisibility(raw)
    ensures '\0' !in raw
  {
    if '\0' in raw {
      NulSurvives(raw);
    }
  }

  /** The first separator ends the first field. */
  lemma FirstField(a: string, r: string, b: string, s: string)
    requires '\0' !in a && '\0' !in b
    requires a + SEPARATOR + r == b + SEPARATOR + s
    ensures a == b && r == s
  {
    var text := a + SEPARATOR + r;
    assert text[|a|] == '\0' && text[|b|] == '\0';
    assert forall k | 0 <= k < |a| :: text[k] == a[k] && text[k] != '\0';
    assert forall k | 0 <= k < |b| :: text[k] == b[k] && text[k] != '\0';
    assert a == text[..|a|] && r == text[|a| + 1..];
    assert b == text[..|b|] && s == text[|b| + 1..];
  }

  function Tail4(scope: Scope, kind: string, content: string): string {
    scope.user + SEPARATOR + Tail3(scope, kind, content)
  }

  function Tail3(scope: Scope, kind: string, content: string): string {
    scope.visibility + SEPARATOR + (kind + SEPARATOR + ToLower(NormalizeText(content)))
  }

  lemma FingerprintFields(scope: Scope, kind: string, content: string)
    ensures FingerprintText(scope, kind, content) == scope.workspace + SEPARATOR + Tail4(scope, kind, content)
  {
    hide NormalizeText, ToLower;
    var text := ToLower(NormalizeText(content));
    assert [scope.visibility, kind, text][1..] == [kind, text];
    assert [scope.user, scope.visibility, kind, text][1..] == [scope.visibility, kind, text];
    assert [scope.workspace, scope.user, scope.visibility, kind, text][1..]
           == [scope.user, scope.visibility, kind, text];
    assert Join([kind, text], SEPARATOR) == kind + SEPARATOR + text;
    assert Join([scope.visibility, kind, text], SEPARATOR) == Tail3(scope, kind, content);
    assert Join([scope.user, scope.visibility, kind, text], SEPARATOR) == Tail4(scope, kind, content);
  }

  predicate NulFree(scope: Scope) {
    '\0' !in scope.workspace && '\0' !in scope.user
  }

  /** The hashed text says exactly which scope, kind and folded content it was made from, as long as the
      workspace and user ids hold no NUL. */
  lemma FingerprintTextInjective(s1: Scope, k1: string, c1: string, s2: Scope, k2: string, c2: string)
    requires NulFree(s1) && NulFree(s2)
    requires KnownVisibility(s1.visibility) && KnownVisibility(s2.visibility) && KnownKind(k1) && KnownKind(k2)
    ensures FingerprintText(s1, k1, c1) == FingerprintText(s2, k2, c2)
            <==> s1 == s2 && k1 == k2 && ToLower(NormalizeText(c1)) == ToLower(NormalizeText(c2))
  {
    KnownHasNoNul(s1.visibility);
    KnownHasNoNul(s2.visibility);
    KnownHasNoNul(k1);
    KnownHasNoNul(k2);
    FingerprintFields(s1, k1, c1);
    FingerprintFields(s2, k2, c2);
    hide NormalizeText, ToLower, KnownVisibility, KnownKind, FingerprintText;
    if FingerprintText(s1, k1, c1) == FingerprintText(s2, k2, c2) {
      FirstField(s1.workspace, Tail4(s1, k1, c1), s2.workspace, Tail4(s2, k2, c2));
      FirstField(s1.user, Tail3(s1, k1, c1), s2.user, Tail3(s2, k2, c2));
      FirstField(s1.visibility, k1 + SEPARATOR + ToLower(NormalizeText(c1)),
                 s2.visibility, k2 + SEPARATOR + ToLower(NormalizeText(c2)));
      FirstField(k1, ToLower(NormalizeText(c1)), k2, ToLower(NormalizeText(c2)));
    }
  }

  /** With a NUL in an id two different scopes share every fingerprint. */
  lemma NulForges(a: string, b: string, visibility: string, kind: string, content: string)
    ensures var s1, s2 := Scope(a, SEPARATOR + b, visibility), Scope(a + SEPARATOR, b, visibility);
            s1 != s2 && Fingerprint(s1, kind, content) == Fingerprint(s2, kind, content)
  {
    var s1, s2 := Scope(a, SEPARATOR + b, visibility), Scope(a + SEPARATOR, b, visibility);
    assert |s1.workspace| != |s2.workspace|;
    FingerprintFields(s1, kind, content);
    FingerprintFields(s2, kind, content);
    hide NormalizeText, ToLower, FingerprintText;
    assert s1.workspace + SEPARATOR + Tail4(s1, kind, content) == s2.workspace + SEPARATOR + Tail4(s2, kind, content);
  }

  // ----- The gate

  const ExtractKeywords: string -> seq<string>

  function NormalizeMemory(item: Memory, maxBytes: nat, now: nat): Option<Memory> {
    if !KnownKind(item.kind) || !ValidScope(item.scope) then None
    else
      match Sanitize(item.content, maxBytes)
      case None => None
      case Some(content) =>
        var source := NormalizeText(item.source);
        if ExtractKeywords(content) == [] then None
        else Some(item.(content := content,
                        source := if source == "" then UNSPECIFIED else source,
                        keywords := ExtractKeywords(content),
                        fingerprint := Fingerprint(item.scope, item.kind, content),
                        createdAt := if item.createdAt == 0 then now else item.createdAt,
                        updatedAt := now))
  }

  /** What loading makes of the item in a file: derived anew, with the times of the file. */
  function Reread(item: Memory, maxBytes: nat): Option<Memory> {
    match NormalizeMemory(item, maxBytes, item.updatedAt)
    case None => None
    case Some(n) => Some(n.(createdAt := item.createdAt))
  }

  /** An item that loading gives back as it is. */
  predicate Storable(item: Memory, maxBytes: nat) {
    Reread(item, maxBytes) == Some(item)
  }

  lemma LettersAreCanonical(s: string)
    requires forall i | 0 <= i < |s| :: 'a' <= s[i] <= 'z'
    ensures NormalizeText(s) == s
  {
    hide NormalizeText;
    assert Canonical(s);
    FixedPoints(s);
  }

  lemma UnspecifiedIsCanonical()
    ensures NormalizeText(UNSPECIFIED) == UNSPECIFIED
  {
    hide NormalizeText;
    LettersAreCanonical(UNSPECIFIED);
  }

  /** Whatever passed the gate once is reread unchanged, whatever id, creation time and use it is given. */
  lemma NormalizedIsStorable(item: Memory, maxBytes: nat, now: nat, id: string, created: nat, used: nat, count: nat)
    requires NormalizeMemory(item, maxBytes, now).Some?
    ensures var n := NormalizeMemory(item, maxBytes, now).value;
            Storable(n.(id := id, createdAt := created, lastUsedAt := used, useCount := count), maxBytes)
  {
    SanitizeIdempotent(item.content, maxBytes);
    NormalizeIdempotent(item.source);
    UnspecifiedIsCanonical();
    hide Sanitize, NormalizeText, KnownKind, ValidScope, Fingerprint;
    var n := NormalizeMemory(item, maxBytes, now).value;
    assert Sanitize(n.content, maxBytes) == Some(n.content);
    assert NormalizeText(n.source) == n.source;
  }

  /** Saying the same fact again with other spacing, case or invisible runes gives the same fingerprint. */
  lemma SameFactSameFingerprint(a: Memory, b: Memory, maxBytes: nat, now: nat, later: nat)
    requires NormalizeMemory(a, maxBytes, now).Some? && NormalizeMemory(b, maxBytes, later).Some?
    requires a.scope == b.scope && a.kind == b.kind
    requires ToLower(NormalizeText(a.content)) == ToLower(NormalizeText(b.content))
    ensures NormalizeMemory(a, maxBytes, now).value.fingerprint
            == NormalizeMemory(b, maxBytes, later).value.fingerprint
  {
    NormalizeIdempotent(a.content);
    NormalizeIdempotent(b.content);
    hide NormalizeText, KnownKind, ValidScope, ToLower, Join;
  }
}

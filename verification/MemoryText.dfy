/** The canonical form of remembered text: one form used by hashing, indexing and storage. */
module MemoryText {
  import opened Common

  /** unicode.IsControl. */
  predicate IsControl(c: char) {
    c as int < 0x20 || 0x7F <= c as int < 0xA0
  }

  predicate IsInvisible(c: char) {
    var n := c as int;
    || n == 0xFEFF || n == 0xAD || 0x200B <= n <= 0x200F || 0x202A <= n <= 0x202E
    || 0x2060 <= n <= 0x2064 || 0x2066 <= n <= 0x2069
  }

  predicate IsBreak(c: char) {
    c == '\n' || c == '\r' || c == '\t'
  }

  /** A rune the cleaning copies. */
  predicate Kept(c: char) {
    !IsBreak(c) && !IsInvisible(c) && !IsControl(c)
  }

  function CleanRune(c: char): string {
    if IsBreak(c) then " " else if Kept(c) then [c] else ""
  }

  function Clean(s: string): string {
    if s == "" then "" else Clean(s[..|s| - 1]) + CleanRune(s[|s| - 1])
  }

  // ----- strings.Fields

  predicate IsWord(w: string) {
    w != "" && forall i | 0 <= i < |w| :: !IsSpace(w[i])
  }

  predicate AllWords(words: seq<string>) {
    forall w | w in words :: IsWord(w)
  }

  /** The number of runes before the first space. */
  function WordLength(s: string): (n: nat)
    ensures n <= |s|
    ensures forall i | 0 <= i < n :: !IsSpace(s[i])
    ensures n < |s| ==> IsSpace(s[n])
  {
    if s == "" || IsSpace(s[0]) then 0 else 1 + WordLength(s[1..])
  }

  function Fields(s: string): seq<string>
    decreases |s|
  {
    if s == "" then []
    else if IsSpace(s[0]) then Fields(s[1..])
    else [s[..WordLength(s)]] + Fields(s[WordLength(s)..])
  }

  function NormalizeText(raw: string): string {
    Join(Fields(Clean(raw)), " ")
  }

  /** The loop over the runes. */
  method Normalize(raw: string) returns (text: string)
    ensures text == NormalizeText(raw)
  {
    var cleaned := "";
    for i := 0 to |raw|
      invariant cleaned == Clean(raw[..i])
    {
      assert raw[..i + 1][..i] == raw[..i];
      if IsBreak(raw[i]) {
        cleaned := cleaned + " ";
      } else if IsInvisible(raw[i]) {
      } else if IsControl(raw[i]) {
      } else {
        cleaned := cleaned + [raw[i]];
      }
    }
    assert raw[..|raw|] == raw;
    text := Join(Fields(cleaned), " ");
  }

  // ----- The canonical form, said without the algorithm

  /** Only printable runes, the plain space as the only space, never two in a row, none at an end. */
  predicate Canonical(s: string) {
    && (forall i | 0 <= i < |s| :: Kept(s[i]) && (IsSpace(s[i]) ==> s[i] == ' '))
    && (forall i | 0 <= i < |s| - 1 :: s[i] == ' ' ==> s[i + 1] != ' ')
    && Trimmed(s)
  }

  lemma {:induction false} CleanKeeps(s: string)
    ensures forall i | 0 <= i < |Clean(s)| :: Kept(Clean(s)[i])
  {
    if s != "" {
      CleanKeeps(s[..|s| - 1]);
    }
  }

  lemma {:induction false} CleanOfKept(s: string)
    requires forall i | 0 <= i < |s| :: Kept(s[i])
    ensures Clean(s) == s
  {
    hide IsBreak, IsInvisible, IsControl;
    if s != "" {
      CleanOfKept(s[..|s| - 1]);
      assert s == s[..|s| - 1] + [s[|s| - 1]];
    }
  }

  predicate AllKept(s: string) {
    forall i | 0 <= i < |s| :: Kept(s[i])
  }

  lemma {:induction false} FieldsAreWords(s: string)
    requires AllKept(s)
    ensures AllWords(Fields(s)) && forall w | w in Fields(s) :: AllKept(w)
    decreases |s|
  {
    if s == "" {
    } else if IsSpace(s[0]) {
      FieldsAreWords(s[1..]);
    } else {
      FieldsAreWords(s[WordLength(s)..]);
    }
  }

  /** Where the first word ends, given what follows it. */
  lemma {:induction false} WordLengthOf(w: string, rest: string)
    requires (forall i | 0 <= i < |w| :: !IsSpace(w[i])) && (rest == "" || IsSpace(rest[0]))
    ensures WordLength(w + rest) == |w|
  {
    if w == "" {
      assert w + rest == rest;
    } else {
      assert (w + rest)[1..] == w[1..] + rest;
      WordLengthOf(w[1..], rest);
    }
  }

  lemma {:induction false} FieldsOfJoin(words: seq<string>)
    requires AllWords(words)
    ensures Fields(Join(words, " ")) == words
  {
    if words != [] {
      var rest := if |words| == 1 then "" else " " + Join(words[1..], " ");
      assert IsWord(words[0]) && Join(words, " ") == words[0] + rest;
      WordLengthOf(words[0], rest);
      assert (words[0] + rest)[..|words[0]|] == words[0] && (words[0] + rest)[|words[0]|..] == rest;
      if |words| > 1 {
        FieldsOfJoin(words[1..]);
        assert rest[1..] == Join(words[1..], " ");
      }
    }
  }

  lemma {:induction false} JoinIsCanonical(words: seq<string>)
    requires AllWords(words) && forall w | w in words :: AllKept(w)
    ensures Canonical(Join(words, " "))
    ensures words != [] ==> Join(words, " ") != "" && Join(words, " ")[0] == words[0][0]
  {
    if words != [] {
      assert IsWord(words[0]) && AllKept(words[0]);
      if |words| > 1 {
        var rest := Join(words[1..], " ");
        JoinIsCanonical(words[1..]);
        var all := words[0] + " " + rest;
        assert IsWord(words[1]) && rest[0] == words[1][0];
        assert forall i | 0 <= i < |words[0]| :: all[i] == words[0][i];
        assert forall i | |words[0]| < i < |all| :: all[i] == rest[i - |words[0]| - 1];
        assert all[|words[0]|] == ' ' && IsSpace(' ') && Kept(' ');
      }
    }
  }

  /** Normalising always gives the canonical form. */
  lemma NormalizeCanonical(raw: string)
    ensures Canonical(NormalizeText(raw))
  {
    CleanKeeps(raw);
    FieldsAreWords(Clean(raw));
    JoinIsCanonical(Fields(Clean(raw)));
  }

  lemma CanonicalTail(s: string, n: nat)
    requires Canonical(s) && n == WordLength(s) < |s|
    ensures 0 < n && s[n] == ' ' && n + 1 < |s|
    ensures Canonical(s[n + 1..]) && !IsSpace(s[n + 1])
  {
    hide Kept, IsSpace, WordLength;
    PlainSpace();
    assert IsSpace(s[n]) && s[n] == ' ';
    assert n < |s| - 1 && s[n + 1] != ' ';
    var rest := s[n + 1..];
    assert rest[0] == s[n + 1] && rest[|rest| - 1] == s[|s| - 1];
  }

  lemma PlainSpace()
    ensures IsSpace(' ')
  {
  }

  lemma FieldsStep(s: string, n: nat)
    requires n == WordLength(s) && 0 < n < |s| && s[n] == ' ' && n + 1 < |s| && !IsSpace(s[n + 1])
    ensures Fields(s) == [s[..n]] + Fields(s[n + 1..]) && Fields(s[n + 1..]) != []
  {
    assert s[n..][1..] == s[n + 1..];
  }

  lemma OneWord(s: string)
    requires s != "" && WordLength(s) == |s|
    ensures Fields(s) == [s]
  {
    assert s[|s|..] == "" && s[..|s|] == s;
  }

  /** Joining the words of a text that already is canonical gives the text back. */
  lemma {:induction false} JoinOfFields(s: string)
    requires Canonical(s)
    ensures Join(Fields(s), " ") == s
    decreases |s|
  {
    hide Canonical, IsSpace, Fields, WordLength;
    var n := WordLength(s);
    if s == "" {
      assert Fields(s) == [] by { EmptyFields(); }
    } else if n == |s| {
      OneWord(s);
    } else {
      CanonicalTail(s, n);
      JoinOfFields(s[n + 1..]);
      FieldsStep(s, n);
      assert Fields(s)[1..] == Fields(s[n + 1..]);
      assert s == s[..n] + " " + s[n + 1..];
    }
  }

  lemma EmptyFields()
    ensures Fields("") == []
  {
  }

  /** The canonical texts are exactly the fixed points. */
  lemma FixedPoints(s: string)
    ensures NormalizeText(s) == s <==> Canonical(s)
  {
    NormalizeCanonical(s);
    if Canonical(s) {
      CleanOfKept(s);
      JoinOfFields(s);
    }
  }

  lemma NormalizeIdempotent(raw: string)
    ensures NormalizeText(NormalizeText(raw)) == NormalizeText(raw)
  {
    NormalizeCanonical(raw);
    FixedPoints(NormalizeText(raw));
  }

  /** Two texts have the same canonical form exactly when they have the same words. */
  lemma SameFormSameWords(a: string, b: string)
    ensures NormalizeText(a) == NormalizeText(b) <==> Fields(Clean(a)) == Fields(Clean(b))
  {
    CleanKeeps(a);
    CleanKeeps(b);
    FieldsAreWords(Clean(a));
    FieldsAreWords(Clean(b));
    FieldsOfJoin(Fields(Clean(a)));
    FieldsOfJoin(Fields(Clean(b)));
  }

  // ----- Sanitizing

  /** The two pattern lists are left open. */
  const LooksSecret: string -> bool
  const LooksLikeControl: string -> bool

  function Sanitize(raw: string, maxBytes: nat): Option<string> {
    var value := NormalizeText(raw);
    if value == "" || ByteLen(value) > maxBytes || LooksSecret(value) || LooksLikeControl(value) then None
    else Some(value)
  }

  /** What passed once passes again, unchanged. */
  lemma SanitizeIdempotent(raw: string, maxBytes: nat)
    requires Sanitize(raw, maxBytes).Some?
    ensures Sanitize(Sanitize(raw, maxBytes).value, maxBytes) == Sanitize(raw, maxBytes)
  {
    NormalizeIdempotent(raw);
  }
}

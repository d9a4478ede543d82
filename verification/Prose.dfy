/** Completing prose: blank descriptions of a keyed list are filled from proposals, and long text is
    clamped. */
module Prose {
  import opened Common

  // ----- Filling blank descriptions by key

  /** The last position of a key, as a map filled in list order remembers it. */
  function LastAt<K(==)>(keys: seq<K>, key: K): (r: Option<nat>)
    ensures r.Some? ==> r.value < |keys| && keys[r.value] == key && forall k | r.value < k < |keys| :: keys[k] != key
    ensures r.None? ==> key !in keys
  {
    if keys == [] then None
    else if keys[|keys| - 1] == key then Some(|keys| - 1)
    else LastAt(keys[..|keys| - 1], key)
  }

  function FillOne<K(==)>(keys: seq<K>, texts: seq<string>, key: K, text: string): (r: seq<string>)
    requires |keys| == |texts|
    ensures |r| == |texts|
  {
    match LastAt(keys, key)
    case None => texts
    case Some(p) => if TrimSpace(texts[p]) == "" then texts[p := text] else texts
  }

  function Fill<K(==)>(keys: seq<K>, texts: seq<string>, proposals: seq<(K, string)>): (r: seq<string>)
    requires |keys| == |texts|
    ensures |r| == |texts|
  {
    if proposals == [] then texts
    else
      var last := proposals[|proposals| - 1];
      FillOne(keys, Fill(keys, texts, proposals[..|proposals| - 1]), last.0, last.1)
  }

  /** What becomes of one text. */
  function FillText<K(==)>(key: K, text: string, proposals: seq<(K, string)>): string {
    if proposals == [] then text
    else
      var last := proposals[|proposals| - 1];
      var before := FillText(key, text, proposals[..|proposals| - 1]);
      if last.0 == key && TrimSpace(before) == "" then last.1 else before
  }

  lemma {:induction false} LastAtDistinct<K>(keys: seq<K>, p: nat)
    requires Distinct(keys) && p < |keys|
    ensures LastAt(keys, keys[p]) == Some(p)
  {
  }

  lemma {:induction false} FillPointwise<K>(keys: seq<K>, texts: seq<string>, proposals: seq<(K, string)>, p: nat)
    requires Distinct(keys) && |keys| == |texts| && p < |keys|
    ensures Fill(keys, texts, proposals)[p] == FillText(keys[p], texts[p], proposals)
  {
    hide TrimSpace;
    if proposals != [] {
      FillPointwise(keys, texts, proposals[..|proposals| - 1], p);
      LastAtDistinct(keys, p);
    }
  }

  lemma {:induction false} FilledStays<K>(key: K, text: string, proposals: seq<(K, string)>)
    requires TrimSpace(text) != ""
    ensures FillText(key, text, proposals) == text
  {
    hide TrimSpace;
    if proposals != [] {
      FilledStays(key, text, proposals[..|proposals| - 1]);
    }
  }

  predicate Mentions<K(==)>(key: K, proposals: seq<(K, string)>) {
    exists q :: q in proposals && q.0 == key
  }

  /** If nothing but blanks was offered, the last offer counts, whatever blank was there before. */
  lemma {:induction false} BlankFill<K>(key: K, a: string, b: string, proposals: seq<(K, string)>)
    requires TrimSpace(a) == "" && TrimSpace(b) == "" && TrimSpace(FillText(key, a, proposals)) == ""
    ensures FillText(key, b, proposals) == if Mentions(key, proposals) then FillText(key, a, proposals) else b
    ensures !Mentions(key, proposals) ==> FillText(key, a, proposals) == a
  {
    hide TrimSpace;
    if proposals != [] {
      var front, last := proposals[..|proposals| - 1], proposals[|proposals| - 1];
      assert forall q :: q in proposals <==> q in front || q == last;
      BlankFill(key, a, b, front);
    }
  }

  lemma FillTextIdempotent<K>(key: K, text: string, proposals: seq<(K, string)>)
    ensures FillText(key, FillText(key, text, proposals), proposals) == FillText(key, text, proposals)
  {
    hide TrimSpace;
    var once := FillText(key, text, proposals);
    if TrimSpace(once) != "" {
      FilledStays(key, once, proposals);
    } else if TrimSpace(text) != "" {
      FilledStays(key, text, proposals);
    } else {
      BlankFill(key, text, once, proposals);
    }
  }

  /** Filling a list twice from the same proposals is filling it once. */
  lemma FillIdempotent<K>(keys: seq<K>, texts: seq<string>, proposals: seq<(K, string)>)
    requires Distinct(keys) && |keys| == |texts|
    ensures Fill(keys, Fill(keys, texts, proposals), proposals) == Fill(keys, texts, proposals)
  {
    hide Fill, FillText, Distinct;
    var once := Fill(keys, texts, proposals);
    forall p | 0 <= p < |keys| ensures Fill(keys, once, proposals)[p] == once[p] {
      FillPointwise(keys, texts, proposals, p);
      FillPointwise(keys, once, proposals, p);
      FillTextIdempotent(keys[p], texts[p], proposals);
    }
  }

  lemma {:induction false} FillConcat<K>(keys: seq<K>, texts: seq<string>, p: seq<(K, string)>, q: seq<(K, string)>)
    requires |keys| == |texts|
    ensures Fill(keys, texts, p + q) == Fill(keys, Fill(keys, texts, p), q)
  {
    hide FillOne;
    if q == [] {
      assert p + q == p;
    } else {
      var n := |p + q| - 1;
      assert (p + q)[..n] == p + q[..|q| - 1] && (p + q)[n] == q[|q| - 1];
      FillConcat(keys, texts, p, q[..|q| - 1]);
    }
  }

  function Zip<K>(keys: seq<K>, texts: seq<string>): (r: seq<(K, string)>)
    requires |keys| == |texts|
    ensures |r| == |keys| && forall i | 0 <= i < |r| :: r[i] == (keys[i], texts[i])
  {
    seq(|keys|, i requires 0 <= i < |keys| => (keys[i], texts[i]))
  }

  function Blanks(n: nat): (r: seq<string>)
    ensures |r| == n && forall i | 0 <= i < n :: r[i] == ""
  {
    seq(n, _ => "")
  }

  lemma {:induction false} FillTextZip<K>(keys: seq<K>, texts: seq<string>, n: nat, p: nat)
    requires Distinct(keys) && |keys| == |texts| && n <= |keys| && p < |keys|
    ensures FillText(keys[p], "", Zip(keys, texts)[..n]) == if p < n then texts[p] else ""
  {
    hide TrimSpace;
    if n > 0 {
      FillTextZip(keys, texts, n - 1, p);
      assert Zip(keys, texts)[..n][..n - 1] == Zip(keys, texts)[..n - 1];
      assert TrimSpace("") == "" by { BlankTrims(""); }
    }
  }

  /** Taking over a list as it is amounts to filling blanks from it. */
  lemma AdoptIsFill<K>(keys: seq<K>, texts: seq<string>)
    requires Distinct(keys) && |keys| == |texts|
    ensures Fill(keys, Blanks(|keys|), Zip(keys, texts)) == texts
  {
    hide Fill, FillText, Distinct;
    forall p | 0 <= p < |keys| ensures Fill(keys, Blanks(|keys|), Zip(keys, texts))[p] == texts[p] {
      FillPointwise(keys, Blanks(|keys|), Zip(keys, texts), p);
      FillTextZip(keys, texts, |keys|, p);
      assert Zip(keys, texts)[..|keys|] == Zip(keys, texts);
    }
  }

  // ----- Clamping text

  const ELLIPSIS: char := '\U{2026}'

  /** strings.ReplaceAll(s, "\r\n", "\n"). */
  function JoinCrLf(s: string): string {
    if |s| >= 2 && s[0] == '\r' && s[1] == '\n' then ['\n'] + JoinCrLf(s[2..])
    else if s == "" then ""
    else [s[0]] + JoinCrLf(s[1..])
  }

  predicate HasCrLf(s: string) {
    exists i | 0 <= i < |s| - 1 :: s[i] == '\r' && s[i + 1] == '\n'
  }

  /** The longest prefix of whole characters within the limit. */
  function CutTo(s: string, limit: nat): (r: string)
    ensures r <= s && ByteLen(r) <= limit
  {
    if ByteLen(s) <= limit then s else CutTo(s[..|s| - 1], limit)
  }

  function Clamp(raw: string, limit: nat): (string, bool) {
    var collapsed := TrimSpace(JoinCrLf(raw));
    if ByteLen(collapsed) <= limit then (collapsed, false)
    else (TrimSpace(CutTo(collapsed, limit)) + [ELLIPSIS], true)
  }

  lemma BlankCons(c: char, s: string)
    ensures Blank([c] + s) <==> IsSpace(c) && Blank(s)
  {
    hide IsSpace;
    if Blank([c] + s) {
      assert ([c] + s)[0] == c && forall i | 0 <= i < |s| :: s[i] == ([c] + s)[i + 1];
    }
  }

  lemma LineEndsAreSpaces()
    ensures IsSpace('\r') && IsSpace('\n')
  {
  }

  lemma {:induction false} JoinCrLfBlank(s: string)
    ensures Blank(JoinCrLf(s)) <==> Blank(s)
    ensures !HasCrLf(s) ==> JoinCrLf(s) == s
  {
    hide Blank, IsSpace;
    if |s| >= 2 && s[0] == '\r' && s[1] == '\n' {
      JoinCrLfBlank(s[2..]);
      LineEndsAreSpaces();
      assert s == [s[0]] + ([s[1]] + s[2..]);
      BlankCons(s[0], [s[1]] + s[2..]);
      BlankCons(s[1], s[2..]);
      BlankCons('\n', JoinCrLf(s[2..]));
      assert HasCrLf(s);
    } else if s != "" {
      JoinCrLfBlank(s[1..]);
      assert s == [s[0]] + s[1..];
      BlankCons(s[0], s[1..]);
      BlankCons(s[0], JoinCrLf(s[1..]));
      if HasCrLf(s[1..]) {
        var i :| 0 <= i < |s[1..]| - 1 && s[1..][i] == '\r' && s[1..][i + 1] == '\n';
        assert s[i + 1] == '\r' && s[i + 2] == '\n';
      }
    }
  }

  /** Clamping never makes a text blank that was not, nor the other way round. */
  lemma ClampBlank(raw: string, limit: nat)
    ensures TrimSpace(Clamp(raw, limit).0) == "" <==> TrimSpace(raw) == ""
    ensures Trimmed(Clamp(raw, limit).0)
  {
    hide TrimSpace, CutTo, ByteLen, JoinCrLf;
    var collapsed := TrimSpace(JoinCrLf(raw));
    BlankTrims(raw);
    BlankTrims(JoinCrLf(raw));
    JoinCrLfBlank(raw);
    TrimSpaceTrims(JoinCrLf(raw));
    if ByteLen(collapsed) <= limit {
      TrimSpaceTrims(collapsed);
    } else {
      var cut := TrimSpace(CutTo(collapsed, limit));
      TrimSpaceTrims(CutTo(collapsed, limit));
      assert (cut + [ELLIPSIS])[|cut|] == ELLIPSIS;
      BlankTrims(cut + [ELLIPSIS]);
      assert collapsed != "" by { EmptyIsShort(); }
    }
  }

  lemma EmptyIsShort()
    ensures ByteLen("") == 0
  {
  }

  lemma {:induction false} PrefixIsShorter(s: string, n: nat)
    requires n <= |s|
    ensures ByteLen(s[..n]) <= ByteLen(s)
  {
    if n < |s| {
      PrefixIsShorter(s[..|s| - 1], n);
      assert s[..|s| - 1][..n] == s[..n];
    } else {
      assert s[..n] == s;
    }
  }

  /** A text that starts visibly only loses a tail to trimming. */
  lemma TrimOfVisibleStart(s: string)
    requires s == "" || !IsSpace(s[0])
    ensures TrimSpace(s) <= s
  {
    TrimRightKeepsStart(s);
  }

  lemma PartsHaveNoCrLf(s: string, i: nat, j: nat)
    requires !HasCrLf(s) && i <= j <= |s|
    ensures !HasCrLf(s[i..j])
  {
    var t := s[i..j];
    forall k | 0 <= k < |t| - 1 ensures !(t[k] == '\r' && t[k + 1] == '\n') {
      assert t[k] == s[i + k] && t[k + 1] == s[i + k + 1];
    }
  }

  lemma TrimIsAPart(s: string)
    ensures exists i, j :: 0 <= i <= j <= |s| && TrimSpace(s) == s[i..j]
  {
    TrimLeftDropsBlank(s);
    TrimRightDropsBlank(TrimLeft(s));
    var i := |s| - |TrimLeft(s)|;
    var j := i + |TrimSpace(s)|;
    assert TrimSpace(s) == s[i..j];
  }

  predicate HasCrCrLf(s: string) {
    exists i | 0 <= i < |s| - 2 :: s[i] == '\r' && s[i + 1] == '\r' && s[i + 2] == '\n'
  }

  lemma ConsHasCrLf(c: char, s: string)
    ensures HasCrLf([c] + s) <==> (c == '\r' && s != "" && s[0] == '\n') || HasCrLf(s)
  {
    var t := [c] + s;
    if HasCrLf(s) {
      var i :| 0 <= i < |s| - 1 && s[i] == '\r' && s[i + 1] == '\n';
      assert t[i + 1] == '\r' && t[i + 2] == '\n';
    }
    if c == '\r' && s != "" && s[0] == '\n' {
      assert t[0] == '\r' && t[0 + 1] == '\n';
    }
    if HasCrLf(t) {
      var i :| 0 <= i < |t| - 1 && t[i] == '\r' && t[i + 1] == '\n';
      assert i > 0 ==> s[i - 1] == '\r' && s[i - 1 + 1] == '\n';
    }
  }

  lemma ConsHasCrCrLf(c: char, s: string)
    ensures HasCrCrLf([c] + s) <==> (c == '\r' && |s| >= 2 && s[0] == '\r' && s[1] == '\n') || HasCrCrLf(s)
  {
    var t := [c] + s;
    if HasCrCrLf(s) {
      var i :| 0 <= i < |s| - 2 && s[i] == '\r' && s[i + 1] == '\r' && s[i + 2] == '\n';
      assert t[i + 1] == '\r' && t[i + 1 + 1] == '\r' && t[i + 1 + 2] == '\n';
    }
    if c == '\r' && |s| >= 2 && s[0] == '\r' && s[1] == '\n' {
      assert t[0] == '\r' && t[0 + 1] == '\r' && t[0 + 2] == '\n';
    }
    if HasCrCrLf(t) {
      var i :| 0 <= i < |t| - 2 && t[i] == '\r' && t[i + 1] == '\r' && t[i + 2] == '\n';
      assert i > 0 ==> s[i - 1] == '\r' && s[i - 1 + 1] == '\r' && s[i - 1 + 2] == '\n';
    }
  }

  /** Joining line ends leaves one behind exactly where two carriage returns come before a line feed, and
      it shortens every text that has a line end to join. */
  lemma {:induction false} JoinLeaves(s: string)
    ensures HasCrLf(JoinCrLf(s)) <==> HasCrCrLf(s)
    ensures |JoinCrLf(s)| <= |s| && (HasCrLf(s) ==> |JoinCrLf(s)| < |s|)
    ensures JoinCrLf(s) != "" && JoinCrLf(s)[0] == '\n' <==>
            (s != "" && s[0] == '\n') || (|s| >= 2 && s[0] == '\r' && s[1] == '\n')
  {
    hide HasCrLf, HasCrCrLf;
    if |s| >= 2 && s[0] == '\r' && s[1] == '\n' {
      JoinLeaves(s[2..]);
      assert s == [s[0]] + ([s[1]] + s[2..]);
      ConsHasCrLf('\n', JoinCrLf(s[2..]));
      ConsHasCrCrLf(s[0], [s[1]] + s[2..]);
      ConsHasCrCrLf(s[1], s[2..]);
    } else if s != "" {
      JoinLeaves(s[1..]);
      assert s == [s[0]] + s[1..];
      ConsHasCrLf(s[0], JoinCrLf(s[1..]));
      ConsHasCrLf(s[0], s[1..]);
      ConsHasCrCrLf(s[0], s[1..]);
    } else {
      NoLineEnds();
    }
  }

  lemma NoLineEnds()
    ensures !HasCrLf("") && !HasCrCrLf("")
  {
  }

  lemma SettledWithoutLineEnds(raw: string, limit: nat)
    ensures Clamp(Clamp(raw, limit).0, limit).0 == Clamp(raw, limit).0 <==> !HasCrLf(Clamp(raw, limit).0)
  {
    hide TrimSpace, CutTo, ByteLen, JoinCrLf, HasCrLf;
    var x := Clamp(raw, limit).0;
    if HasCrLf(x) {
      JoinLeaves(x);
      ClampShortens(x, limit);
    } else {
      ClampBlank(raw, limit);
      var c := TrimSpace(JoinCrLf(raw));
      if ByteLen(c) <= limit {
        ClampOfFitting(c, limit);
      } else {
        var cut := CutTo(c, limit);
        var t := TrimSpace(cut);
        TrimSpaceTrims(JoinCrLf(raw));
        TrimOfVisibleStart(cut);
        TrimSpaceTrims(cut);
        assert t == cut[..|t|] && t == x[0..|t|];
        PrefixIsShorter(cut, |t|);
        PartsHaveNoCrLf(x, 0, |t|);
        ClampOfClamped(t, limit);
      }
    }
  }

  lemma ClampShortens(x: string, limit: nat)
    requires |JoinCrLf(x)| < |x|
    ensures |Clamp(x, limit).0| < |x|
  {
    hide TrimSpace, ByteLen, JoinCrLf, CutTo;
    var c := TrimSpace(JoinCrLf(x));
    TrimSpaceTrims(JoinCrLf(x));
    if ByteLen(c) > limit {
      var cut := CutTo(c, limit);
      TrimSpaceTrims(cut);
      assert cut == c[..|cut|] && ByteLen(cut) <= limit;
      assert |cut| == |c| ==> c[..|cut|] == c;
    }
  }

  // ----- Joining line ends piece by piece

  predicate EndsCr(s: string) {
    s != "" && s[|s| - 1] == '\r'
  }

  predicate StartsLf(s: string) {
    s != "" && s[0] == '\n'
  }

  lemma JoinOne(c: char, s: string)
    requires !(c == '\r' && StartsLf(s))
    ensures JoinCrLf([c] + s) == [c] + JoinCrLf(s)
  {
    assert ([c] + s)[1..] == s;
  }

  lemma JoinLineEnd(s: string)
    ensures JoinCrLf(['\r', '\n'] + s) == ['\n'] + JoinCrLf(s)
  {
    assert (['\r', '\n'] + s)[2..] == s;
  }

  /** Texts are joined separately unless a line end lies across the seam. */
  lemma {:induction false} JoinAppend(a: string, b: string)
    requires !(EndsCr(a) && StartsLf(b))
    ensures JoinCrLf(a + b) == JoinCrLf(a) + JoinCrLf(b)
    decreases |a|
  {
    hide JoinCrLf;
    if a == "" {
      NothingToJoin();
      assert a + b == b;
    } else if |a| >= 2 && a[0] == '\r' && a[1] == '\n' {
      var rest := a[2..];
      assert a == ['\r', '\n'] + rest && a + b == ['\r', '\n'] + (rest + b);
      JoinLineEnd(rest);
      JoinLineEnd(rest + b);
      JoinAppend(rest, b);
    } else {
      var rest := a[1..];
      assert a == [a[0]] + rest && a + b == [a[0]] + (rest + b);
      JoinOne(a[0], rest);
      JoinOne(a[0], rest + b);
      JoinAppend(rest, b);
    }
  }

  lemma JoinLast(s: string)
    requires s != "" && !IsSpace(s[|s| - 1])
    ensures JoinCrLf(s) == JoinCrLf(s[..|s| - 1]) + [s[|s| - 1]]
  {
    LineEndsAreSpaces();
    hide IsSpace;
    var last := s[|s| - 1..];
    assert s == s[..|s| - 1] + last && last == [s[|s| - 1]];
    JoinAppend(s[..|s| - 1], last);
    assert last[1..] == "";
  }

  lemma {:induction false} TrimRightOf(m: string, r: string)
    requires m != "" && !IsSpace(m[|m| - 1]) && Blank(r)
    ensures TrimRight(m + r) == m
    decreases |r|
  {
    hide IsSpace;
    if r == "" {
      assert m + r == m;
    } else {
      assert (m + r)[..|m + r| - 1] == m + r[..|r| - 1];
      TrimRightOf(m, r[..|r| - 1]);
    }
  }

  lemma {:induction false} TrimLeftOf(l: string, m: string)
    requires m != "" && !IsSpace(m[0]) && Blank(l)
    ensures TrimLeft(l + m) == m
    decreases |l|
  {
    hide IsSpace;
    if l == "" {
      assert l + m == m;
    } else {
      assert (l + m)[1..] == l[1..] + m;
      TrimLeftOf(l[1..], m);
    }
  }

  /** Trimming and joining can be done in either order. */
  lemma TrimAfterJoin(s: string)
    ensures TrimSpace(JoinCrLf(s)) == JoinCrLf(TrimSpace(s))
  {
    var m := TrimSpace(s);
    var l, r := Surrounded(s);
    TrimSpaceTrims(s);
    JoinCrLfBlank(s);
    BlankTrims(s);
    BlankTrims(JoinCrLf(s));
    JoinCrLfBlank(l);
    JoinCrLfBlank(r);
    LineEndsAreSpaces();
    JoinLeaves(m);
    hide IsSpace, TrimSpace, JoinCrLf, Blank;
    if m == "" {
      NothingToJoin();
    } else {
      JoinAppend(l, m + r);
      JoinAppend(m, r);
      JoinLast(m);
      JoinFirst(m);
      var j := JoinCrLf(m);
      TrimOfSurrounded(JoinCrLf(l), j, JoinCrLf(r));
    }
  }

  lemma NothingToJoin()
    ensures JoinCrLf("") == ""
  {
  }

  lemma JoinFirst(s: string)
    requires s != "" && !IsSpace(s[0])
    ensures JoinCrLf(s) != "" && JoinCrLf(s)[0] == s[0]
  {
    LineEndsAreSpaces();
    hide IsSpace;
  }

  lemma TrimOfSurrounded(l: string, m: string, r: string)
    requires m != "" && !IsSpace(m[0]) && !IsSpace(m[|m| - 1]) && Blank(l) && Blank(r)
    ensures TrimSpace(l + (m + r)) == m
  {
    hide IsSpace;
    TrimLeftOf(l, m + r);
    TrimRightOf(m, r);
  }

  /** Every part of a joined text that ends visibly is the joined text of some part. */
  lemma {:induction false} JoinedPart(s: string, n: nat) returns (j: nat)
    requires 0 < n <= |JoinCrLf(s)| && !IsSpace(JoinCrLf(s)[n - 1])
    ensures j < |s| && s[j] == JoinCrLf(s)[n - 1] && JoinCrLf(s[..j + 1]) == JoinCrLf(s)[..n]
    decreases |s|
  {
    LineEndsAreSpaces();
    hide IsSpace;
    if |s| >= 2 && s[0] == '\r' && s[1] == '\n' {
      var k := JoinedPart(s[2..], n - 1);
      j := k + 2;
      assert s[..j + 1] == [s[0], s[1]] + s[2..][..k + 1];
      assert s[..j + 1][2..] == s[2..][..k + 1];
    } else if n == 1 {
      j := 0;
      assert s[..1][1..] == "";
    } else {
      var k := JoinedPart(s[1..], n - 1);
      j := k + 1;
      assert s[..j + 1][1..] == s[1..][..k + 1];
    }
  }

  /** The joined text of a part that ends visibly is a part of the joined text. */
  lemma PartOfJoined(s: string, j: nat)
    requires j < |s| && !IsSpace(s[j])
    ensures JoinCrLf(s[..j + 1]) <= JoinCrLf(s)
    ensures JoinCrLf(s[..j + 1]) != "" && !IsSpace(JoinCrLf(s[..j + 1])[|JoinCrLf(s[..j + 1])| - 1])
  {
    LineEndsAreSpaces();
    JoinLast(s[..j + 1]);
    hide IsSpace;
    assert s == s[..j + 1] + s[j + 1..];
    JoinAppend(s[..j + 1], s[j + 1..]);
  }

  // ----- When a clamped text stays as it is

  lemma {:induction false} CutIsLongest(s: string, limit: nat, u: string)
    requires u <= s && ByteLen(u) <= limit
    ensures u <= CutTo(s, limit)
  {
    if ByteLen(s) > limit {
      assert u != s;
      assert u == s[..|u|] && (|u| == |s| ==> u == s);
      CutIsLongest(s[..|s| - 1], limit, u);
    }
  }

  lemma {:induction false} TrimRightKeepsPart(s: string, u: string)
    requires u <= s && u != "" && !IsSpace(u[|u| - 1])
    ensures u <= TrimRight(s)
  {
    hide IsSpace;
    if IsSpace(s[|s| - 1]) {
      TrimRightKeepsPart(s[..|s| - 1], u);
    }
  }

  lemma TrimKeepsPart(s: string, u: string)
    requires u <= s && u != "" && !IsSpace(u[0]) && !IsSpace(u[|u| - 1])
    ensures u <= TrimSpace(s)
  {
    hide IsSpace, TrimRight;
    TrimRightKeepsPart(s, u);
  }

  lemma PartHasCrLf(s: string, u: string)
    requires u <= s && HasCrLf(u)
    ensures HasCrLf(s)
  {
    var i :| 0 <= i < |u| - 1 && u[i] == '\r' && u[i + 1] == '\n';
    assert s[i] == '\r' && s[i + 1] == '\n';
  }

  /** What clamping keeps of the joined text, without the mark it puts where it cuts. */
  function KeptPart(joined: string, limit: nat): string {
    if ByteLen(joined) <= limit then joined else TrimSpace(CutTo(joined, limit))
  }

  /** The longest part that is kept is any part that ends visibly within the limit. */
  lemma KeepsParts(c: string, limit: nat, u: string)
    requires Trimmed(c) && u <= c && u != "" && !IsSpace(u[|u| - 1]) && ByteLen(u) <= limit
    ensures u <= KeptPart(c, limit)
  {
    hide IsSpace, TrimSpace, ByteLen, CutTo;
    if ByteLen(c) > limit {
      CutIsLongest(c, limit, u);
      assert u[0] == c[0];
      TrimKeepsPart(CutTo(c, limit), u);
    }
  }

  lemma KeptIsAPart(c: string, limit: nat)
    requires Trimmed(c)
    ensures KeptPart(c, limit) <= c && Trimmed(KeptPart(c, limit)) && ByteLen(KeptPart(c, limit)) <= limit
  {
    hide IsSpace, TrimSpace, ByteLen, CutTo;
    if ByteLen(c) > limit {
      var cut := CutTo(c, limit);
      TrimOfVisibleStart(cut);
      TrimSpaceTrims(cut);
      PrefixIsShorter(cut, |TrimSpace(cut)|);
      assert TrimSpace(cut) == cut[..|TrimSpace(cut)|];
    }
  }

  lemma ClampedLineEnds(raw: string, limit: nat)
    ensures HasCrLf(Clamp(raw, limit).0) <==> HasCrLf(KeptPart(TrimSpace(JoinCrLf(raw)), limit))
  {
    hide TrimSpace, CutTo, ByteLen, JoinCrLf, HasCrLf;
    var c := TrimSpace(JoinCrLf(raw));
    if ByteLen(c) > limit {
      var t := KeptPart(c, limit);
      if HasCrLf(t) {
        PartHasCrLf(t + [ELLIPSIS], t);
      } else {
        EllipsisEndsNoCrLf(t);
      }
    }
  }

  /** Somewhere in the text two carriage returns come before a line feed, and a visible character after them
      is, once the line ends are joined, still within the limit. */
  predicate LineEndSurvives(s: string, limit: nat) {
    exists j | 0 <= j < |s| ::
      !IsSpace(s[j]) && HasCrCrLf(s[..j + 1]) && ByteLen(JoinCrLf(s[..j + 1])) <= limit
  }

  lemma KeptLineEnds(s: string, limit: nat)
    requires Trimmed(s)
    ensures Trimmed(JoinCrLf(s)) && (HasCrLf(KeptPart(JoinCrLf(s), limit)) <==> LineEndSurvives(s, limit))
  {
    JoinedIsTrimmed(s);
    hide IsSpace, TrimSpace, CutTo, ByteLen, JoinCrLf, HasCrLf, HasCrCrLf, KeptPart;
    var c := JoinCrLf(s);
    KeptIsAPart(c, limit);
    var t := KeptPart(c, limit);
    if HasCrLf(t) {
      NoLineEnds();
      assert t == c[..|t|] && t != "";
      var j := JoinedPart(s, |t|);
      JoinLeaves(s[..j + 1]);
      assert LineEndSurvives(s, limit);
    }
    if LineEndSurvives(s, limit) {
      var j :| 0 <= j < |s| && !IsSpace(s[j]) && HasCrCrLf(s[..j + 1]) && ByteLen(JoinCrLf(s[..j + 1])) <= limit;
      PartOfJoined(s, j);
      KeepsParts(c, limit, JoinCrLf(s[..j + 1]));
      JoinLeaves(s[..j + 1]);
      PartHasCrLf(t, JoinCrLf(s[..j + 1]));
    }
  }

  lemma JoinedIsTrimmed(s: string)
    requires Trimmed(s)
    ensures Trimmed(JoinCrLf(s))
  {
    hide IsSpace, TrimSpace, JoinCrLf;
    if s == "" {
      NothingToJoin();
    } else {
      JoinFirst(s);
      JoinLast(s);
    }
  }

  /** Clamping a clamped text again changes nothing if and only if no line end survives the first clamp:
      wherever the trimmed text has two carriage returns before a line feed, nothing visible after them is
      within the limit. Where the trimmed text fits, that is to have no such place at all. */
  lemma ClampSettles(raw: string, limit: nat)
    ensures Clamp(Clamp(raw, limit).0, limit).0 == Clamp(raw, limit).0
            <==> !LineEndSurvives(TrimSpace(raw), limit)
  {
    hide TrimSpace, CutTo, ByteLen, JoinCrLf, HasCrLf, LineEndSurvives, KeptPart;
    SettledWithoutLineEnds(raw, limit);
    ClampedLineEnds(raw, limit);
    TrimAfterJoin(raw);
    TrimSpaceTrims(raw);
    KeptLineEnds(TrimSpace(raw), limit);
  }

  /** For a text that fits the condition is plain. */
  lemma FittingSettles(raw: string, limit: nat)
    requires ByteLen(JoinCrLf(TrimSpace(raw))) <= limit
    ensures Clamp(Clamp(raw, limit).0, limit).0 == Clamp(raw, limit).0 <==> !HasCrCrLf(TrimSpace(raw))
  {
    hide TrimSpace, CutTo, ByteLen, JoinCrLf, HasCrLf, HasCrCrLf;
    SettledWithoutLineEnds(raw, limit);
    ClampedLineEnds(raw, limit);
    TrimAfterJoin(raw);
    JoinLeaves(TrimSpace(raw));
  }

  lemma PartHasCrCrLf(s: string, i: nat, j: nat)
    requires i <= j <= |s| && HasCrCrLf(s[i..j])
    ensures HasCrCrLf(s)
  {
    var t := s[i..j];
    var k :| 0 <= k < |t| - 2 && t[k] == '\r' && t[k + 1] == '\r' && t[k + 2] == '\n';
    assert s[i + k] == '\r' && s[i + k + 1] == '\r' && s[i + k + 2] == '\n';
  }

  /** In particular where the text to clamp has no two carriage returns before a line feed. */
  lemma ClampIdempotent(raw: string, limit: nat)
    requires !HasCrCrLf(raw)
    ensures Clamp(Clamp(raw, limit).0, limit).0 == Clamp(raw, limit).0
  {
    hide TrimSpace, Clamp, HasCrCrLf, IsSpace, ByteLen, JoinCrLf;
    ClampSettles(raw, limit);
    TrimIsAPart(raw);
    var s := TrimSpace(raw);
    var i, k :| 0 <= i <= k <= |raw| && s == raw[i..k];
    if LineEndSurvives(s, limit) {
      var j :| 0 <= j < |s| && !IsSpace(s[j]) && HasCrCrLf(s[..j + 1]) && ByteLen(JoinCrLf(s[..j + 1])) <= limit;
      assert s[..j + 1] == raw[i..i + j + 1];
      PartHasCrCrLf(raw, i, i + j + 1);
    }
  }

  /** Where it has, a second clamp may still join: "a\r\r\nb" becomes "a\r\nb" and then "a\nb". */
  lemma SecondClampJoins(a: char, b: char, limit: nat)
    requires !IsSpace(a) && !IsSpace(b) && limit >= ByteLen([a, '\r', '\n', b])
    ensures Clamp([a, '\r', '\r', '\n', b], limit).0 == [a, '\r', '\n', b]
    ensures Clamp([a, '\r', '\n', b], limit).0 != [a, '\r', '\n', b]
  {
    var raw, once := [a, '\r', '\r', '\n', b], [a, '\r', '\n', b];
    JoinOfThose(a, b);
    assert Trimmed(once);
    TrimSpaceTrims(once);
    assert once[1] == '\r' && once[1 + 1] == '\n';
    hide TrimSpace, CutTo, ByteLen, JoinCrLf;
    assert Clamp(raw, limit).0 == once;
    SettledWithoutLineEnds(raw, limit);
  }

  lemma JoinOfThose(a: char, b: char)
    requires !IsSpace(a) && !IsSpace(b)
    ensures JoinCrLf([a, '\r', '\r', '\n', b]) == [a, '\r', '\n', b]
  {
    LineEndsAreSpaces();
    hide IsSpace;
    var raw := [a, '\r', '\r', '\n', b];
    assert raw[1..] == ['\r', '\r', '\n', b] && ['\r', '\r', '\n', b][1..] == ['\r', '\n', b];
    assert ['\r', '\n', b][2..] == [b] && [b][1..] == "";
    assert JoinCrLf([b]) == [b];
    assert JoinCrLf(['\r', '\n', b]) == ['\n', b];
    assert JoinCrLf(['\r', '\r', '\n', b]) == ['\r', '\n', b];
  }

  lemma ClampOfFitting(c: string, limit: nat)
    requires !HasCrLf(c) && Trimmed(c) && ByteLen(c) <= limit
    ensures Clamp(c, limit).0 == c
  {
    hide TrimSpace, CutTo, ByteLen, JoinCrLf, HasCrLf;
    JoinCrLfBlank(c);
    TrimSpaceTrims(c);
  }

  lemma ClampOfClamped(t: string, limit: nat)
    requires !HasCrLf(t) && Trimmed(t) && ByteLen(t) <= limit
    ensures Clamp(t + [ELLIPSIS], limit).0 == t + [ELLIPSIS]
  {
    EllipsisIsText();
    hide TrimSpace, JoinCrLf, HasCrLf, IsSpace;
    var r := t + [ELLIPSIS];
    assert r[..|t|] == t && r[|t|] == ELLIPSIS;
    assert !HasCrLf(r) by { EllipsisEndsNoCrLf(t); }
    if ByteLen(r) <= limit {
      ClampOfFitting(r, limit);
    } else {
      JoinCrLfBlank(r);
      TrimSpaceTrims(r);
      TrimSpaceTrims(t);
      assert CutTo(t, limit) == t;
      assert CutTo(r, limit) == t;
    }
  }

  lemma EllipsisIsText()
    ensures !IsSpace(ELLIPSIS)
  {
  }

  lemma EllipsisEndsNoCrLf(t: string)
    requires !HasCrLf(t)
    ensures !HasCrLf(t + [ELLIPSIS])
  {
    var r := t + [ELLIPSIS];
    forall k | 0 <= k < |r| - 1 ensures !(r[k] == '\r' && r[k + 1] == '\n') {
      assert k + 1 < |t| ==> r[k] == t[k] && r[k + 1] == t[k + 1];
    }
  }
}

/** Values shared by every component: bytes, digests and the string helpers of the Go library
    that the modelled code calls. */
module Common {

  datatype Option<+T> = None | Some(value: T)

  newtype Byte = x: int | 0 <= x < 256
  type Bytes = seq<Byte>

  predicate IsHex(c: char) {
    '0' <= c <= '9' || 'a' <= c <= 'f'
  }

  /** The digest pattern: 64 lower-case hexadecimal digits. */
  predicate IsDigest(s: string) {
    |s| == 64 && forall i | 0 <= i < 64 :: IsHex(s[i])
  }

  type Digest = s: string | IsDigest(s) witness seq(64, _ => '0')

  /** SHA-256 in hexadecimal. It is left uninterpreted: nothing is assumed about it beyond the shape
      of its result, and in particular not that it is injective. */
  const Sha256: Bytes -> Digest

  /** An artifact id is the first 16 digits of its digest. */
  function IdOf(digest: string): string {
    if |digest| < 16 then digest else digest[..16]
  }

  // ----- Go's strings package

  /** unicode.IsSpace. */
  predicate IsSpace(c: char) {
    var n := c as int;
    || 0x09 <= n <= 0x0D || n == 0x20 || n == 0x85 || n == 0xA0 || n == 0x1680
    || 0x2000 <= n <= 0x200A || n == 0x2028 || n == 0x2029 || n == 0x202F || n == 0x205F || n == 0x3000
  }

  function TrimLeft(s: string): string {
    if s != "" && IsSpace(s[0]) then TrimLeft(s[1..]) else s
  }

  function TrimRight(s: string): string {
    if s != "" && IsSpace(s[|s| - 1]) then TrimRight(s[..|s| - 1]) else s
  }

  /** strings.TrimSpace. */
  function TrimSpace(s: string): string {
    TrimRight(TrimLeft(s))
  }

  /** A string that strings.TrimSpace leaves alone. */
  predicate Trimmed(s: string) {
    s != "" ==> !IsSpace(s[0]) && !IsSpace(s[|s| - 1])
  }

  lemma {:induction false} TrimLeftStarts(s: string)
    ensures TrimLeft(s) != "" ==> !IsSpace(TrimLeft(s)[0])
  {
    if s != "" && IsSpace(s[0]) {
      TrimLeftStarts(s[1..]);
    }
  }

  lemma {:induction false} TrimRightKeepsStart(s: string)
    ensures TrimRight(s) <= s
    ensures TrimRight(s) != "" ==> !IsSpace(TrimRight(s)[|TrimRight(s)| - 1])
  {
    if s != "" && IsSpace(s[|s| - 1]) {
      TrimRightKeepsStart(s[..|s| - 1]);
    }
  }

  lemma TrimSpaceTrims(s: string)
    ensures Trimmed(TrimSpace(s))
    ensures Trimmed(s) ==> TrimSpace(s) == s
    ensures |TrimSpace(s)| <= |s|
  {
    TrimLeftStarts(s);
    TrimRightKeepsStart(TrimLeft(s));
    TrimLeftShortens(s);
  }

  lemma {:induction false} TrimLeftShortens(s: string)
    ensures |TrimLeft(s)| <= |s|
  {
    if s != "" && IsSpace(s[0]) {
      TrimLeftShortens(s[1..]);
    }
  }

  /** strings.TrimSpace(s) == "". */
  predicate Blank(s: string) {
    forall i | 0 <= i < |s| :: IsSpace(s[i])
  }

  lemma {:induction false} BlankTrims(s: string)
    ensures TrimSpace(s) == "" <==> Blank(s)
  {
    TrimLeftDropsBlank(s);
    TrimRightDropsBlank(TrimLeft(s));
  }

  lemma {:induction false} TrimLeftDropsBlank(s: string)
    ensures Blank(TrimLeft(s)) <==> Blank(s)
    ensures |TrimLeft(s)| <= |s| && TrimLeft(s) == s[|s| - |TrimLeft(s)|..]
    ensures Blank(s[..|s| - |TrimLeft(s)|])
  {
    if s != "" && IsSpace(s[0]) {
      TrimLeftDropsBlank(s[1..]);
      var n := |s| - |TrimLeft(s)|;
      assert s[..n] == [s[0]] + s[1..][..n - 1];
      assert s == [s[0]] + s[1..];
    }
  }

  lemma {:induction false} TrimRightDropsBlank(s: string)
    ensures Blank(TrimRight(s)) <==> Blank(s)
    ensures TrimRight(s) <= s && Blank(s[|TrimRight(s)|..])
    ensures TrimRight(s) == "" <== Blank(s)
  {
    if s != "" && IsSpace(s[|s| - 1]) {
      TrimRightDropsBlank(s[..|s| - 1]);
      assert s == s[..|s| - 1] + [s[|s| - 1]];
    }
  }

  /** What trimming takes away is blank. */
  lemma Surrounded(s: string) returns (l: string, r: string)
    ensures s == l + (TrimSpace(s) + r) && Blank(l) && Blank(r)
  {
    TrimLeftDropsBlank(s);
    TrimRightDropsBlank(TrimLeft(s));
    l, r := s[..|s| - |TrimLeft(s)|], TrimLeft(s)[|TrimSpace(s)|..];
  }

  lemma {:induction false} TrimRightKeeps(s: string, c: char)
    requires c in s && !IsSpace(c)
    ensures c in TrimRight(s)
  {
    hide IsSpace;
    if IsSpace(s[|s| - 1]) {
      assert s == s[..|s| - 1] + [s[|s| - 1]];
      TrimRightKeeps(s[..|s| - 1], c);
    }
  }

  lemma {:induction false} TrimLeftKeeps(s: string, c: char)
    requires c in s && !IsSpace(c)
    ensures c in TrimLeft(s)
  {
    hide IsSpace;
    if IsSpace(s[0]) {
      assert s == [s[0]] + s[1..];
      TrimLeftKeeps(s[1..], c);
    }
  }

  function Lower(c: char): char {
    if 'A' <= c <= 'Z' then (c as int + 32) as char else c
  }

  function Upper(c: char): char {
    if 'a' <= c <= 'z' then (c as int - 32) as char else c
  }

  /** strings.ToLower on the ASCII letters. */
  function ToLower(s: string): (r: string)
    ensures |r| == |s|
  {
    seq(|s|, i requires 0 <= i < |s| => Lower(s[i]))
  }

  /** strings.ToUpper on the ASCII letters. */
  function ToUpper(s: string): (r: string)
    ensures |r| == |s|
  {
    seq(|s|, i requires 0 <= i < |s| => Upper(s[i]))
  }

  predicate IsLetter(c: char) {
    'a' <= c <= 'z' || 'A' <= c <= 'Z'
  }

  predicate IsDecimal(c: char) {
    '0' <= c <= '9'
  }

  /** The identifier pattern ^[A-Za-z][A-Za-z0-9_]*$. */
  predicate IsSymbol(s: string) {
    && s != ""
    && IsLetter(s[0])
    && forall i | 0 <= i < |s| :: IsLetter(s[i]) || IsDecimal(s[i]) || s[i] == '_'
  }

  /** Upper-casing and lower-casing identify the same names. */
  lemma FoldingAgrees(s: string, t: string)
    ensures ToLower(s) == ToLower(t) <==> ToUpper(s) == ToUpper(t)
  {
    if ToLower(s) == ToLower(t) {
      forall i | 0 <= i < |s| ensures Upper(s[i]) == Upper(t[i]) {
        assert ToLower(s)[i] == ToLower(t)[i];
      }
      assert ToUpper(s) == ToUpper(t);
    }
    if ToUpper(s) == ToUpper(t) {
      forall i | 0 <= i < |s| ensures Lower(s[i]) == Lower(t[i]) {
        assert ToUpper(s)[i] == ToUpper(t)[i];
      }
      assert ToLower(s) == ToLower(t);
    }
  }

  /** The bytes of a character in UTF-8. */
  function Utf8Size(c: char): nat {
    var n := c as int;
    if n < 0x80 then 1 else if n < 0x800 then 2 else if n < 0x1_0000 then 3 else 4
  }

  /** len of a string, in bytes. */
  function ByteLen(s: string): nat {
    if s == "" then 0 else ByteLen(s[..|s| - 1]) + Utf8Size(s[|s| - 1])
  }

  /** strings.Join. */
  function Join(parts: seq<string>, separator: string): string {
    if parts == [] then ""
    else if |parts| == 1 then parts[0]
    else parts[0] + separator + Join(parts[1..], separator)
  }

  // ----- Sequences and maps

  ghost predicate Distinct<T>(s: seq<T>) {
    forall i, j | 0 <= i < j < |s| :: s[i] != s[j]
  }

  lemma DistinctConcat<T>(a: seq<T>, b: seq<T>)
    ensures Distinct(a + b) <==> Distinct(a) && Distinct(b) && forall x | x in a :: x !in b
  {
    var s := a + b;
    if Distinct(s) {
      assert forall i | 0 <= i < |a| :: a[i] == s[i];
      assert forall j | 0 <= j < |b| :: b[j] == s[|a| + j];
    } else {
      var i, j :| 0 <= i < j < |s| && s[i] == s[j];
      if i < |a| <= j {
        assert a[i] in a && b[j - |a|] in b;
      } else if j < |a| {
        assert a[i] == a[j];
      } else {
        assert b[i - |a|] == b[j - |a|];
      }
    }
  }

  function Map<T, U>(f: T -> U, s: seq<T>): (r: seq<U>)
    ensures |r| == |s| && forall i | 0 <= i < |s| :: r[i] == f(s[i])
  {
    seq(|s|, i requires 0 <= i < |s| => f(s[i]))
  }

  lemma MapNext<T, U>(f: T -> U, s: seq<T>, i: nat)
    requires i < |s|
    ensures Map(f, s[..i + 1]) == Map(f, s[..i]) + [f(s[i])]
  {
  }

  /** Every entry of m is still there, unchanged, in n. */
  ghost predicate Extends<K, V>(m: map<K, V>, n: map<K, V>) {
    forall k | k in m :: k in n && n[k] == m[k]
  }
}

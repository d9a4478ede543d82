/** Cutting a text into chunks of at most so many runes, preferably after a space or a line break. */
module SplitText {

  predicate IsBreak(c: char) {
    c == '\n' || c == ' '
  }

  /** The greatest position in low < i <= high that follows a break, or 0. */
  function LastBreak(text: string, high: nat, low: nat): (i: nat)
    requires high <= |text|
    ensures i != 0 ==> low < i <= high && IsBreak(text[i - 1])
    ensures forall k | i <= k < high && low <= k :: !IsBreak(text[k])
  {
    if high <= low then 0
    else if IsBreak(text[high - 1]) then high
    else LastBreak(text, high - 1, low)
  }

  /** Where the first chunk ends. */
  function Cut(text: string, size: nat): (n: nat)
    requires text != "" && size > 0
    ensures 1 <= n <= |text| && n <= size
  {
    if |text| <= size then |text|
    else
      var at := LastBreak(text, size, size / 2);
      if at != 0 then at else size
  }

  function Split(text: string, size: nat): seq<string> {
    if text == "" || size == 0 then []
    else [text[..Cut(text, size)]] + Split(text[Cut(text, size)..], size)
  }

  method FindCut(runes: string, maxRunes: nat) returns (cut: nat)
    requires runes != "" && maxRunes > 0
    ensures cut == Cut(runes, maxRunes)
  {
    var n := if maxRunes < |runes| then maxRunes else |runes|;
    cut := n;
    if n < |runes| {
      var i := n;
      while i > n / 2
        invariant n / 2 <= i <= n && cut == n
        invariant LastBreak(runes, n, n / 2) == LastBreak(runes, i, n / 2)
      {
        if runes[i - 1] == '\n' || runes[i - 1] == ' ' {
          cut := i;
          break;
        }
        i := i - 1;
      }
    }
  }

  method SplitRunes(text: string, maxRunes: int) returns (result: seq<string>)
    ensures result == if maxRunes <= 0 then [] else Split(text, maxRunes)
  {
    hide Cut;
    if text == "" || maxRunes <= 0 {
      return [];
    }
    result := [];
    var runes := text;
    while |runes| > 0
      invariant Split(text, maxRunes) == result + Split(runes, maxRunes)
      decreases |runes|
    {
      var cut := FindCut(runes, maxRunes);
      result := result + [runes[..cut]];
      runes := runes[cut..];
    }
  }

  // ----- What the chunks are

  function Concat(parts: seq<string>): string {
    if parts == [] then "" else parts[0] + Concat(parts[1..])
  }

  /** The chunks are never empty, never too long, and together they are the text. */
  lemma {:induction false} SplitPartitions(text: string, size: nat)
    requires size > 0
    ensures Concat(Split(text, size)) == text
    ensures forall part | part in Split(text, size) :: 1 <= |part| <= size
    ensures text != "" <==> Split(text, size) != []
    decreases |text|
  {
    if text != "" {
      var n := Cut(text, size);
      SplitPartitions(text[n..], size);
      assert text == text[..n] + text[n..];
    }
  }

  /** A chunk that is cut short ends at a break, no later break would have fitted, and a word is cut only
      when the second half of the chunk holds no break. */
  lemma CutsAtBreaks(text: string, size: nat)
    requires size > 0 && |text| > size
    ensures forall k | Cut(text, size) <= k < size && size / 2 <= k :: !IsBreak(text[k])
    ensures !IsBreak(text[Cut(text, size) - 1]) ==>
              Cut(text, size) == size && forall k | size / 2 <= k < size :: !IsBreak(text[k])
  {
  }

  /** The chunks from the i-th on are those of the text that is left by then. */
  lemma {:induction false} SplitTail(text: string, size: nat, i: nat)
    requires size > 0 && i < |Split(text, size)|
    ensures Split(Concat(Split(text, size)[i..]), size) == Split(text, size)[i..]
    decreases i
  {
    hide Cut;
    if i == 0 {
      assert Split(text, size)[0..] == Split(text, size);
      SplitPartitions(text, size);
    } else {
      var rest := text[Cut(text, size)..];
      assert Split(text, size)[i..] == Split(rest, size)[i - 1..];
      SplitTail(rest, size, i - 1);
    }
  }

  /** What the first of several chunks is, next to the text it is cut from. */
  predicate EndsWell(part: string, left: string, size: nat) {
    && part != "" && part <= left && |part| <= size < |left|
    && (forall k | |part| <= k < size && size / 2 <= k :: !IsBreak(left[k]))
    && (IsBreak(part[|part| - 1]) || (|part| == size && forall k | size / 2 <= k < size :: !IsBreak(part[k])))
  }

  lemma FirstOfSeveral(text: string, size: nat)
    requires size > 0 && |Split(text, size)| > 1
    ensures EndsWell(Split(text, size)[0], text, size)
  {
    hide LastBreak, IsBreak;
    CutsAtBreaks(text, size);
  }

  /** Every chunk but the last ends at a break, or it has the full length and no break in its second half;
      and no later break of the text that was left would have fitted. */
  lemma ChunksEndAtBreaks(text: string, size: nat, i: nat)
    requires size > 0 && i + 1 < |Split(text, size)|
    ensures EndsWell(Split(text, size)[i], Concat(Split(text, size)[i..]), size)
  {
    hide Split, Concat, EndsWell;
    SplitTail(text, size, i);
    FirstOfSeveral(Concat(Split(text, size)[i..]), size);
  }

  lemma LastBreakLocal(text: string, more: string, high: nat, low: nat)
    requires high <= |text|
    ensures LastBreak(text + more, high, low) == LastBreak(text, high, low)
  {
  }

  lemma CutLocal(text: string, more: string, size: nat)
    requires size > 0 && |text| > size
    ensures Cut(text + more, size) == Cut(text, size)
  {
    LastBreakLocal(text, more, size, size / 2);
  }

  lemma OneChunk(text: string, size: nat)
    requires size > 0 && text != "" && |text| <= size
    ensures Split(text, size) == [text]
  {
    assert text[|text|..] == "" && text[..|text|] == text;
    assert Split("", size) == [];
  }

  /** A growing text keeps every chunk but its last one, and never has fewer chunks. */
  lemma {:induction false} SplitGrows(text: string, more: string, size: nat)
    requires size > 0
    ensures var before, after := Split(text, size), Split(text + more, size);
            && |before| <= |after|
            && forall i | 0 <= i < |before| - 1 :: before[i] == after[i]
    decreases |text|
  {
    hide Cut;
    if text == "" {
    } else if |text| <= size {
      OneChunk(text, size);
    } else {
      CutLocal(text, more, size);
      var n := Cut(text, size);
      assert (text + more)[n..] == text[n..] + more && (text + more)[..n] == text[..n];
      SplitGrows(text[n..], more, size);
    }
  }
}

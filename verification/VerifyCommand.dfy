/** The two texts the verify stage exchanges with the shell: a quoted word going in and an exit status
    coming out, each with the reader that has to undo it. */
module VerifyCommand {
  import opened Common

  // ----- Quoting one word

  /** strings.ReplaceAll of a single quote by: close, escaped quote, reopen. */
  function EscapeQuotes(raw: string): string {
    if raw == "" then ""
    else (if raw[0] == '\'' then "'\\''" else [raw[0]]) + EscapeQuotes(raw[1..])
  }

  function ShellQuote(raw: string): string {
    "'" + EscapeQuotes(raw) + "'"
  }

  /** How the shell reads words, by sections 2.2.1 (escape character) and 2.2.2 (single-quotes) of the
      POSIX.1-2017 Shell Command Language. An unquoted character with a meaning of its own is not a plain
      word any more; the reader stops there. */
  datatype Mode = Plain | Escaped | Quoted | Stopped

  /** `open` tells whether a word has begun; an empty pair of quotes begins one. */
  datatype Lexer = Lexer(mode: Mode, words: seq<string>, open: bool, current: string)

  const START := Lexer(Plain, [], false, "")

  predicate Special(c: char) {
    c in {'|', '&', ';', '<', '>', '(', ')', '$', '`', '"', '\n', '*', '?', '[', '#', '~', '=', '%'}
  }

  function Read(l: Lexer, c: char): Lexer {
    match l.mode
    case Stopped => l
    case Quoted =>
      if c == '\'' then l.(mode := Plain) else l.(current := l.current + [c])
    case Escaped =>
      if c == '\n' then l.(mode := Plain)
      else l.(mode := Plain, open := true, current := l.current + [c])
    case Plain =>
      if c == '\'' then l.(mode := Quoted, open := true)
      else if c == '\\' then l.(mode := Escaped)
      else if c == ' ' || c == '\t' then
        if l.open then l.(words := l.words + [l.current], open := false, current := "") else l
      else if Special(c) then l.(mode := Stopped)
      else l.(open := true, current := l.current + [c])
  }

  function ReadAll(l: Lexer, text: string): Lexer
    decreases text
  {
    if text == "" then l else ReadAll(Read(l, text[0]), text[1..])
  }

  /** The words of a text, or None where it is more than plain words or ends inside a quote. */
  function Words(text: string): Option<seq<string>> {
    var l := ReadAll(START, text);
    if !l.mode.Plain? then None else Some(if l.open then l.words + [l.current] else l.words)
  }

  lemma {:induction false} ReadTwo(l: Lexer, a: string, b: string)
    ensures ReadAll(l, a + b) == ReadAll(ReadAll(l, a), b)
    decreases a
  {
    if a == "" {
      assert a + b == b;
    } else {
      assert (a + b)[1..] == a[1..] + b;
      ReadTwo(Read(l, a[0]), a[1..], b);
    }
  }

  /** Inside the quotes every character is taken literally, the single quote through the detour. */
  lemma {:induction false} ReadEscaped(l: Lexer, raw: string)
    requires l.mode == Quoted && l.open
    ensures ReadAll(l, EscapeQuotes(raw)) == l.(current := l.current + raw)
    decreases raw
  {
    if raw == "" {
      assert l.current + raw == l.current;
    } else {
      var head := if raw[0] == '\'' then "'\\''" else [raw[0]];
      ReadTwo(l, head, EscapeQuotes(raw[1..]));
      ReadHead(l, raw[0]);
      ReadEscaped(l.(current := l.current + [raw[0]]), raw[1..]);
      assert l.current + [raw[0]] + raw[1..] == l.current + raw;
    }
  }

  lemma ReadHead(l: Lexer, c: char)
    requires l.mode == Quoted && l.open
    ensures ReadAll(l, if c == '\'' then "'\\''" else [c]) == l.(current := l.current + [c])
  {
    if c == '\'' {
      var s := "'\\''";
      assert s[1..][0] == '\\' && s[1..][1..][0] == '\'' && s[1..][1..][1..][0] == '\'' && s[1..][1..][1..][1..] == "";
      var l1 := Read(l, '\'');
      var l2 := Read(l1, '\\');
      var l3 := Read(l2, '\'');
      assert ReadAll(l, s) == ReadAll(l1, s[1..]) == ReadAll(l2, s[1..][1..]) == ReadAll(l3, s[1..][1..][1..]);
    } else {
      assert [c][1..] == "";
    }
  }

  /** Wherever a word may be read, a quoted text adds exactly itself to that word: nothing in it ends the
      word, starts another or has a meaning of its own. */
  lemma QuotedIsLiteral(l: Lexer, raw: string)
    requires l.mode == Plain
    ensures ReadAll(l, ShellQuote(raw)) == l.(open := true, current := l.current + raw)
  {
    var quoted := l.(mode := Quoted, open := true);
    var body := EscapeQuotes(raw) + "'";
    assert ShellQuote(raw) == "'" + body && ("'" + body)[1..] == body;
    ReadTwo(quoted, EscapeQuotes(raw), "'");
    ReadEscaped(quoted, raw);
    assert "'"[1..] == "";
  }

  /** Every text, quoted, is the single word it is. */
  lemma QuoteRoundTrip(raw: string)
    ensures Words(ShellQuote(raw)) == Some([raw])
  {
    QuotedIsLiteral(START, raw);
    assert "" + raw == raw && [] + [raw] == [raw];
  }

  lemma {:induction false} ReadPlain(l: Lexer, text: string)
    requires l.mode == Plain
    requires forall i | 0 <= i < |text| :: IsLetter(text[i]) || IsDecimal(text[i]) || text[i] == '-'
    ensures ReadAll(l, text) == l.(open := l.open || text != "", current := l.current + text)
    decreases text
  {
    if text == "" {
      assert l.current + text == l.current;
    } else {
      ReadPlain(Read(l, text[0]), text[1..]);
      assert l.current + [text[0]] + text[1..] == l.current + text;
    }
  }

  /** The first command of every script, whatever the directory is called: the program and one operand. */
  lemma CommandWithOperand(program: string, operand: string)
    requires program != ""
    requires forall i | 0 <= i < |program| :: IsLetter(program[i]) || IsDecimal(program[i]) || program[i] == '-'
    ensures Words(program + " " + ShellQuote(operand)) == Some([program, operand])
  {
    ReadTwo(START, program + " ", ShellQuote(operand));
    ReadTwo(START, program, " ");
    ReadPlain(START, program);
    assert "" + program == program && "" + operand == operand && " "[1..] == "" && [] + [program] == [program];
    assert [program] + [operand] == [program, operand];
    QuotedIsLiteral(Lexer(Plain, [program], false, ""), operand);
  }

  // ----- The exit status

  const MARKER := "qemu-agent-verify-exit:"

  /** What the shell's printf makes of a format with backslash-n and percent-d in it. */
  function Printf(format: string, code: nat): string {
    if format == "" then ""
    else if |format| > 1 && format[0] == '\\' && format[1] == 'n' then "\n" + Printf(format[2..], code)
    else if |format| > 1 && format[0] == '%' && format[1] == 'd' then Decimal(code) + Printf(format[2..], code)
    else [format[0]] + Printf(format[1..], code)
  }

  function Digit(n: nat): char
    requires n < 10
  {
    ('0' as int + n) as char
  }

  function Decimal(n: nat): string {
    if n < 10 then [Digit(n)] else Decimal(n / 10) + [Digit(n % 10)]
  }

  /** The format in the wrapper, without its quotes. */
  const FORMAT := "\\n" + MARKER + "%d\\n"

  /** Everything a wrapped command leaves on the output: its own output, then the status line. */
  function Printed(output: string, code: nat): string {
    output + Printf(FORMAT, code)
  }

  lemma {:induction false} PrintfPlain(s: string, rest: string, code: nat)
    requires '\\' !in s && '%' !in s
    ensures Printf(s + rest, code) == s + Printf(rest, code)
  {
    if s == "" {
      assert s + rest == rest;
    } else {
      assert (s + rest)[0] == s[0] && (s + rest)[1..] == s[1..] + rest;
      PrintfPlain(s[1..], rest, code);
    }
  }

  lemma PrintedIs(output: string, code: nat)
    ensures Printed(output, code) == output + ("\n" + (MARKER + (Decimal(code) + "\n")))
  {
    var tail := "%d\\n";
    assert tail[2..] == "\\n" && "\\n"[2..] == "";
    assert Printf(tail, code) == Decimal(code) + Printf("\\n", code);
    assert Printf("\\n", code) == "\n" + Printf("", code) == "\n";
    assert FORMAT[2..] == MARKER + tail;
    PrintfPlain(MARKER, tail, code);
  }

  // ----- Reading it back

  predicate OccursAt(text: string, sub: string, i: int) {
    0 <= i <= |text| - |sub| && text[i..i + |sub|] == sub
  }

  /** strings.LastIndex below a bound. */
  function LastIndexFrom(text: string, sub: string, i: int): (r: int)
    requires i <= |text|
    ensures r == -1 || OccursAt(text, sub, r)
    ensures forall k | r < k <= i :: !OccursAt(text, sub, k)
    decreases i + 1
  {
    if i < 0 then -1 else if OccursAt(text, sub, i) then i else LastIndexFrom(text, sub, i - 1)
  }

  function LastIndex(text: string, sub: string): (r: int)
    ensures r == -1 || OccursAt(text, sub, r)
    ensures forall k | r < k <= |text| :: !OccursAt(text, sub, k)
  {
    LastIndexFrom(text, sub, |text|)
  }

  /** strings.TrimRight(s, "\n"). */
  function TrimNewlines(s: string): (r: string)
    ensures r <= s && (forall i | |r| <= i < |s| :: s[i] == '\n') && (r != "" ==> r[|r| - 1] != '\n')
  {
    if s != "" && s[|s| - 1] == '\n' then TrimNewlines(s[..|s| - 1]) else s
  }

  function FirstLine(s: string): string {
    if s == "" || s[0] == '\n' then "" else [s[0]] + FirstLine(s[1..])
  }

  predicate AllDigits(s: string) {
    s != "" && forall i | 0 <= i < |s| :: IsDecimal(s[i])
  }

  function Value(s: string): nat
    requires forall i | 0 <= i < |s| :: IsDecimal(s[i])
  {
    if s == "" then 0
    else
      assert IsDecimal(s[|s| - 1]);
      10 * Value(s[..|s| - 1]) + (s[|s| - 1] as int - '0' as int)
  }

  const MAX_INT := 0x7FFF_FFFF_FFFF_FFFF

  /** strconv.Atoi with 64-bit integers. */
  function Atoi(s: string): Option<int> {
    var negative := s != "" && s[0] == '-';
    var digits := if s != "" && (s[0] == '-' || s[0] == '+') then s[1..] else s;
    if !AllDigits(digits) then None
    else
      var value: int := if negative then 0 - Value(digits) else Value(digits);
      if -MAX_INT - 1 <= value <= MAX_INT then Some(value) else None
  }

  /** The command's output, its exit code, and whether a status line was found. */
  function SplitExitMarker(raw: string): (string, int, bool) {
    var index := LastIndex(raw, MARKER);
    if index < 0 then (raw, 0, false)
    else
      var digits := FirstLine(TrimSpace(raw[index + |MARKER|..]));
      match Atoi(TrimSpace(digits))
      case None => (raw, 0, false)
      case Some(code) => (TrimNewlines(raw[..index]), code, true)
  }

  lemma {:induction false} DecimalDigits(n: nat)
    ensures AllDigits(Decimal(n)) && Value(Decimal(n)) == n
  {
    if n < 10 {
      assert Decimal(n)[..0] == "";
    } else {
      DecimalDigits(n / 10);
      assert Decimal(n)[..|Decimal(n)| - 1] == Decimal(n / 10);
    }
  }

  lemma AtoiOfDecimal(n: nat)
    requires n <= MAX_INT
    ensures Atoi(Decimal(n)) == Some(n)
  {
    DecimalDigits(n);
    assert IsDecimal(Decimal(n)[0]);
  }

  /** Nothing after the marker of the status line can be read as a marker: no colon follows it. */
  lemma MarkerIsLast(before: string, marker: string, digits: string)
    requires |marker| > 0 && marker[|marker| - 1] == ':' && AllDigits(digits)
    ensures LastIndex(before + (marker + (digits + "\n")), marker) == |before|
  {
    var raw := before + (marker + (digits + "\n"));
    assert raw[|before|..|before| + |marker|] == marker;
    assert OccursAt(raw, marker, |before|);
    var r := LastIndex(raw, marker);
    assert raw[r..r + |marker|][|marker| - 1] == raw[r + |marker| - 1];
    assert forall k | |before| + |marker| <= k < |raw| :: raw[k] == (digits + "\n")[k - |before| - |marker|];
    assert ':' !in digits + "\n";
  }

  lemma {:induction false} FirstLineOf(s: string)
    requires '\n' !in s
    ensures FirstLine(s) == s
  {
    if s != "" {
      FirstLineOf(s[1..]);
    }
  }

  lemma DigitsTrim(digits: string)
    requires AllDigits(digits)
    ensures TrimSpace(digits + "\n") == digits && TrimSpace(digits) == digits && FirstLine(digits) == digits
  {
    assert Trimmed(digits);
    TrimSpaceTrims(digits);
    FirstLineOf(digits);
    var s := digits + "\n";
    assert TrimLeft(s) == s && TrimLeft(digits) == digits;
    assert s[..|s| - 1] == digits && IsSpace('\n');
  }

  lemma TrimOneMore(s: string)
    ensures TrimNewlines(s + "\n") == TrimNewlines(s)
  {
    assert (s + "\n")[..|s|] == s;
  }

  /** Printer and reader undo each other: for every output, one that holds the marker included, and every
      exit code, the reader gives the code and the output without its trailing newlines. */
  lemma ExitRoundTrip(output: string, code: nat)
    requires code <= MAX_INT
    ensures SplitExitMarker(Printed(output, code)) == (TrimNewlines(output), code, true)
  {
    hide LastIndex, TrimSpace, FirstLine, TrimNewlines, Decimal, Atoi, Printed, AllDigits;
    var digits := Decimal(code);
    PrintedIs(output, code);
    DecimalDigits(code);
    Reassociate(output, MARKER, digits);
    var raw := Printed(output, code);
    MarkerIsLast(output + "\n", MARKER, digits) by {
      assert MARKER[|MARKER| - 1] == ':';
    }
    Pieces(output + "\n", MARKER, digits);
    DigitsTrim(digits);
    AtoiOfDecimal(code);
    TrimOneMore(output);
  }

  lemma Reassociate(output: string, marker: string, digits: string)
    ensures output + ("\n" + (marker + (digits + "\n"))) == output + "\n" + (marker + (digits + "\n"))
  {
  }

  lemma Pieces(before: string, marker: string, digits: string)
    ensures var raw := before + (marker + (digits + "\n"));
            raw[..|before|] == before && raw[|before| + |marker|..] == digits + "\n"
  {
  }
}

/** Single-quoted Dart string literals written by the organization app setup. */
module DartLiteral {
  import opened Wrappers

  /** `text.replaceAll(pattern, replacement)` for a one-character pattern. */
  function ReplaceAll(text: string, pattern: char, replacement: string): string {
    if text == "" then ""
    else (if text[0] == pattern then replacement else [text[0]]) + ReplaceAll(text[1..], pattern, replacement)
  }

  /** The chain of six replacements, in the order in which they are made. */
  function Escape(value: string): string {
    var backslash := ReplaceAll(value, '\\', "\\\\");
    var quote := ReplaceAll(backslash, '\'', "\\'");
    var dollar := ReplaceAll(quote, '$', "\\$");
    var newline := ReplaceAll(dollar, '\n', "\\n");
    var carriageReturn := ReplaceAll(newline, '\r', "\\r");
    ReplaceAll(carriageReturn, '\t', "\\t")
  }

  function Literal(value: string): string {
    "'" + Escape(value) + "'"
  }

  /** The escape of one character. */
  function EscapeChar(c: char): string {
    match c
    case '\\' => "\\\\"
    case '\'' => "\\'"
    case '$' => "\\$"
    case '\n' => "\\n"
    case '\r' => "\\r"
    case '\t' => "\\t"
    case _ => [c]
  }

  function EscapeEach(value: string): string {
    if value == "" then "" else EscapeChar(value[0]) + EscapeEach(value[1..])
  }

  lemma {:induction false} ReplaceAllSplits(a: string, b: string, pattern: char, replacement: string)
    ensures ReplaceAll(a + b, pattern, replacement) ==
      ReplaceAll(a, pattern, replacement) + ReplaceAll(b, pattern, replacement)
  {
    if a == "" {
      assert a + b == b;
    } else {
      ReplaceAllSplits(a[1..], b, pattern, replacement);
      assert (a + b)[0] == a[0] && (a + b)[1..] == a[1..] + b;
      var head := if a[0] == pattern then replacement else [a[0]];
      Associative(head, ReplaceAll(a[1..], pattern, replacement), ReplaceAll(b, pattern, replacement));
    }
  }

  lemma Associative(a: string, b: string, c: string)
    ensures a + (b + c) == (a + b) + c
  {
  }

  lemma EscapeSplits(a: string, b: string)
    ensures Escape(a + b) == Escape(a) + Escape(b)
  {
    hide ReplaceAll;
    var a1, b1 := ReplaceAll(a, '\\', "\\\\"), ReplaceAll(b, '\\', "\\\\");
    var a2, b2 := ReplaceAll(a1, '\'', "\\'"), ReplaceAll(b1, '\'', "\\'");
    var a3, b3 := ReplaceAll(a2, '$', "\\$"), ReplaceAll(b2, '$', "\\$");
    var a4, b4 := ReplaceAll(a3, '\n', "\\n"), ReplaceAll(b3, '\n', "\\n");
    var a5, b5 := ReplaceAll(a4, '\r', "\\r"), ReplaceAll(b4, '\r', "\\r");
    ReplaceAllSplits(a, b, '\\', "\\\\");
    ReplaceAllSplits(a1, b1, '\'', "\\'");
    ReplaceAllSplits(a2, b2, '$', "\\$");
    ReplaceAllSplits(a3, b3, '\n', "\\n");
    ReplaceAllSplits(a4, b4, '\r', "\\r");
    ReplaceAllSplits(a5, b5, '\t', "\\t");
  }

  lemma ReplaceOne(c: char, pattern: char, replacement: string)
    ensures ReplaceAll([c], pattern, replacement) == if c == pattern then replacement else [c]
  {
    assert [c][1..] == "";
  }

  lemma PairUntouched(x: char, y: char, pattern: char, replacement: string)
    requires pattern != x && pattern != y
    ensures ReplaceAll([x, y], pattern, replacement) == [x, y]
  {
    ReplaceOne(x, pattern, replacement);
    ReplaceOne(y, pattern, replacement);
    ReplaceAllSplits([x], [y], pattern, replacement);
    assert [x] + [y] == [x, y];
  }

  lemma EscapeOne(c: char)
    ensures Escape([c]) == EscapeChar(c)
  {
    hide ReplaceAll;
    var second := if c == '\n' then 'n' else if c == '\r' then 'r' else if c == '\t' then 't' else c;
    assert EscapeChar(c) == [c] || EscapeChar(c) == ['\\', second];
    var replacements := [('\\', "\\\\"), ('\'', "\\'"), ('$', "\\$"), ('\n', "\\n"), ('\r', "\\r"), ('\t', "\\t")];
    forall k | 0 <= k < |replacements|
      ensures
        var (pattern, text) := replacements[k];
        && ReplaceAll([c], pattern, text) == (if c == pattern then text else [c])
        && (pattern != '\\' && pattern != second ==> ReplaceAll(['\\', second], pattern, text) == ['\\', second])
    {
      var (pattern, text) := replacements[k];
      ReplaceOne(c, pattern, text);
      if pattern != '\\' && pattern != second {
        PairUntouched('\\', second, pattern, text);
      }
    }
    assert replacements[0].0 == '\\' && replacements[1].0 == '\'' && replacements[2].0 == '$';
    assert replacements[3].0 == '\n' && replacements[4].0 == '\r' && replacements[5].0 == '\t';
  }

  /** The chain does what one pass would: no replacement touches what another one wrote. */
  lemma {:induction false} ChainIsOnePass(value: string)
    ensures Escape(value) == EscapeEach(value)
  {
    hide Escape;
    if value == "" {
      assert Escape("") == "" by { EmptyEscape(); }
    } else {
      assert value == [value[0]] + value[1..];
      EscapeSplits([value[0]], value[1..]);
      EscapeOne(value[0]);
      ChainIsOnePass(value[1..]);
    }
  }

  lemma EmptyEscape()
    ensures Escape("") == ""
  {
  }

  // Reading a literal (Dart Language Specification, Strings). Interpolations are not plain
  // literals; hexadecimal escapes are not read.

  function EscapedChar(c: char): Option<char> {
    match c
    case 'n' => Some('\n')
    case 'r' => Some('\r')
    case 't' => Some('\t')
    case 'b' => Some(8 as char)
    case 'f' => Some(12 as char)
    case 'v' => Some(11 as char)
    case 'x' => None
    case 'u' => None
    case _ => if c == '\n' || c == '\r' then None else Some(c)
  }

  /** The value up to the closing quote, and the text after it. */
  function ReadBody(text: string): Option<(string, string)> {
    if text == "" || text[0] == '\n' || text[0] == '\r' || text[0] == '$' then None
    else if text[0] == '\'' then Some(("", text[1..]))
    else if text[0] == '\\' then
      if |text| < 2 then None
      else
        var c :- EscapedChar(text[1]);
        var (value, rest) :- ReadBody(text[2..]);
        Some(([c] + value, rest))
    else
      var (value, rest) :- ReadBody(text[1..]);
      Some(([text[0]] + value, rest))
  }

  /** Three quotes open a multi-line string, which is not read. */
  predicate OpensMultiLine(text: string) {
    |text| >= 3 && text[0] == text[1] == text[2] == '\''
  }

  function ReadLiteral(text: string): Option<(string, string)> {
    if text == "" || text[0] != '\'' || OpensMultiLine(text) then None else ReadBody(text[1..])
  }

  predicate Plain(c: char) {
    c != '\\' && c != '\'' && c != '$' && c != '\n' && c != '\r' && c != '\t'
  }

  lemma EscapeShape(c: char)
    ensures Plain(c) ==> EscapeChar(c) == [c]
    ensures !Plain(c) ==>
      |EscapeChar(c)| == 2 && EscapeChar(c)[0] == '\\' && EscapedChar(EscapeChar(c)[1]) == Some(c)
  {
  }

  lemma CharReadsBack(c: char, tail: string)
    requires ReadBody(tail).Some?
    ensures ReadBody(EscapeChar(c) + tail) == Some(([c] + ReadBody(tail).value.0, ReadBody(tail).value.1))
  {
    hide EscapeChar, EscapedChar;
    EscapeShape(c);
    var text := EscapeChar(c) + tail;
    assert text[|EscapeChar(c)|..] == tail;
  }

  lemma {:induction false} BodyReadsBack(value: string, end: string)
    requires ReadBody(end).Some? && ReadBody(end).value.0 == ""
    ensures ReadBody(EscapeEach(value) + end) == Some((value, ReadBody(end).value.1))
  {
    hide ReadBody, EscapeChar;
    if value == "" {
      assert EscapeEach(value) + end == end;
    } else {
      var tail := EscapeEach(value[1..]) + end;
      BodyReadsBack(value[1..], end);
      assert EscapeEach(value) + end == EscapeChar(value[0]) + tail;
      CharReadsBack(value[0], tail);
      assert [value[0]] + value[1..] == value;
    }
  }

  /**
   * Reading the literal gives back the value and ends exactly behind it, whatever the value and
   * whatever follows, except for an empty literal directly before another quote.
   */
  lemma LiteralReadsBack(value: string, rest: string)
    ensures ReadLiteral(Literal(value) + rest) == Some((value, rest)) <==>
      !(value == "" && rest != "" && rest[0] == '\'')
  {
    hide Escape, EscapeEach, ReadBody;
    ChainIsOnePass(value);
    OnlyEmptyOpensMultiLine(value, rest);
    var end := "'" + rest;
    assert end[1..] == rest && ReadBody(end) == Some(("", rest)) by { QuoteEnds(rest); }
    BodyReadsBack(value, end);
    assert (Literal(value) + rest)[1..] == EscapeEach(value) + end;
  }

  lemma QuoteEnds(rest: string)
    ensures ReadBody("'" + rest) == Some(("", rest))
  {
    assert ("'" + rest)[1..] == rest;
  }

  lemma OnlyEmptyOpensMultiLine(value: string, rest: string)
    ensures OpensMultiLine(Literal(value) + rest) <==> value == "" && rest != "" && rest[0] == '\''
  {
    hide Escape;
    var text := Literal(value) + rest;
    ChainIsOnePass(value);
    if value == "" {
      assert text == "''" + rest;
    } else {
      assert text[1] == EscapeChar(value[0])[0] != '\'';
    }
  }

  /** A literal stays on one line and has no raw tab. */
  lemma {:induction false} NoRawControls(value: string)
    ensures forall c | c in EscapeEach(value) :: c != '\n' && c != '\r' && c != '\t'
  {
    if value != "" {
      NoRawControls(value[1..]);
    }
  }
}

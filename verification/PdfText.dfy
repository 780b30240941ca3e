/** Text inside a content stream (`toAscii`, `escapePdfText`), and how section 7.3.4.2 of ISO 32000-1 reads it. */
module PdfText {
  import opened Options

  // Every character outside the printable ASCII range becomes a space.
  function ToAscii(s: string): (ascii: string)
    ensures |ascii| == |s|
  {
    seq(|s|, i requires 0 <= i < |s| => if ' ' <= s[i] <= '~' then s[i] else ' ')
  }

  // Every occurrence of one character replaced.
  function ReplaceAll(s: string, c: char, replacement: string): string {
    if s == "" then "" else (if s[0] == c then replacement else [s[0]]) + ReplaceAll(s[1..], c, replacement)
  }

  // The three replacements in their order; the backslashes they add must not be doubled again.
  function ThreePasses(s: string): string {
    ReplaceAll(ReplaceAll(ReplaceAll(s, '\\', "\\\\"), '(', "\\("), ')', "\\)")
  }

  function EscapePdfText(value: string): string {
    ThreePasses(ToAscii(value))
  }

  // A literal string after its opening parenthesis: the characters it denotes, and the text behind its closing
  // parenthesis.  Balanced parentheses may stand unescaped.  Only the escapes of the three special characters
  // are read; the others are never written.
  function ReadLiteral(s: string, depth: nat): Option<(string, string)> {
    if s == "" then None
    else if s[0] == '\\' then
      if |s| >= 2 && s[1] in "\\()" then
        var (text, rest) :- ReadLiteral(s[2..], depth);
        Some(([s[1]] + text, rest))
      else None
    else if s[0] == ')' && depth == 0 then Some(("", s[1..]))
    else
      var inner := if s[0] == '(' then depth + 1 else if s[0] == ')' then depth - 1 else depth;
      var (text, rest) :- ReadLiteral(s[1..], inner);
      Some(([s[0]] + text, rest))
  }

  // The escape of one character.
  function EscapeChar(c: char): string {
    if c in "\\()" then ['\\', c] else [c]
  }

  function EscapeOnce(s: string): string {
    if s == "" then "" else EscapeChar(s[0]) + EscapeOnce(s[1..])
  }

  lemma {:induction false} ReplaceFirst(x: char, rest: string, c: char, replacement: string)
    ensures ReplaceAll([x] + rest, c, replacement)
         == (if x == c then replacement else [x]) + ReplaceAll(rest, c, replacement)
    ensures ReplaceAll("", c, replacement) == ""
  {
  }

  lemma {:induction false} ReplaceConcat(a: string, b: string, c: char, replacement: string)
    ensures ReplaceAll(a + b, c, replacement) == ReplaceAll(a, c, replacement) + ReplaceAll(b, c, replacement)
  {
    hide ReplaceAll;
    if a == "" {
      assert a + b == b;
      ReplaceFirst(c, "", c, replacement);
    } else {
      ReplaceConcat(a[1..], b, c, replacement);
      ReplaceFirst(a[0], a[1..] + b, c, replacement);
      ReplaceFirst(a[0], a[1..], c, replacement);
      assert a + b == [a[0]] + (a[1..] + b) && a == [a[0]] + a[1..];
    }
  }

  lemma {:induction false} ReplaceInOne(x: char, c: char, replacement: string)
    ensures ReplaceAll([x], c, replacement) == if x == c then replacement else [x]
  {
  }

  lemma {:induction false} ReplaceInTwo(x: char, y: char, c: char, replacement: string)
    ensures ReplaceAll([x, y], c, replacement)
         == (if x == c then replacement else [x]) + (if y == c then replacement else [y])
  {
    assert [x, y] == [x] + [y];
    ReplaceConcat([x], [y], c, replacement);
    ReplaceInOne(x, c, replacement);
    ReplaceInOne(y, c, replacement);
  }

  lemma {:induction false} ThreePassesOnChar(c: char)
    ensures ThreePasses([c]) == EscapeChar(c)
  {
    hide ReplaceAll;
    assert "\\\\" == ['\\', '\\'] && "\\(" == ['\\', '('] && "\\)" == ['\\', ')'];
    ReplaceInOne(c, '\\', "\\\\");
    ReplaceInOne(c, '(', "\\(");
    ReplaceInOne(c, ')', "\\)");
    ReplaceInTwo('\\', '\\', '(', "\\(");
    ReplaceInTwo('\\', '\\', ')', "\\)");
    ReplaceInTwo('\\', '(', ')', "\\)");
    assert ['\\'] + ['\\'] == ['\\', '\\'] && ['\\'] + ['('] == ['\\', '('];
  }

  // Three passes over the text escape each character once.
  lemma {:induction false} ThreePassesAreOne(s: string)
    ensures ThreePasses(s) == EscapeOnce(s)
  {
    if s != "" {
      ThreePassesAreOne(s[1..]);
      ThreePassesOnChar(s[0]);
      var a := ReplaceAll([s[0]], '\\', "\\\\");
      var b := ReplaceAll(a, '(', "\\(");
      var rest := s[1..];
      assert s == [s[0]] + rest;
      ReplaceConcat([s[0]], rest, '\\', "\\\\");
      ReplaceConcat(a, ReplaceAll(rest, '\\', "\\\\"), '(', "\\(");
      ReplaceConcat(b, ReplaceAll(ReplaceAll(rest, '\\', "\\\\"), '(', "\\("), ')', "\\)");
    }
  }

  lemma {:induction false} EscapedIsRead(s: string, rest: string)
    ensures ReadLiteral(EscapeOnce(s) + ")" + rest, 0) == Some((s, rest))
  {
    hide ReadLiteral, EscapeChar;
    if s == "" {
      assert EscapeOnce(s) + ")" + rest == ")" + rest;
      LiteralEnds(rest);
    } else {
      EscapedIsRead(s[1..], rest);
      var text := EscapeOnce(s[1..]) + ")" + rest;
      assert EscapeOnce(s) + ")" + rest == EscapeChar(s[0]) + text;
      CharIsRead(s[0], text);
      assert [s[0]] + s[1..] == s;
    }
  }

  lemma {:induction false} LiteralEnds(rest: string)
    ensures ReadLiteral(")" + rest, 0) == Some(("", rest))
  {
    assert (")" + rest)[1..] == rest;
  }

  lemma {:induction false} CharIsRead(c: char, text: string)
    requires ReadLiteral(text, 0).Some?
    ensures var (inner, rest) := ReadLiteral(text, 0).value;
            ReadLiteral(EscapeChar(c) + text, 0) == Some(([c] + inner, rest))
  {
    assert (EscapeChar(c) + text)[|EscapeChar(c)|..] == text;
  }

  // Whatever the text and whatever follows it, a reader of the drawing command gets the printable text back.
  lemma {:induction false} TextRoundTrip(value: string, rest: string)
    ensures ReadLiteral(EscapePdfText(value) + ")" + rest, 0) == Some((ToAscii(value), rest))
  {
    ThreePassesAreOne(ToAscii(value));
    EscapedIsRead(ToAscii(value), rest);
  }

  // Escaped text holds no line end, so a command stays on its line.
  lemma {:induction false} EscapedIsOneLine(value: string)
    ensures '\n' !in EscapePdfText(value)
  {
    ThreePassesAreOne(ToAscii(value));
    NoLineEnd(ToAscii(value));
  }

  lemma {:induction false} NoLineEnd(s: string)
    requires '\n' !in s
    ensures '\n' !in EscapeOnce(s)
  {
    if s != "" { NoLineEnd(s[1..]); }
  }
}

/** Texts by their structure: plain characters, quoted literals, and balanced groups. What the scanners do on
    a printed text is stated in terms of the structure it was printed from. */
module VTabGrammar {
  import opened VTabText

  datatype Text =
    | End
    | Char(c: char, rest: Text)
    | Literal(open: char, body: string, rest: Text)
    | Group(inner: Text, rest: Text)

  /** Close characters inside a literal are doubled. */
  function Escape(body: string, close: char): string {
    if body == "" then ""
    else if body[0] == close then [close, close] + Escape(body[1..], close)
    else [body[0]] + Escape(body[1..], close)
  }

  function PrintLiteral(open: char, body: string): string {
    [open] + Escape(body, QuoteClose(open)) + [QuoteClose(open)]
  }

  function Print(t: Text): string {
    match t
    case End => ""
    case Char(c, rest) => [c] + Print(rest)
    case Literal(open, body, rest) => PrintLiteral(open, body) + Print(rest)
    case Group(inner, rest) => "(" + Print(inner) + ")" + Print(rest)
  }

  predicate StartsWith(s: string, c: char) { s != "" && s[0] == c }

  /** No stray quotes or parentheses, and no literal is directly followed by its own close character. `after`
      is what comes behind the text. */
  predicate Proper(t: Text, after: string) {
    match t
    case End => true
    case Char(c, rest) => !IsQuoteOpen(c) && c != '(' && c != ')' && Proper(rest, after)
    case Literal(open, body, rest) =>
      IsQuoteOpen(open) && !StartsWith(Print(rest) + after, QuoteClose(open)) && Proper(rest, after)
    case Group(inner, rest) => Proper(inner, ")" + Print(rest) + after) && Proper(rest, after)
  }

  // ---------------------------------------------------------------- literals

  lemma {:induction false} TailOfEscaped(body: string, close: char, t: string)
    requires !StartsWith(t, close)
    ensures LiteralTailLen(Escape(body, close) + [close] + t, close) == |Escape(body, close)| + 1
  {
    var s := Escape(body, close) + [close] + t;
    if body == "" {
      assert s == [close] + t;
      assert |s| > 1 ==> s[1] == t[0];
    } else {
      TailOfEscaped(body[1..], close, t);
      var u := Escape(body[1..], close) + [close] + t;
      if body[0] == close {
        assert s[2..] == u;
      } else {
        assert s[1..] == u;
      }
    }
  }

  /** skip_quoted consumes a printed literal whole, whatever its body, unless its close character follows. */
  lemma LiteralIsSkipped(open: char, body: string, t: string)
    requires IsQuoteOpen(open) && !StartsWith(t, QuoteClose(open))
    ensures QuotedLen(PrintLiteral(open, body) + t) == |PrintLiteral(open, body)|
  {
    var close := QuoteClose(open);
    var s := PrintLiteral(open, body) + t;
    assert s[1..] == Escape(body, close) + [close] + t;
    TailOfEscaped(body, close, t);
  }

  // ---------------------------------------------------------------- groups

  lemma LiteralInside(open: char, body: string, t: string, depth: nat)
    requires IsQuoteOpen(open) && !StartsWith(t, QuoteClose(open)) && depth > 0
    ensures NestedLen(PrintLiteral(open, body) + t, depth) == |PrintLiteral(open, body)| + NestedLen(t, depth)
  {
    var s := PrintLiteral(open, body) + t;
    assert s[0] == open;
    hide PrintLiteral, QuotedLen;
    LiteralIsSkipped(open, body, t);
    NestedStep(s, 0, depth);
    assert s[0..] == s && s[QuotedLen(s)..] == t;
  }

  lemma CharInside(c: char, t: string, depth: nat)
    requires !IsQuoteOpen(c) && depth > 0
    ensures NestedLen([c] + t, depth)
         == 1 + NestedLen(t, if c == '(' then depth + 1 else if c == ')' then depth - 1 else depth)
  {
    hide NestedLen, IsQuoteOpen;
    var s := [c] + t;
    NestedStep(s, 0, depth);
    assert s[0..] == s && s[1..] == t;
  }

  /** Inside parentheses a proper text is consumed whole, and the scan goes on behind it at the same depth. */
  lemma {:induction false} TextIsSkipped(t: Text, after: string, depth: nat)
    requires Proper(t, after) && depth > 0
    ensures NestedLen(Print(t) + after, depth) == |Print(t)| + NestedLen(after, depth)
    decreases t, 1
  {
    hide NestedLen, PrintLiteral;
    match t
    case End =>
      assert Print(t) + after == after;
    case Char(c, rest) =>
      assert Print(t) + after == [c] + (Print(rest) + after);
      CharInside(c, Print(rest) + after, depth);
      TextIsSkipped(rest, after, depth);
    case Literal(open, body, rest) =>
      assert Print(t) + after == PrintLiteral(open, body) + (Print(rest) + after);
      LiteralInside(open, body, Print(rest) + after, depth);
      TextIsSkipped(rest, after, depth);
    case Group(inner, rest) =>
      GroupInside(inner, rest, after, depth);
  }

  lemma {:induction false} GroupInside(inner: Text, rest: Text, after: string, depth: nat)
    requires Proper(Group(inner, rest), after) && depth > 0
    ensures NestedLen(Print(Group(inner, rest)) + after, depth)
         == |Print(Group(inner, rest))| + NestedLen(after, depth)
    decreases Group(inner, rest), 0
  {
    hide NestedLen, PrintLiteral;
    var r := Print(rest) + after;
    var close := ")" + Print(rest) + after;
    assert close == [')'] + r;
    assert Print(Group(inner, rest)) + after == ['('] + (Print(inner) + close);
    CharInside('(', Print(inner) + close, depth);
    TextIsSkipped(inner, close, depth + 1);
    CharInside(')', r, depth + 1);
    TextIsSkipped(rest, after, depth);
  }

  /** skip_parenthesized stops exactly past the parenthesis that matches the first one. */
  lemma GroupIsSkipped(inner: Text, t: string)
    requires Proper(inner, ")" + t)
    ensures ParenthesizedLen("(" + Print(inner) + ")" + t) == |Print(inner)| + 2
  {
    hide NestedLen, Print;
    var s := "(" + Print(inner) + ")" + t;
    assert s[1..] == Print(inner) + (")" + t);
    TextIsSkipped(inner, ")" + t, 1);
    CharInside(')', t, 1);
    assert ")" + t == [')'] + t;
    NestedDone(t, 0);
  }
}

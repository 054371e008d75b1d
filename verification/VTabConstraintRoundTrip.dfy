/** Printing a table constraint, with quoted and with bare names, and parsing it again. */
module VTabConstraintRoundTrip {
  import opened Wrappers
  import opened VTabText
  import opened VTabGrammar
  import opened VTabKeywords
  import opened VTabSpelling
  import opened VTabColumn
  import opened VTabConstraint
  import opened VTabArg

  /** A name as it is written: in a pair of quotes, or bare. */
  datatype Name = Quoted(open: char, body: string) | Bare(word: string)

  /** A column of a list: spaces, the name, and what is said of its order or collation. */
  datatype Listed = Listed(before: string, name: Name, order: string)

  predicate IsPlainChar(c: char) { !IsQuoteOpen(c) && c != '(' && c != ')' }

  predicate Plain(s: string) { forall i | 0 <= i < |s| :: IsPlainChar(s[i]) }

  predicate Unlisted(s: string) { Plain(s) && forall i | 0 <= i < |s| :: s[i] != ',' }

  predicate NotSpaced(s: string) { forall i | 0 <= i < |s| :: !IsSpace(s[i]) }

  /** A column name: anything at all in quotes, or a word without spaces, commas, quotes and parentheses. */
  predicate ValidName(n: Name) {
    match n
    case Quoted(open, body) => IsQuoteOpen(open) && body != ""
    case Bare(word) => word != "" && NotSpaced(word) && Unlisted(word)
  }

  predicate ValidListed(c: Listed) {
    && AllSpaces(c.before) && ValidName(c.name)
    && Unlisted(c.order) && (c.order != "" ==> IsSpace(c.order[0]))
  }

  predicate AllValid(cs: seq<Listed>) { forall i | 0 <= i < |cs| :: ValidListed(cs[i]) }

  lemma FrontAndRestValid(cs: seq<Listed>)
    requires AllValid(cs) && cs != []
    ensures ValidListed(cs[0]) && AllValid(cs[1..])
  {
  }

  function PrintName(n: Name): string {
    match n
    case Quoted(open, body) => PrintLiteral(open, body)
    case Bare(word) => word
  }

  /** What a parser that strips quotes, but does not undo doubled ones, can see of the name. */
  function Visible(n: Name): string {
    match n
    case Quoted(open, body) => Escape(body, QuoteClose(open))
    case Bare(word) => word
  }

  function PrintListed(c: Listed): string { c.before + PrintName(c.name) + c.order }

  function PrintColumns(cs: seq<Listed>): string {
    if cs == [] then ""
    else if |cs| == 1 then PrintListed(cs[0])
    else PrintListed(cs[0]) + "," + PrintColumns(cs[1..])
  }

  function AllVisible(cs: seq<Listed>): seq<string> {
    seq(|cs|, i requires 0 <= i < |cs| => Visible(cs[i].name))
  }

  /** What stands in front of the group: `[CONSTRAINT name] KEYWORD` and spaces, in any case. */
  datatype Head = Head(intro: string, name: Option<Name>, word: string, gap: string)

  predicate SpellsKind(word: string, kind: Kind) {
    match kind
    case PrimaryKey => Spells(word, "PRIMARY KEY") || Spells(word, "PRIMARY_KEY")
    case Unique => Spells(word, "UNIQUE")
    case Check => Spells(word, "CHECK")
    case ForeignKey => Spells(word, "FOREIGN KEY")
    case Unknown => false
  }

  /** A constraint name: anything in quotes, or a word without spaces and '('. */
  predicate IsConstraintName(n: Name) {
    match n
    case Quoted(open, _) => IsQuoteOpen(open)
    case Bare(word) => word != "" && !IsQuoteOpen(word[0]) && NotSpaced(word) && '(' !in word
  }

  predicate ValidHead(h: Head, kind: Kind) {
    && SpellsKind(h.word, kind) && AllSpaces(h.gap)
    && (h.name.Some? ==> Spells(h.intro, "CONSTRAINT") && IsConstraintName(h.name.value))
  }

  function VisibleName(h: Head): string { if h.name.Some? then Visible(h.name.value) else "" }

  /** The head, the group with its contents, and whatever follows. */
  function PrintConstraint(h: Head, contents: string, behind: string): string {
    (if h.name.Some? then h.intro + " " + PrintName(h.name.value) + " " else "")
    + (h.word + h.gap + "(" + contents + ")" + behind)
  }

  // ---------------------------------------------------------------- the column list as a text

  function Chars(s: string, rest: Text): Text { if s == "" then rest else Char(s[0], Chars(s[1..], rest)) }

  function NameText(n: Name, rest: Text): Text {
    match n
    case Quoted(open, body) => Literal(open, body, rest)
    case Bare(word) => Chars(word, rest)
  }

  function ListedText(c: Listed, rest: Text): Text { Chars(c.before, NameText(c.name, Chars(c.order, rest))) }

  function ColumnsText(cs: seq<Listed>): Text {
    if cs == [] then End
    else if |cs| == 1 then ListedText(cs[0], End)
    else ListedText(cs[0], Char(',', ColumnsText(cs[1..])))
  }

  lemma {:induction false} CharsPrint(s: string, rest: Text, after: string)
    requires Plain(s) && Proper(rest, after)
    ensures Print(Chars(s, rest)) == s + Print(rest) && Proper(Chars(s, rest), after)
  {
    hide IsQuoteOpen;
    if s == "" {
      assert s + Print(rest) == Print(rest);
    } else {
      CharsPrint(s[1..], rest, after);
      assert s == [s[0]] + s[1..];
      assert IsPlainChar(s[0]);
    }
  }

  lemma SpacesArePlain(s: string)
    requires AllSpaces(s)
    ensures Unlisted(s)
  {
  }

  /** No close character of quotes is a space, a comma or a parenthesis. */
  lemma OrderIsNoClose(order: string, t: string, open: char)
    requires IsQuoteOpen(open) && (order != "" ==> IsSpace(order[0])) && (t == "" || t[0] == ',' || t[0] == ')')
    ensures !StartsWith(order + t, QuoteClose(open))
  {
  }

  lemma ListedPrints(c: Listed, rest: Text, after: string)
    requires ValidListed(c) && Proper(rest, after)
    requires var t := Print(rest) + after; t == "" || t[0] == ',' || t[0] == ')'
    ensures Print(ListedText(c, rest)) == PrintListed(c) + Print(rest) && Proper(ListedText(c, rest), after)
  {
    hide PrintLiteral, Chars, IsSpace, IsQuoteOpen, Print, Proper, StartsWith, IsPlainChar;
    var tail := Chars(c.order, rest);
    CharsPrint(c.order, rest, after);
    var middle := NameText(c.name, tail);
    assert Print(middle) == PrintName(c.name) + (c.order + Print(rest)) && Proper(middle, after) by {
      match c.name
      case Quoted(open, body) =>
        OrderIsNoClose(c.order, Print(rest) + after, open);
        assert Print(tail) + after == c.order + (Print(rest) + after);
        LiteralPrints(open, body, tail, after);
      case Bare(word) =>
        CharsPrint(word, tail, after);
    }
    SpacesArePlain(c.before);
    CharsPrint(c.before, middle, after);
    assert PrintListed(c) + Print(rest) == c.before + (PrintName(c.name) + (c.order + Print(rest)));
  }

  lemma LiteralPrints(open: char, body: string, rest: Text, after: string)
    requires IsQuoteOpen(open) && Proper(rest, after) && !StartsWith(Print(rest) + after, QuoteClose(open))
    ensures Print(Literal(open, body, rest)) == PrintLiteral(open, body) + Print(rest)
    ensures Proper(Literal(open, body, rest), after)
  {
    hide PrintLiteral;
  }

  lemma {:induction false} ColumnsTextPrints(cs: seq<Listed>, after: string)
    requires AllValid(cs) && after != "" && after[0] == ')'
    ensures Print(ColumnsText(cs)) == PrintColumns(cs) && Proper(ColumnsText(cs), after)
  {
    hide PrintListed, ListedText, AllValid, ValidListed;
    if cs != [] { FrontAndRestValid(cs); }
    if |cs| == 1 {
      ListedPrints(cs[0], End, after);
      assert PrintListed(cs[0]) + "" == PrintListed(cs[0]);
    } else if |cs| > 1 {
      ColumnsTextPrints(cs[1..], after);
      var rest := Char(',', ColumnsText(cs[1..]));
      assert Print(rest) == "," + Print(ColumnsText(cs[1..])) && Proper(rest, after);
      ListedPrints(cs[0], rest, after);
      assert PrintListed(cs[0]) + ("," + PrintColumns(cs[1..])) == PrintListed(cs[0]) + "," + PrintColumns(cs[1..]);
    }
  }

  // ---------------------------------------------------------------- the parenthesis scan

  /** What follows when the front of the rest of a text is known. */
  lemma Front(s: string, i: nat, a: string, b: string)
    requires i <= |s| && s[i..] == a + b
    ensures i + |a| <= |s| && s[i + |a|..] == b && (a != "" ==> s[i] == a[0])
  {
    assert |s[i..]| == |a| + |b|;
    assert s[i + |a|..] == s[i..][|a|..];
    if a != "" { assert s[i] == s[i..][0]; }
  }

  lemma CharIsPassed(s: string, i: nat, level: int, open: nat, c: char, r: string)
    requires i <= |s| && s[i..] == [c] + r && !IsQuoteOpen(c) && c != '(' && c != ')'
    ensures i + 1 <= |s| && s[i + 1..] == r
    ensures FindGroup(s, i, level, Some(open)) == FindGroup(s, i + 1, level, Some(open))
  {
    hide FindGroup;
    Front(s, i, [c], r);
    PassChar(s, i, level, Some(open));
  }

  lemma LiteralIsPassed(s: string, i: nat, level: int, open: nat, o: char, body: string, r: string)
    requires i <= |s| && s[i..] == PrintLiteral(o, body) + r && IsQuoteOpen(o) && !StartsWith(r, QuoteClose(o))
    ensures i + |PrintLiteral(o, body)| <= |s| && s[i + |PrintLiteral(o, body)|..] == r
    ensures FindGroup(s, i, level, Some(open)) == FindGroup(s, i + |PrintLiteral(o, body)|, level, Some(open))
  {
    hide FindGroup, PrintLiteral, QuotedLen;
    LiteralIsSkipped(o, body, r);
    LiteralFront(o, body, "");
    assert PrintLiteral(o, body) + "" == PrintLiteral(o, body);
    Front(s, i, PrintLiteral(o, body), r);
    PassLiteral(s, i, level, Some(open));
  }

  lemma PrintChar(c: char, rest: Text, after: string)
    ensures Print(Char(c, rest)) + after == [c] + (Print(rest) + after)
    ensures |Print(Char(c, rest))| == 1 + |Print(rest)|
  {
  }

  lemma PrintLit(o: char, body: string, rest: Text, after: string)
    ensures Print(Literal(o, body, rest)) + after == PrintLiteral(o, body) + (Print(rest) + after)
    ensures |Print(Literal(o, body, rest))| == |PrintLiteral(o, body)| + |Print(rest)|
  {
    hide PrintLiteral;
  }

  /** Below the first parenthesis a proper text is passed over, whatever it contains. */
  lemma {:induction false} TextIsPassed(s: string, i: nat, level: int, open: nat, t: Text, after: string)
    requires i <= |s| && s[i..] == Print(t) + after && Proper(t, after) && level >= 1
    ensures i + |Print(t)| <= |s| && s[i + |Print(t)|..] == after
    ensures FindGroup(s, i, level, Some(open)) == FindGroup(s, i + |Print(t)|, level, Some(open))
    decreases t, 1
  {
    hide PrintLiteral, QuotedLen, Proper, FindGroup, Print, IsQuoteOpen, StartsWith;
    Front(s, i, Print(t), after);
    match t
    case End =>
      PrintEnd();
    case Char(c, rest) =>
      ProperChar(c, rest, after);
      PrintChar(c, rest, after);
      CharIsPassed(s, i, level, open, c, Print(rest) + after);
      TextIsPassed(s, i + 1, level, open, rest, after);
    case Literal(o, body, rest) =>
      ProperLiteral(o, body, rest, after);
      PrintLit(o, body, rest, after);
      LiteralIsPassed(s, i, level, open, o, body, Print(rest) + after);
      TextIsPassed(s, i + |PrintLiteral(o, body)|, level, open, rest, after);
    case Group(inner, rest) =>
      GroupIsPassed(s, i, level, open, inner, rest, after);
  }

  lemma PrintEnd()
    ensures Print(End) == ""
  {
  }

  lemma {:induction false} GroupIsPassed(s: string, i: nat, level: int, open: nat,
                                         inner: Text, rest: Text, after: string)
    requires i <= |s| && s[i..] == Print(Group(inner, rest)) + after && Proper(Group(inner, rest), after) && level >= 1
    ensures i + |Print(Group(inner, rest))| <= |s|
    ensures FindGroup(s, i, level, Some(open)) == FindGroup(s, i + |Print(Group(inner, rest))|, level, Some(open))
    decreases Group(inner, rest), 0
  {
    hide QuotedLen, Proper, FindGroup, Print, IsQuoteOpen;
    ProperGroup(inner, rest, after);
    PrintGroup(inner, rest);
    var p, r := Print(inner), Print(rest);
    var close := ")" + r + after;
    GroupShape(p, r, after);
    Front(s, i, "(", p + close);
    PassOpen(s, i, level, Some(open));
    TextIsPassed(s, i + 1, level + 1, open, inner, close);
    var j := i + 1 + |p|;
    Front(s, j, ")", r + after);
    PassClose(s, j, level + 1, Some(open));
    TextIsPassed(s, j + 1, level, open, rest, after);
    GroupLength(p, r);
  }

  lemma GroupLength(p: string, r: string)
    ensures |"(" + p + ")" + r| == |p| + |r| + 2
  {
  }

  lemma PrintGroup(inner: Text, rest: Text)
    ensures Print(Group(inner, rest)) == "(" + Print(inner) + ")" + Print(rest)
  {
  }

  lemma GroupShape(p: string, r: string, after: string)
    ensures ("(" + p + ")" + r) + after == "(" + (p + (")" + r + after))
    ensures ")" + r + after == ")" + (r + after)
  {
  }

  lemma ProperChar(c: char, rest: Text, after: string)
    requires Proper(Char(c, rest), after)
    ensures !IsQuoteOpen(c) && c != '(' && c != ')' && Proper(rest, after)
  {
  }

  lemma ProperLiteral(o: char, body: string, rest: Text, after: string)
    requires Proper(Literal(o, body, rest), after)
    ensures IsQuoteOpen(o) && !StartsWith(Print(rest) + after, QuoteClose(o)) && Proper(rest, after)
  {
  }

  lemma ProperGroup(inner: Text, rest: Text, after: string)
    requires Proper(Group(inner, rest), after)
    ensures Proper(inner, ")" + Print(rest) + after) && Proper(rest, after)
  {
  }

  lemma LiteralFront(o: char, body: string, t: string)
    ensures PrintLiteral(o, body) + t != "" && (PrintLiteral(o, body) + t)[0] == o
  {
  }

  lemma PassChar(s: string, i: nat, level: int, open: Option<nat>)
    requires i < |s| && !IsQuoteOpen(s[i]) && s[i] != '(' && s[i] != ')'
    ensures FindGroup(s, i, level, open) == FindGroup(s, i + 1, level, open)
  {
  }

  lemma PassLiteral(s: string, i: nat, level: int, open: Option<nat>)
    requires i < |s| && IsQuoteOpen(s[i])
    ensures FindGroup(s, i, level, open) == FindGroup(s, i + QuotedLen(s[i..]), level, open)
  {
  }

  lemma PassOpen(s: string, i: nat, level: int, open: Option<nat>)
    requires i < |s| && s[i] == '('
    ensures FindGroup(s, i, level, open) == FindGroup(s, i + 1, level + 1, if level == 0 then Some(i) else open)
  {
  }

  lemma PassClose(s: string, i: nat, level: int, open: Option<nat>)
    requires i < |s| && s[i] == ')'
    ensures level != 1 ==> FindGroup(s, i, level, open) == FindGroup(s, i + 1, level - 1, open)
    ensures level == 1 && open.Some? ==> FindGroup(s, i, level, open) == Some((open.value, i))
  {
  }

  lemma {:induction false} PlainIsPassed(s: string, i: nat, n: nat)
    requires i + n <= |s| && Plain(s[i..i + n])
    ensures FindGroup(s, i, 0, None) == FindGroup(s, i + n, 0, None)
    decreases n
  {
    hide FindGroup;
    if n > 0 {
      assert s[i..i + n][0] == s[i];
      PassChar(s, i, 0, None);
      assert s[i + 1..i + 1 + (n - 1)] == s[i..i + n][1..];
      PlainIsPassed(s, i + 1, n - 1);
    }
  }

  /** The constructor takes the trimmed contents of the first group, whatever balanced text that is. */
  lemma GroupContents(head: string, t: Text, behind: string)
    requires Plain(head) && Proper(t, ")" + behind)
    ensures var s := head + "(" + Print(t) + ")" + behind;
            InsideGroup(s, FindGroup(s, 0, 0, None)) == Trim(Print(t))
  {
    hide FindGroup, Plain, Proper, Trim;
    var s := head + "(" + Print(t) + ")" + behind;
    var n := |head|;
    assert s[0..n] == head;
    PlainIsPassed(s, 0, n);
    PassOpen(s, n, 0, None);
    assert s[n + 1..] == Print(t) + (")" + behind);
    TextIsPassed(s, n + 1, 1, n, t, ")" + behind);
    var j := n + 1 + |Print(t)|;
    assert s[j] == s[j..][0] == ')';
    PassClose(s, j, 1, Some(n));
    assert s[n + 1..j] == Print(t);
  }

  lemma NothingAtEnd(s: string, level: int, open: Option<nat>)
    ensures FindGroup(s, |s|, level, open) == None
  {
  }

  /** Without a group, or with one that is never closed, there are no contents. */
  lemma NoGroupNoContents(head: string, t: Text)
    requires Plain(head) && Proper(t, "")
    ensures InsideGroup(head, FindGroup(head, 0, 0, None)) == ""
    ensures var s := head + "(" + Print(t);
            InsideGroup(s, FindGroup(s, 0, 0, None)) == ""
  {
    hide FindGroup, Plain, Proper, Trim;
    var n := |head|;
    assert head[0..n] == head;
    PlainIsPassed(head, 0, n);
    NothingAtEnd(head, 0, None);
    var s := head + "(" + Print(t);
    assert s[0..n] == head;
    PlainIsPassed(s, 0, n);
    PassOpen(s, n, 0, None);
    assert s[n + 1..] == Print(t) + "";
    TextIsPassed(s, n + 1, 1, n, t, "");
    NothingAtEnd(s, 1, Some(n));
  }

  // ---------------------------------------------------------------- one column

  lemma {:induction false} FieldPassesPlain(s: string, t: string)
    requires Unlisted(s)
    ensures FieldLen(s + t) == |s| + FieldLen(t)
  {
    hide QuotedLen;
    if s == "" {
      assert s + t == t;
    } else {
      assert (s + t)[1..] == s[1..] + t;
      assert IsPlainChar(s[0]) && Unlisted(s[1..]);
      FieldPassesPlain(s[1..], t);
    }
  }

  lemma FieldPassesLiteral(open: char, body: string, t: string)
    requires IsQuoteOpen(open) && !StartsWith(t, QuoteClose(open))
    ensures FieldLen(PrintLiteral(open, body) + t) == |PrintLiteral(open, body)| + FieldLen(t)
  {
    var lit := PrintLiteral(open, body);
    assert (lit + t)[0] == open;
    hide QuotedLen, PrintLiteral;
    LiteralIsSkipped(open, body, t);
    assert (lit + t)[|lit|..] == t;
  }

  /** The field of a column ends at the next comma, or at the end. */
  lemma FieldOfColumn(c: Listed, t: string)
    requires ValidListed(c) && (t == "" || t[0] == ',')
    ensures FieldLen(PrintListed(c) + t) == |PrintListed(c)|
  {
    hide PrintLiteral, IsSpace, IsQuoteOpen, FieldLen, Unlisted, StartsWith, NotSpaced;
    var tail := c.order + t;
    var middle := PrintName(c.name) + tail;
    NoField(t);
    FieldPassesPlain(c.order, t);
    match c.name {
      case Quoted(open, body) =>
        OrderIsNoClose(c.order, t, open);
        FieldPassesLiteral(open, body, tail);
      case Bare(word) =>
        FieldPassesPlain(word, tail);
    }
    SpacesArePlain(c.before);
    FieldPassesPlain(c.before, middle);
    assert PrintListed(c) + t == c.before + middle;
  }

  lemma NoField(t: string)
    requires t == "" || t[0] == ','
    ensures FieldLen(t) == 0
  {
  }

  /** The order text without its trailing spaces. */
  lemma OrderSplits(order: string) returns (kept: string, b: string)
    requires order != "" ==> IsSpace(order[0])
    requires Unlisted(order)
    ensures order == kept + b && AllSpaces(b) && Unlisted(kept)
    ensures kept != "" ==> IsSpace(kept[0]) && !IsSpace(kept[|kept| - 1])
  {
    hide DropTrailing, IsSpace, IsPlainChar;
    DropTrailingIs(order);
    kept := DropTrailing(order);
    b := order[|kept|..];
    assert order == kept + b;
    if kept != "" { assert kept[0] == order[0]; }
    assert forall i | 0 <= i < |kept| :: kept[i] == order[i];
  }

  lemma NameEnds(n: Name)
    requires ValidName(n)
    ensures var p := PrintName(n); p != "" && !IsSpace(p[0]) && !IsSpace(p[|p| - 1])
  {
  }

  lemma {:induction false} BareColumnLenOf(word: string, t: string)
    requires NotSpaced(word) && Unlisted(word) && (t != "" ==> IsSpace(t[0]))
    ensures BareColumnLen(word + t) == |word|
  {
    if word == "" {
      assert word + t == t;
    } else {
      assert (word + t)[1..] == word[1..] + t;
      assert IsPlainChar(word[0]);
      BareColumnLenOf(word[1..], t);
    }
  }

  lemma StripPrinted(open: char, body: string)
    requires IsQuoteOpen(open)
    ensures StripQuotes(PrintLiteral(open, body)) == Escape(body, QuoteClose(open))
  {
    var lit := PrintLiteral(open, body);
    assert lit[1..|lit| - 1] == Escape(body, QuoteClose(open));
  }

  lemma BareIsNotStripped(word: string)
    requires word != "" && !IsQuoteOpen(word[0])
    ensures StripQuotes(word) == word
  {
  }

  /** extract_base_column_name on a name and what follows it. */
  lemma BaseNameOf(n: Name, kept: string)
    requires ValidName(n) && (kept != "" ==> IsSpace(kept[0]))
    ensures BaseColumnName(PrintName(n) + kept) == Visible(n)
  {
    hide PrintLiteral, StripQuotes, QuotedLen, BareColumnLen, IsSpace, NotSpaced, IsQuoteOpen;
    var p := PrintName(n);
    var s := p + kept;
    NameEnds(n);
    assert s[0] == p[0] && s[..|p|] == p;
    NothingDropped(s);
    match n
    case Quoted(open, body) =>
      OrderIsNoClose(kept, "", open);
      assert kept + "" == kept;
      LiteralIsSkipped(open, body, kept);
      LiteralFront(open, body, kept);
      StripPrinted(open, body);
    case Bare(word) =>
      BareColumnLenOf(word, kept);
      assert IsPlainChar(word[0]);
      BareIsNotStripped(word);
  }

  lemma NothingDropped(s: string)
    requires s != "" && !IsSpace(s[0])
    ensures DropSpaces(s) == s
  {
  }

  lemma VisibleIsNotEmpty(n: Name)
    requires ValidName(n)
    ensures Visible(n) != ""
  {
  }

  /** The name is found in its field, whatever spaces and order text surround it. */
  lemma NameInField(c: Listed)
    requires ValidListed(c)
    ensures NameIn(PrintListed(c)) == [Visible(c.name)]
  {
    hide PrintName, Visible, BaseColumnName, Trim, IsSpace, AllSpaces, Unlisted;
    var kept, b := OrderSplits(c.order);
    var p := PrintName(c.name);
    NameEnds(c.name);
    var t := p + kept;
    assert t[0] == p[0] && t[|t| - 1] == if kept == "" then p[|p| - 1] else kept[|kept| - 1];
    TrimOf(c.before, t, b);
    assert PrintListed(c) == c.before + t + b;
    BaseNameOf(c.name, kept);
    VisibleIsNotEmpty(c.name);
  }

  // ---------------------------------------------------------------- the column list

  lemma VisibleFrontAndRest(cs: seq<Listed>)
    requires cs != []
    ensures AllVisible(cs) == [Visible(cs[0].name)] + AllVisible(cs[1..])
  {
    hide Visible;
  }

  /** The first field, and the fields behind its comma. */
  lemma FirstField(field: string, rest: string)
    requires FieldLen(field + ("," + rest)) == |field|
    ensures NamesFrom(field + ("," + rest)) == NameIn(field) + NamesFrom(rest)
  {
    hide FieldLen, NameIn;
    var s := field + ("," + rest);
    assert s[..|field|] == field && s[|field| + 1..] == rest;
  }

  lemma OnlyField(field: string)
    requires FieldLen(field) == |field|
    ensures NamesFrom(field) == NameIn(field)
  {
    hide FieldLen, NameIn;
    assert field[..|field|] == field;
  }

  /** A field without a name is passed over. */
  lemma BlankFields(sp: string, rest: string)
    requires AllSpaces(sp)
    ensures NamesFrom(sp) == [] && NamesFrom(sp + ("," + rest)) == NamesFrom(rest)
  {
    hide FieldLen, IsSpace, AllSpaces, NamesFrom, Unlisted;
    SpacesArePlain(sp);
    FieldPassesPlain(sp, "," + rest);
    NoField("," + rest);
    FieldPassesPlain(sp, "");
    NoField("");
    assert sp + "" == sp && "" + sp == sp && "" + "" == "";
    TrimOf(sp, "", "");
    assert sp + "" + "" == sp;
    NoNameInNothing();
    FirstField(sp, rest);
    OnlyField(sp);
  }

  lemma NoNameInNothing()
    ensures BaseColumnName("") == ""
  {
  }

  lemma {:induction false} NamesAreRead(cs: seq<Listed>)
    requires cs != [] && AllValid(cs)
    ensures NamesFrom(PrintColumns(cs)) == AllVisible(cs)
    decreases |cs|
  {
    hide PrintListed, Visible, FieldLen, NameIn, ValidListed, AllValid, NamesFrom, AllVisible;
    FrontAndRestValid(cs);
    var field := PrintListed(cs[0]);
    NameInField(cs[0]);
    VisibleFrontAndRest(cs);
    if |cs| == 1 {
      FieldOfColumn(cs[0], "");
      assert field + "" == field;
      OnlyField(field);
      NoneVisible(cs[1..]);
    } else {
      var rest := PrintColumns(cs[1..]);
      FieldOfColumn(cs[0], "," + rest);
      FirstField(field, rest);
      assert field + ("," + rest) == field + "," + rest;
      NamesAreRead(cs[1..]);
    }
  }

  lemma NoneVisible(cs: seq<Listed>)
    requires cs == []
    ensures AllVisible(cs) == []
  {
  }

  /** The list without the spaces behind its last column. */
  lemma {:induction false} LastTrimmed(cs: seq<Listed>) returns (ds: seq<Listed>, b: string)
    requires cs != [] && AllValid(cs)
    ensures AllValid(ds) && AllVisible(ds) == AllVisible(cs) && AllSpaces(b) && PrintColumns(cs) == PrintColumns(ds) + b
    ensures ds != [] && ds[0].before == cs[0].before && ds[0].name == cs[0].name
    ensures var p := PrintColumns(ds); p != "" && !IsSpace(p[|p| - 1])
    decreases |cs|
  {
    hide IsSpace, AllSpaces, AllValid, ValidListed, AllVisible, PrintListed, Visible;
    FrontAndRestValid(cs);
    if |cs| == 1 {
      var d;
      d, b := ListedTrimmed(cs[0]);
      ds := [d];
      SameNames(cs, ds);
      assert AllValid(ds) by { OneValid(d); }
    } else {
      var rest;
      rest, b := LastTrimmed(cs[1..]);
      ds := [cs[0]] + rest;
      assert ds[1..] == rest;
      VisibleFrontAndRest(cs);
      VisibleFrontAndRest(ds);
      MoreValid(cs[0], rest);
      var front := PrintListed(cs[0]) + ",";
      assert PrintColumns(ds) == front + PrintColumns(rest);
      assert PrintColumns(cs) == front + (PrintColumns(rest) + b) == front + PrintColumns(rest) + b;
    }
  }

  lemma ListedTrimmed(c: Listed) returns (d: Listed, b: string)
    requires ValidListed(c)
    ensures ValidListed(d) && d.before == c.before && d.name == c.name
    ensures AllSpaces(b) && PrintListed(c) == PrintListed(d) + b
    ensures var p := PrintListed(d); p != "" && !IsSpace(p[|p| - 1])
  {
    hide PrintName, IsSpace, AllSpaces, Unlisted, ValidName;
    var kept;
    kept, b := OrderSplits(c.order);
    NameEnds(c.name);
    d := c.(order := kept);
    assert PrintListed(c) == PrintListed(d) + b;
  }

  lemma SameNames(cs: seq<Listed>, ds: seq<Listed>)
    requires |cs| == |ds| && forall i | 0 <= i < |cs| :: cs[i].name == ds[i].name
    ensures AllVisible(cs) == AllVisible(ds)
  {
    hide Visible;
  }

  lemma OneValid(c: Listed)
    requires ValidListed(c)
    ensures AllValid([c])
  {
    hide ValidListed;
  }

  lemma MoreValid(c: Listed, rest: seq<Listed>)
    requires ValidListed(c) && AllValid(rest)
    ensures AllValid([c] + rest)
  {
    hide ValidListed;
  }

  /** The trimmed list is again a list of the same names. */
  lemma ListTrimmed(cs: seq<Listed>) returns (ds: seq<Listed>)
    requires cs != [] && AllValid(cs)
    ensures ds != [] && AllValid(ds) && AllVisible(ds) == AllVisible(cs) && PrintColumns(ds) == Trim(PrintColumns(cs))
    ensures PrintColumns(ds) != ""
  {
    hide IsSpace, AllSpaces, AllValid, ValidListed, AllVisible, Visible, PrintName, Trim, PrintColumns, ValidName;
    var es, b := LastTrimmed(cs);
    FrontAndRestValid(es);
    var c := es[0];
    ds := [c.(before := "")] + es[1..];
    assert ValidListed(c.(before := "")) && ValidName(c.name) && AllSpaces(c.before) by { ValidWithout(c); }
    MoreValid(c.(before := ""), es[1..]);
    SameNames(es, ds);
    PrintWithout(es);
    NameEnds(c.name);
    var text := PrintColumns(ds);
    assert text[|text| - 1] == PrintColumns(es)[|PrintColumns(es)| - 1];
    TrimOf(c.before, text, b);
  }

  lemma ValidWithout(c: Listed)
    requires ValidListed(c)
    ensures ValidListed(c.(before := "")) && ValidName(c.name) && AllSpaces(c.before)
  {
  }

  lemma PrintWithout(cs: seq<Listed>)
    requires cs != [] && ValidName(cs[0].name)
    ensures var ds := [cs[0].(before := "")] + cs[1..];
            && PrintColumns(cs) == cs[0].before + PrintColumns(ds)
            && PrintColumns(ds) != "" && PrintColumns(ds)[0] == PrintName(cs[0].name)[0] && PrintName(cs[0].name) != ""
  {
    hide PrintName, ValidName, IsSpace;
    var ds := [cs[0].(before := "")] + cs[1..];
    var p := PrintName(cs[0].name) + cs[0].order;
    NameEnds(cs[0].name);
    assert ds[1..] == cs[1..];
    assert PrintListed(ds[0]) == p && PrintListed(cs[0]) == cs[0].before + p;
    if |cs| > 1 {
      var rest := PrintColumns(cs[1..]);
      assert cs[0].before + p + "," + rest == cs[0].before + (p + "," + rest);
    }
  }

  /** for_each_column_name reports exactly the names of a list, in order: quoted and bare names in any mix, with any
      spaces around them and any order text behind them. */
  lemma ColumnNamesOf(cs: seq<Listed>)
    requires AllValid(cs)
    ensures ColumnNames(PrintColumns(cs)) == ColumnNames(Trim(PrintColumns(cs))) == AllVisible(cs)
  {
    hide PrintColumns, NamesFrom, Trim, AllValid, AllVisible;
    if cs == [] {
      EmptyList();
      NoneVisible(cs);
    } else {
      var ds := ListTrimmed(cs);
      NamesAreRead(ds);
      NamesAreRead(cs);
      assert PrintColumns(cs) != "" by { TrimOfNothing(); }
    }
  }

  lemma TrimOfNothing()
    ensures Trim("") == ""
  {
  }

  lemma EmptyList()
    ensures PrintColumns([]) == "" && Trim("") == ""
  {
  }

  // ---------------------------------------------------------------- the head of a constraint

  /** The word at the front of a text, as it is spelled. */
  lemma WordInFront(word: string, t: string, kw: string)
    requires Spells(word, kw) && (t != "" ==> !IsIdentChar(t[0]))
    ensures WordAt(word + t, kw)
  {
    hide SameLetter, IsIdentChar;
    assert (word + t)[..|word|] == word;
  }

  lemma SpelledLetter(word: string, kw: string, i: nat)
    requires Spells(word, kw) && i < |kw|
    ensures i < |word| && Lower(word[i]) == Lower(kw[i])
  {
    hide SameLetter, Lower;
    LowerIsSameLetter(word[i], kw[i]);
  }

  predicate ReadsAs(s: string, kind: Kind) {
    && KindOf(s) == kind && SplitName(s) == ("", s) && DropSpaces(s) == s && IsConstraintPrefix(s)
    && s != "" && !IsSpace(s[0])
  }

  /** The keyword tests of the constructor and of the classifier, as words. */
  lemma TestsAreWords(s: string)
    ensures StartsKeyword(s, "PRIMARY KEY") <==> WordAt(s, "PRIMARY KEY")
    ensures StartsKeyword(s, "PRIMARY_KEY") <==> WordAt(s, "PRIMARY_KEY")
    ensures StartsKeyword(s, "UNIQUE") <==> WordAt(s, "UNIQUE")
    ensures StartsKeyword(s, "CHECK") <==> WordAt(s, "CHECK")
    ensures StartsKeyword(s, "FOREIGN KEY") <==> WordAt(s, "FOREIGN KEY")
    ensures StartsKeyword(s, "CONSTRAINT") <==> WordAt(s, "CONSTRAINT")
  {
    hide StartsCi, Boundary, WordAt;
    StartIsWordAt(s, "PRIMARY KEY");
    StartIsWordAt(s, "PRIMARY_KEY");
    StartIsWordAt(s, "UNIQUE");
    StartIsWordAt(s, "CHECK");
    StartIsWordAt(s, "FOREIGN KEY");
    StartIsWordAt(s, "CONSTRAINT");
  }

  lemma WordLetter(s: string, kw: string, i: nat)
    requires WordAt(s, kw) && i < |kw|
    ensures i < |s| && Lower(s[i]) == Lower(kw[i])
  {
    hide SameLetter, Lower;
    assert SameLetter(s[..|kw|][i], kw[i]);
    LowerIsSameLetter(s[i], kw[i]);
  }

  /** Which kind a text opens with: no two of the keywords can stand at the front of one text. */
  lemma KindsAreWords(s: string)
    ensures KindOf(s) == Kind.PrimaryKey <==> WordAt(s, "PRIMARY KEY") || WordAt(s, "PRIMARY_KEY")
    ensures KindOf(s) == Kind.Unique <==> WordAt(s, "UNIQUE")
    ensures KindOf(s) == Check <==> WordAt(s, "CHECK")
    ensures KindOf(s) == ForeignKey <==> WordAt(s, "FOREIGN KEY")
  {
    hide StartsKeyword, WordAt;
    TestsAreWords(s);
    if WordAt(s, "PRIMARY KEY") { WordLetter(s, "PRIMARY KEY", 0); }
    if WordAt(s, "PRIMARY_KEY") { WordLetter(s, "PRIMARY_KEY", 0); }
    if WordAt(s, "UNIQUE") { WordLetter(s, "UNIQUE", 0); }
    if WordAt(s, "CHECK") { WordLetter(s, "CHECK", 0); }
    if WordAt(s, "FOREIGN KEY") { WordLetter(s, "FOREIGN KEY", 0); }
  }

  lemma FrontIsDropped(s: string, c: char)
    requires s != "" && Lower(s[0]) == c && 'a' <= c <= 'z'
    ensures !IsSpace(s[0]) && DropSpaces(s) == s
  {
  }

  lemma PrimaryKeyIsRead(word: string, kw: string, t: string)
    requires kw == "PRIMARY KEY" || kw == "PRIMARY_KEY"
    requires Spells(word, kw) && (t != "" ==> !IsIdentChar(t[0]))
    ensures ReadsAs(word + t, Kind.PrimaryKey)
  {
    hide StartsKeyword, WordAt, Spells, DropSpaces, SameLetter, IsIdentChar, IsSpace;
    var s := word + t;
    WordInFront(word, t, kw);
    TestsAreWords(s);
    SpelledLetter(word, kw, 0);
    NotSpelled(s, "CONSTRAINT", 0);
    FrontIsDropped(s, 'p');
  }

  lemma UniqueIsRead(word: string, t: string)
    requires Spells(word, "UNIQUE") && (t != "" ==> !IsIdentChar(t[0]))
    ensures ReadsAs(word + t, Kind.Unique)
  {
    hide StartsKeyword, WordAt, Spells, DropSpaces, SameLetter, IsIdentChar, IsSpace;
    var s := word + t;
    WordInFront(word, t, "UNIQUE");
    TestsAreWords(s);
    SpelledLetter(word, "UNIQUE", 0);
    NotSpelled(s, "PRIMARY KEY", 0);
    NotSpelled(s, "PRIMARY_KEY", 0);
    NotSpelled(s, "CONSTRAINT", 0);
    FrontIsDropped(s, 'u');
  }

  lemma CheckIsRead(word: string, t: string)
    requires Spells(word, "CHECK") && (t != "" ==> !IsIdentChar(t[0]))
    ensures ReadsAs(word + t, Kind.Check)
  {
    hide StartsKeyword, WordAt, Spells, DropSpaces, SameLetter, IsIdentChar, IsSpace;
    var s := word + t;
    WordInFront(word, t, "CHECK");
    TestsAreWords(s);
    SpelledLetter(word, "CHECK", 0);
    SpelledLetter(word, "CHECK", 1);
    NotSpelled(s, "PRIMARY KEY", 0);
    NotSpelled(s, "PRIMARY_KEY", 0);
    NotSpelled(s, "UNIQUE", 0);
    NotSpelled(s, "CONSTRAINT", 1);
    FrontIsDropped(s, 'c');
  }

  lemma ForeignKeyIsRead(word: string, t: string)
    requires Spells(word, "FOREIGN KEY") && (t != "" ==> !IsIdentChar(t[0]))
    ensures ReadsAs(word + t, Kind.ForeignKey)
  {
    hide StartsKeyword, WordAt, Spells, DropSpaces, SameLetter, IsIdentChar, IsSpace;
    var s := word + t;
    WordInFront(word, t, "FOREIGN KEY");
    TestsAreWords(s);
    SpelledLetter(word, "FOREIGN KEY", 0);
    NotSpelled(s, "PRIMARY KEY", 0);
    NotSpelled(s, "PRIMARY_KEY", 0);
    NotSpelled(s, "UNIQUE", 0);
    NotSpelled(s, "CHECK", 0);
    NotSpelled(s, "CONSTRAINT", 0);
    FrontIsDropped(s, 'f');
  }

  lemma KeywordIsRead(word: string, kind: Kind, t: string)
    requires SpellsKind(word, kind) && (t != "" ==> !IsIdentChar(t[0]))
    ensures ReadsAs(word + t, kind)
  {
    hide ReadsAs, Spells, IsIdentChar;
    match kind
    case PrimaryKey => PrimaryKeyIsRead(word, if Spells(word, "PRIMARY KEY") then "PRIMARY KEY" else "PRIMARY_KEY", t);
    case Unique => UniqueIsRead(word, t);
    case Check => CheckIsRead(word, t);
    case ForeignKey => ForeignKeyIsRead(word, t);
  }

  predicate IsPlainKeyword(kw: string) { forall i | 0 <= i < |kw| :: IsIdentChar(kw[i]) || kw[i] == ' ' }

  lemma SpelledIsPlain(word: string, kw: string)
    requires Spells(word, kw) && IsPlainKeyword(kw)
    ensures Plain(word)
  {
    hide SameLetter, IsIdentChar, IsPlainChar;
    forall i | 0 <= i < |word|
      ensures IsPlainChar(word[i])
    {
      SameLetterIdent(word[i], kw[i]);
      if IsIdentChar(kw[i]) {
        IdentIsPlain(word[i]);
      } else {
        SpaceLetter(word[i]);
      }
    }
  }

  lemma IdentIsPlain(c: char)
    requires IsIdentChar(c)
    ensures IsPlainChar(c)
  {
  }

  lemma SpaceLetter(c: char)
    requires SameLetter(c, ' ')
    ensures IsPlainChar(c)
  {
    LowerIsSameLetter(c, ' ');
  }

  lemma KindWordIsPlain(word: string, kind: Kind)
    requires SpellsKind(word, kind)
    ensures Plain(word)
  {
    hide Spells, IsPlainKeyword, Plain;
    KeywordsArePlain();
    match kind
    case PrimaryKey => SpelledIsPlain(word, if Spells(word, "PRIMARY KEY") then "PRIMARY KEY" else "PRIMARY_KEY");
    case Unique => SpelledIsPlain(word, "UNIQUE");
    case Check => SpelledIsPlain(word, "CHECK");
    case ForeignKey => SpelledIsPlain(word, "FOREIGN KEY");
  }

  lemma KeywordsArePlain()
    ensures IsPlainKeyword("PRIMARY KEY") && IsPlainKeyword("PRIMARY_KEY") && IsPlainKeyword("UNIQUE")
    ensures IsPlainKeyword("CHECK") && IsPlainKeyword("FOREIGN KEY")
  {
  }

  /** A constraint without a name. */
  lemma UnnamedIsRead(word: string, gap: string, kind: Kind, t: Text, behind: string)
    requires SpellsKind(word, kind) && AllSpaces(gap) && Proper(t, ")" + behind)
    ensures var s := word + gap + "(" + Print(t) + ")" + behind;
            ReadsAs(s, kind) && InsideGroup(s, FindGroup(s, 0, 0, None)) == Trim(Print(t))
  {
    hide FindGroup, InsideGroup, Trim, Print, Proper, Plain, ReadsAs, SpellsKind, AllSpaces;
    var head := word + gap;
    var group := "(" + Print(t) + ")" + behind;
    KindWordIsPlain(word, kind);
    SpacesArePlain(gap);
    PlainJoin(word, gap);
    GapFront(gap, group);
    KeywordIsRead(word, kind, gap + group);
    GroupContents(head, t, behind);
    Ungroup(word, gap, Print(t), behind);
  }

  lemma PlainJoin(a: string, b: string)
    requires Plain(a) && Plain(b)
    ensures Plain(a + b)
  {
    hide IsPlainChar;
  }

  lemma GapFront(gap: string, group: string)
    requires AllSpaces(gap) && group != "" && group[0] == '('
    ensures gap + group != "" && !IsIdentChar((gap + group)[0])
  {
  }

  lemma Ungroup(word: string, gap: string, p: string, behind: string)
    ensures word + gap + "(" + p + ")" + behind == word + (gap + ("(" + p + ")" + behind))
  {
  }

  lemma SpaceIsDropped(t: string)
    requires t != "" && !IsSpace(t[0])
    ensures DropSpaces(" " + t) == t
  {
    hide SpacesLen;
    assert AllSpaces(" ");
    SpacesLenOf(" ", t);
  }

  lemma {:induction false} BareNameLenOf(word: string, t: string)
    requires NotSpaced(word) && '(' !in word && (t != "" ==> IsSpace(t[0]) || t[0] == '(')
    ensures BareNameLen(word + t) == |word|
  {
    if word == "" {
      assert word + t == t;
    } else {
      assert (word + t)[1..] == word[1..] + t;
      BareNameLenOf(word[1..], t);
    }
  }

  lemma NameLenOf(n: Name, t: string)
    requires IsConstraintName(n) && (t != "" ==> IsSpace(t[0]))
    ensures NameLen(PrintName(n) + t) == |PrintName(n)|
    ensures PrintName(n) != "" && !IsSpace(PrintName(n)[0]) && StripQuotes(PrintName(n)) == Visible(n)
  {
    hide QuotedLen, BareNameLen, StripQuotes;
    match n
    case Quoted(open, body) =>
      OrderIsNoClose(t, "", open);
      assert t + "" == t;
      LiteralIsSkipped(open, body, t);
      LiteralFront(open, body, t);
      StripPrinted(open, body);
    case Bare(word) =>
      BareNameLenOf(word, t);
      BareIsNotStripped(word);
  }

  /** What SplitName does behind the word CONSTRAINT and its spaces. */
  lemma NamedPart(n: Name, rem: string)
    requires IsConstraintName(n) && rem != "" && !IsSpace(rem[0])
    ensures var named := PrintName(n) + (" " + rem);
            && named != "" && !IsSpace(named[0])
            && StripQuotes(named[..NameLen(named)]) == Visible(n) && DropSpaces(named[NameLen(named)..]) == rem
  {
    hide PrintName, Visible, StripQuotes, DropSpaces, NameLen, IsConstraintName;
    var p, behind := PrintName(n), " " + rem;
    assert IsSpace(behind[0]);
    NameLenOf(n, behind);
    SpaceIsDropped(rem);
    assert (p + behind)[..|p|] == p && (p + behind)[|p|..] == behind && (p + behind)[0] == p[0];
  }

  lemma IntroIsRead(intro: string, t: string)
    requires Spells(intro, "CONSTRAINT")
    ensures var s := intro + " " + t;
            StartsKeyword(s, "CONSTRAINT") && DropSpaces(s) == s && s[10..] == " " + t && |s| > 10
  {
    hide StartsKeyword, WordAt, Spells, DropSpaces, SameLetter;
    var s := intro + (" " + t);
    assert intro + " " + t == s;
    WordInFront(intro, " " + t, "CONSTRAINT");
    TestsAreWords(s);
    SpelledLetter(intro, "CONSTRAINT", 0);
    FrontIsDropped(s, 'c');
    SpelledLength(intro, "CONSTRAINT");
  }

  lemma SpelledLength(w: string, kw: string)
    requires Spells(w, kw)
    ensures |w| == |kw|
  {
  }

  lemma NameIsRead(intro: string, n: Name, rem: string)
    requires Spells(intro, "CONSTRAINT") && IsConstraintName(n) && rem != "" && !IsSpace(rem[0])
    ensures var s := intro + " " + PrintName(n) + " " + rem;
            SplitName(s) == (Visible(n), rem) && DropSpaces(s) == s && StartsKeyword(s, "CONSTRAINT")
  {
    hide PrintName, Visible, StripQuotes, DropSpaces, StartsKeyword, NameLen, IsConstraintName, Spells;
    var p := PrintName(n);
    var named := p + (" " + rem);
    NamedPart(n, rem);
    IntroIsRead(intro, named);
    SpaceIsDropped(named);
    assert intro + " " + p + " " + rem == intro + " " + named;
  }

  /** A bare constraint name ends at a parenthesis too. */
  lemma NameBeforeGroup(intro: string, word: string, rem: string)
    requires Spells(intro, "CONSTRAINT") && IsConstraintName(Bare(word)) && rem != "" && rem[0] == '('
    ensures SplitName(intro + " " + word + rem) == (word, rem)
  {
    hide StripQuotes, DropSpaces, StartsKeyword, BareNameLen, Spells, NotSpaced;
    var named := word + rem;
    assert named[0] == word[0] && !IsSpace(word[0]) by { NotSpacedFront(word); }
    IntroIsRead(intro, named);
    SpaceIsDropped(named);
    assert intro + " " + word + rem == intro + " " + named;
    BareNameLenOf(word, rem);
    BareIsNotStripped(word);
    assert named[..|word|] == word && named[|word|..] == rem;
    NothingDropped(rem);
  }

  lemma NotSpacedFront(word: string)
    requires NotSpaced(word) && word != ""
    ensures !IsSpace(word[0])
  {
  }

  // ---------------------------------------------------------------- the whole constraint

  /** Parsing a printed constraint of any kind, its words in any case, gives the kind, the name and the trimmed
      contents of its group, for every balanced text in the group and whatever follows it. */
  lemma ContentsRoundTrip(kind: Kind, h: Head, t: Text, behind: string)
    requires ValidHead(h, kind) && Proper(t, ")" + behind)
    ensures var full := PrintConstraint(h, Print(t), behind);
            ParseConstraint(full) == Constraint(kind, VisibleName(h), Trim(Print(t)), full)
    ensures IsConstraintPrefix(PrintConstraint(h, Print(t), behind))
    ensures DropSpaces(PrintConstraint(h, Print(t), behind)) == PrintConstraint(h, Print(t), behind)
  {
    hide PrintName, Visible, FindGroup, InsideGroup, SplitName, KindOf, DropSpaces, Print, Trim, Proper, SpellsKind,
         IsSpace, StartsKeyword, IsConstraintName, Spells, AllSpaces;
    var rem := h.word + h.gap + "(" + Print(t) + ")" + behind;
    UnnamedIsRead(h.word, h.gap, kind, t, behind);
    if h.name.Some? {
      NameIsRead(h.intro, h.name.value, rem);
      Ungroup3(h.intro + " ", PrintName(h.name.value), " ", rem);
    } else {
      assert "" + rem == rem;
    }
  }

  lemma Ungroup3(a: string, b: string, c: string, d: string)
    ensures (a + b + c) + d == a + b + c + d == a + (b + c + d)
  {
  }

  /** Parsing a printed `[CONSTRAINT name] KEYWORD (c1, c2, ...)` gives the kind, the constraint name and the column
      names in order: names quoted or bare in any mix, any number of columns, any spaces, any order text behind the
      names, and any commas, parentheses or spaces inside the quotes. A close character inside a quoted name stays
      doubled. */
  lemma ConstraintRoundTrip(kind: Kind, h: Head, columns: seq<Listed>, behind: string)
    requires ValidHead(h, kind) && AllValid(columns)
    ensures var full := PrintConstraint(h, PrintColumns(columns), behind);
            var c := ParseConstraint(full);
            && c.kind == kind && c.full == full && c.name == VisibleName(h)
            && ColumnNames(c.columnsRaw) == AllVisible(columns)
  {
    hide PrintConstraint, ParseConstraint, PrintColumns, ColumnsText, Print, Proper, ColumnNames, AllVisible, AllValid,
         ValidHead, VisibleName, Trim;
    ColumnsTextPrints(columns, ")" + behind);
    ContentsRoundTrip(kind, h, ColumnsText(columns), behind);
    ColumnNamesOf(columns);
  }

  lemma {:induction false} EscapeIsIdentity(body: string, close: char)
    ensures |Escape(body, close)| >= |body|
    ensures Escape(body, close) == body <==> close !in body
  {
    if body != "" {
      EscapeIsIdentity(body[1..], close);
      assert body == [body[0]] + body[1..];
      if body[0] == close {
        assert |Escape(body, close)| > |body|;
      } else {
        assert Escape(body, close)[1..] == Escape(body[1..], close);
      }
    }
  }

  /** The name itself, without quotes. */
  function Meant(n: Name): string {
    match n
    case Quoted(_, body) => body
    case Bare(word) => word
  }

  function AllMeant(cs: seq<Listed>): seq<string> { seq(|cs|, i requires 0 <= i < |cs| => Meant(cs[i].name)) }

  /** No close character of its own quotes in the name. */
  predicate Undoubled(n: Name) { n.Quoted? ==> QuoteClose(n.open) !in n.body }

  lemma VisibleIsMeantIff(n: Name)
    ensures Visible(n) == Meant(n) <==> Undoubled(n)
  {
    if n.Quoted? { EscapeIsIdentity(n.body, QuoteClose(n.open)); }
  }

  lemma AllVisibleAreMeantIff(cs: seq<Listed>)
    ensures AllVisible(cs) == AllMeant(cs) <==> forall i | 0 <= i < |cs| :: Undoubled(cs[i].name)
  {
    hide Visible, Undoubled, Meant;
    forall i | 0 <= i < |cs|
      ensures AllVisible(cs)[i] == AllMeant(cs)[i] <==> Undoubled(cs[i].name)
    {
      VisibleIsMeantIff(cs[i].name);
    }
    if AllVisible(cs) == AllMeant(cs) {
      assert forall i | 0 <= i < |cs| :: AllVisible(cs)[i] == AllMeant(cs)[i];
    }
  }

  /** The parsed constraint has exactly these names. */
  predicate Survive(c: Constraint, h: Head, columns: seq<Listed>) {
    c.name == (if h.name.Some? then Meant(h.name.value) else "") && ColumnNames(c.columnsRaw) == AllMeant(columns)
  }

  /** For a constraint of any kind, named or not, whatever follows: the constraint name and the column names come
      back exactly as they were meant iff no quoted one contains the close character of its own quotes. */
  lemma NamesSurviveIff(kind: Kind, h: Head, columns: seq<Listed>, behind: string)
    requires ValidHead(h, kind) && AllValid(columns)
    ensures Survive(ParseConstraint(PrintConstraint(h, PrintColumns(columns), behind)), h, columns)
       <==> (h.name.Some? ==> Undoubled(h.name.value)) && forall i | 0 <= i < |columns| :: Undoubled(columns[i].name)
  {
    hide ColumnNames, ParseConstraint, PrintConstraint, ValidHead, AllValid, PrintColumns, Visible, Undoubled,
         AllVisible, AllMeant, Meant;
    ConstraintRoundTrip(kind, h, columns, behind);
    AllVisibleAreMeantIff(columns);
    if h.name.Some? { VisibleIsMeantIff(h.name.value); }
  }

  lemma TrimmedByEnds(s: string)
    requires s != "" && DropSpaces(s) == s && !IsSpace(s[|s| - 1])
    ensures Trim(s) == s
  {
    DropTrailingStep(s);
  }

  lemma PrintedBack(h: Head, contents: string)
    ensures var full := PrintConstraint(h, contents, "");
            full != "" && full[|full| - 1] == ')'
  {
    hide PrintName;
    var rem := h.word + h.gap + "(" + contents + ")" + "";
    assert rem[|rem| - 1] == ')';
  }

  /** As an argument the printed constraint is classified as that constraint, whatever balanced text it holds. */
  lemma PrintedIsConstraint(kind: Kind, h: Head, t: Text)
    requires ValidHead(h, kind) && Proper(t, ")" + "")
    ensures var full := PrintConstraint(h, Print(t), "");
            Classify(Some(full)) == ConstraintArg(Constraint(kind, VisibleName(h), Trim(Print(t)), full))
  {
    hide PrintConstraint, ParseConstraint, Trim, HasWithoutRowid, IsConstraintPrefix, DropSpaces, Print, Proper,
         VisibleName, ValidHead;
    ContentsRoundTrip(kind, h, t, "");
    PrintedBack(h, Print(t));
    TrimmedByEnds(PrintConstraint(h, Print(t), ""));
  }
}

/** SqliteVTabColumn: a column definition split into name and definition, and its generated expression. */
module VTabColumn {
  import opened Wrappers
  import opened VTabText
  import opened VTabGrammar
  import opened VTabKeywords

  /** ci_starts_with_kw */
  predicate StartsKeyword(s: string, kw: string) { StartsCi(s, kw) && Boundary(s[|kw|..]) }

  /** The views m_name and m_definition, with the spaces between them. */
  datatype Column = Column(name: string, gap: string, definition: string)

  function NonSpacesLen(s: string): (n: nat)
    ensures n <= |s|
  {
    if s == "" || IsSpace(s[0]) then 0 else 1 + NonSpacesLen(s[1..])
  }

  function MakeColumn(full: string): Column {
    var nameLen := if full != "" && IsQuoteOpen(full[0]) then QuotedLen(full) else NonSpacesLen(full);
    var rest := full[nameLen..];
    Column(full[..nameLen], rest[..SpacesLen(rest)], DropSpaces(rest))
  }

  /** full_def(): from the start of the name to the end of the definition. */
  function FullDef(c: Column): string {
    if c.definition == "" then c.name else c.name + c.gap + c.definition
  }

  lemma TrimmedHasNoSpaces(a: string, sp: string)
    requires Trimmed(a + sp) && AllSpaces(sp)
    ensures sp == ""
  {
  }

  /** Splitting a trimmed definition loses nothing. */
  lemma FullDefIsWhole(full: string)
    requires Trimmed(full)
    ensures FullDef(MakeColumn(full)) == full
  {
    hide QuotedLen, NonSpacesLen, SpacesLen, Trimmed, AllSpaces, IsQuoteOpen;
    var c := MakeColumn(full);
    var rest := full[|c.name|..];
    assert full == c.name + rest && rest == c.gap + c.definition;
    if c.definition == "" {
      SpacesLenIs(rest);
      assert rest == c.gap;
      TrimmedHasNoSpaces(c.name, rest);
    } else {
      assert c.name + rest == c.name + c.gap + c.definition;
    }
  }

  /** A column name as it can be written: in quotes, or without spaces. */
  ghost predicate IsColumnName(name: string) {
    || (name != "" && !IsQuoteOpen(name[0]) && forall i | 0 <= i < |name| :: !IsSpace(name[i]))
    || (exists open: char, body: string :: IsQuoteOpen(open) && name == PrintLiteral(open, body))
  }

  lemma {:induction false} NonSpacesOf(name: string, t: string)
    requires (forall i | 0 <= i < |name| :: !IsSpace(name[i])) && (t == "" || IsSpace(t[0]))
    ensures NonSpacesLen(name + t) == |name|
  {
    if name == "" {
      assert name + t == t;
    } else {
      assert (name + t)[1..] == name[1..] + t;
      NonSpacesOf(name[1..], t);
    }
  }

  /** The constructor finds the name, however it is quoted, and the definition behind the spaces. */
  lemma ColumnRoundTrip(name: string, gap: string, definition: string)
    requires IsColumnName(name) && AllSpaces(gap)
    requires if definition == "" then gap == "" else gap != "" && !IsSpace(definition[0])
    ensures MakeColumn(name + gap + definition) == Column(name, gap, definition)
  {
    hide QuotedLen, NonSpacesLen, SpacesLen, PrintLiteral;
    var rest := gap + definition;
    var full := name + rest;
    assert name + gap + definition == full;
    NameLength(name, rest);
    assert full[..|name|] == name && full[|name|..] == rest;
    SpacesLenOf(gap, definition);
  }

  lemma NameLength(name: string, rest: string)
    requires IsColumnName(name) && (rest == "" || IsSpace(rest[0]))
    ensures var full := name + rest;
            && full != ""
            && |name| == if IsQuoteOpen(full[0]) then QuotedLen(full) else NonSpacesLen(full)
  {
    hide QuotedLen, NonSpacesLen;
    if open: char, body: string :| IsQuoteOpen(open) && name == PrintLiteral(open, body) {
      LiteralIsSkipped(open, body, rest);
      assert (name + rest)[0] == open;
    } else {
      NonSpacesOf(name, rest);
    }
  }

  // ---------------------------------------------------------------- generated_expression()

  /** The text behind "AS" and spaces. */
  function BehindAs(s: string): string
    requires StartsKeyword(s, "AS")
  {
    DropSpaces(s[2..])
  }

  /** "AS" as a keyword, then a parenthesized expression. As in the code, what precedes "AS" is not looked at. */
  predicate AsGroup(s: string) {
    StartsKeyword(s, "AS") && ParenthesizedLen(BehindAs(s)) > 1
  }

  function GeneratedFrom(s: string): string
    decreases |s|
  {
    if s == "" then ""
    else if IsQuoteOpen(s[0]) then GeneratedFrom(s[QuotedLen(s)..])
    else if AsGroup(s) then Trim(BehindAs(s)[1..ParenthesizedLen(BehindAs(s)) - 1])
    else GeneratedFrom(s[1..])
  }

  function GeneratedExpression(definition: string): string {
    if |definition| < 4 then "" else GeneratedFrom(definition)
  }

  lemma GeneratedStep(s: string)
    requires s != "" && !IsQuoteOpen(s[0]) && !AsGroup(s)
    ensures GeneratedFrom(s) == GeneratedFrom(s[1..])
  {
  }

  lemma GeneratedHere(s: string)
    requires s != "" && !IsQuoteOpen(s[0]) && AsGroup(s)
    ensures GeneratedFrom(s) == Trim(BehindAs(s)[1..ParenthesizedLen(BehindAs(s)) - 1])
  {
  }

  lemma GeneratedBehindLiteral(s: string)
    requires s != "" && IsQuoteOpen(s[0])
    ensures GeneratedFrom(s) == GeneratedFrom(s[QuotedLen(s)..])
  {
  }

  lemma NothingGenerated()
    ensures GeneratedFrom("") == ""
  {
  }

  method ScanGeneratedExpression(d: string) returns (e: string)
    ensures e == GeneratedExpression(d)
  {
    hide StartsKeyword, ParenthesizedLen, QuotedLen, Trim, GeneratedFrom, IsQuoteOpen;
    if |d| < 4 { return ""; }
    var i := 0;
    assert d[0..] == d;
    while i < |d|
      invariant 0 <= i <= |d| && GeneratedFrom(d[i..]) == GeneratedFrom(d)
    {
      if IsQuoteOpen(d[i]) {
        GeneratedBehindLiteral(d[i..]);
        var j := SkipQuoted(d, i);
        assert d[i..][QuotedLen(d[i..])..] == d[j..];
        i := j;
        continue;
      }
      if StartsKeyword(d[i..], "AS") {
        StartsLength(d[i..], "AS");
        var start := SkipSpaces(d, i + 2);
        assert d[i..][2..] == d[i + 2..] && BehindAs(d[i..]) == d[start..];
        if start < |d| && d[start] == '(' {
          var end := SkipParenthesized(d, start);
          if end > start + 1 {
            assert d[start..][1..end - start - 1] == d[start + 1..end - 1];
            GeneratedHere(d[i..]);
            e := TrimSlice(d, start + 1, end - 1);
            return;
          }
        } else {
          NoGroup(d[start..]);
        }
      }
      GeneratedStep(d[i..]);
      assert d[i..][1..] == d[i + 1..];
      i := i + 1;
    }
    assert d[i..] == "";
    NothingGenerated();
    return "";
  }

  lemma StartsLength(s: string, kw: string)
    requires StartsKeyword(s, kw)
    ensures |kw| <= |s|
  {
  }

  lemma NoGroup(s: string)
    requires s == "" || s[0] != '('
    ensures ParenthesizedLen(s) == 0
  {
  }

  // ---------------------------------------------------------------- what may precede AS

  /** "AS", spaces and an opening parenthesis at the front. */
  predicate OpensGroup(s: string) {
    StartsKeyword(s, "AS") && BehindAs(s) != "" && BehindAs(s)[0] == '('
  }

  /** The text up to and including the A of AS: outside literals nothing opens a group, and every literal is
      closed. */
  predicate NoEarlierGroup(s: string)
    decreases |s|
  {
    |s| <= 1 ||
    if IsQuoteOpen(s[0]) then QuotedLen(s) < |s| && NoEarlierGroup(s[QuotedLen(s)..])
    else !OpensGroup(s) && NoEarlierGroup(s[1..])
  }

  predicate EndsInA(s: string) { s != "" && s[|s| - 1] == 'A' }

  lemma {:induction false} TailPrefix(s: string, z: string, k: char)
    requires LiteralTailLen(s, k) < |s|
    ensures LiteralTailLen(s + z, k) == LiteralTailLen(s, k)
  {
    if s[0] != k {
      assert (s + z)[1..] == s[1..] + z;
      TailPrefix(s[1..], z, k);
    } else if s[1] == k {
      assert (s + z)[2..] == s[2..] + z;
      TailPrefix(s[2..], z, k);
    }
  }

  /** A literal that is closed does not care for what follows. */
  lemma QuotedPrefix(s: string, z: string)
    requires s != "" && IsQuoteOpen(s[0]) && QuotedLen(s) < |s|
    ensures QuotedLen(s + z) == QuotedLen(s) && (s + z)[QuotedLen(s)..] == s[QuotedLen(s)..] + z
  {
    assert (s + z)[1..] == s[1..] + z;
    TailPrefix(s[1..], z, QuoteClose(s[0]));
  }

  lemma {:induction false} TailRuns(s: string, z: string, k: char)
    requires EndsInA(s) && k != 'A' && LiteralTailLen(s, k) == |s| && k !in z
    ensures LiteralTailLen(s + z, k) == |s + z|
  {
    if s[0] != k {
      assert (s + z)[1..] == s[1..] + z;
      if |s| == 1 {
        assert s[1..] + z == z;
        NeverCloses(z, k);
      } else {
        TailRuns(s[1..], z, k);
      }
    } else {
      assert (s + z)[2..] == s[2..] + z;
      TailRuns(s[2..], z, k);
    }
  }

  lemma {:induction false} NeverCloses(z: string, k: char)
    requires k !in z
    ensures LiteralTailLen(z, k) == |z|
  {
    if z != "" { NeverCloses(z[1..], k); }
  }

  lemma QuotedRuns(s: string, z: string)
    requires EndsInA(s) && IsQuoteOpen(s[0]) && QuotedLen(s) == |s| && QuoteClose(s[0]) !in z
    ensures QuotedLen(s + z) == |s + z|
  {
    assert (s + z)[1..] == s[1..] + z;
    TailRuns(s[1..], z, QuoteClose(s[0]));
  }

  lemma {:induction false} DropSpacesFront(v: string, z: string)
    requires DropSpaces(v) != ""
    ensures DropSpaces(v + z) == DropSpaces(v) + z
  {
    DropSpacesStep(v);
    DropSpacesStep(v + z);
    if IsSpace(v[0]) {
      assert (v + z)[1..] == v[1..] + z;
      DropSpacesFront(v[1..], z);
    }
  }

  lemma {:induction false} DropSpacesEndsInA(v: string)
    requires EndsInA(v)
    ensures EndsInA(DropSpaces(v))
  {
    DropSpacesStep(v);
    if IsSpace(v[0]) { DropSpacesEndsInA(v[1..]); }
  }

  /** Before the A of AS, what opens a group does not depend on what follows that A. */
  lemma OpensGroupPrefix(s: string, z: string)
    requires EndsInA(s) && |s| > 1
    ensures OpensGroup(s + z) <==> OpensGroup(s)
    ensures OpensGroup(s) ==> BehindAs(s + z) == BehindAs(s) + z && EndsInA(BehindAs(s)) && |BehindAs(s)| > 1
  {
    hide DropSpaces;
    assert (s + z)[0] == s[0] && (s + z)[1] == s[1];
    if |s| > 2 {
      assert (s + z)[2..] == s[2..] + z;
      DropSpacesEndsInA(s[2..]);
      DropSpacesFront(s[2..], z);
    } else {
      assert s[1] == 'A';
    }
  }

  lemma AsGroupOpens(s: string)
    ensures AsGroup(s) ==> OpensGroup(s)
    ensures OpensGroup(s) && |BehindAs(s)| > 1 ==> AsGroup(s)
  {
    hide StartsCi, Boundary, BehindAs;
    if StartsKeyword(s, "AS") { GroupIsNotEmpty(BehindAs(s)); }
  }

  lemma GroupIsNotEmpty(w: string)
    ensures ParenthesizedLen(w) > 0 <==> w != "" && w[0] == '('
    ensures |w| > 1 && w[0] == '(' ==> ParenthesizedLen(w) > 1
  {
  }

  /** Nothing in front stops the scan before it reaches AS. */
  lemma {:induction false} PrefixIsPassed(s: string, z: string)
    requires EndsInA(s) && NoEarlierGroup(s)
    ensures GeneratedFrom(s + z) == GeneratedFrom("A" + z)
    decreases |s|
  {
    hide GeneratedFrom, OpensGroup, AsGroup, QuotedLen;
    if |s| == 1 {
      assert s == "A";
    } else if IsQuoteOpen(s[0]) {
      GeneratedBehindLiteral(s + z);
      QuotedPrefix(s, z);
      PrefixIsPassed(s[QuotedLen(s)..], z);
    } else {
      OpensGroupPrefix(s, z);
      AsGroupOpens(s + z);
      GeneratedStep(s + z);
      assert (s + z)[1..] == s[1..] + z;
      PrefixIsPassed(s[1..], z);
    }
  }

  /** A definition with `AS (e)` in it. */
  function GeneratedClause(before: string, gap: string, e: Text, behind: string): string {
    before + "AS" + gap + "(" + Print(e) + ")" + behind
  }

  /** The code reads the expression back from `before AS (e) behind`. */
  predicate ReadsBack(before: string, gap: string, e: Text, behind: string) {
    GeneratedExpression(GeneratedClause(before, gap, e, behind)) == Trim(Print(e))
  }

  /** Whatever precedes AS, the expression comes back trimmed for every balanced e, if no earlier group opens and
      every literal in front is closed. */
  lemma GeneratedRoundTrip(before: string, gap: string, e: Text, behind: string)
    requires NoEarlierGroup(before + "A") && AllSpaces(gap) && Proper(e, ")" + behind)
    ensures ReadsBack(before, gap, e, behind)
  {
    hide GeneratedFrom, Proper, Print, ParenthesizedLen, NoEarlierGroup, AsGroup, BehindAs, StartsKeyword, Trim,
         AllSpaces;
    var group := "(" + Print(e) + ")" + behind;
    var z := "S" + gap + group;
    ClauseShape(before, gap, Print(e), behind);
    PrefixIsPassed(before + "A", z);
    GroupIsSkipped(e, behind);
    AsIsRead(gap, group);
    assert "A" + z == "AS" + gap + group;
    AsGroupOfLength("A" + z, group);
    GeneratedHere("A" + z);
    InsideParentheses(Print(e), behind);
  }

  lemma ClauseShape(before: string, gap: string, p: string, behind: string)
    ensures before + "AS" + gap + "(" + p + ")" + behind == (before + "A") + ("S" + gap + ("(" + p + ")" + behind))
  {
    assert "AS" == "A" + "S";
  }

  lemma InsideParentheses(p: string, behind: string)
    ensures ("(" + p + ")" + behind)[1..|p| + 1] == p
  {
    var s := "(" + p + ")" + behind;
    assert s == ['('] + (p + (")" + behind));
    assert s[1..] == p + (")" + behind);
    assert s[1..|p| + 1] == s[1..][..|p|];
  }

  lemma AsIsRead(gap: string, group: string)
    requires group != "" && group[0] == '(' && AllSpaces(gap)
    ensures StartsKeyword("AS" + gap + group, "AS") && BehindAs("AS" + gap + group) == group
  {
    var t := "AS" + gap + group;
    assert t[2..] == gap + group;
    assert t[0] == 'A' && t[1] == 'S';
    SpacesLenOf(gap, group);
  }

  lemma AsGroupOfLength(s: string, group: string)
    requires StartsKeyword(s, "AS") && BehindAs(s) == group && ParenthesizedLen(group) > 1
    ensures AsGroup(s)
  {
  }

  /** The condition holds of every text without quotes and parentheses, such as COLLATE NOCASE GENERATED ALWAYS. */
  lemma {:induction false} PlainIsClear(s: string)
    requires '(' !in s && forall i | 0 <= i < |s| :: !IsQuoteOpen(s[i])
    ensures NoEarlierGroup(s)
    decreases |s|
  {
    hide StartsKeyword, IsQuoteOpen;
    if |s| > 1 {
      if StartsKeyword(s, "AS") {
        StartsLength(s, "AS");
        var v := BehindAs(s);
        assert forall i | 0 <= i < |v| :: v[i] == s[i + 2 + SpacesLen(s[2..])];
      }
      PlainIsClear(s[1..]);
    }
  }

  // ---------------------------------------------------------------- and nothing else may

  lemma {:induction false} NestedPrefix(u: string, z: string, depth: nat)
    requires depth > 0 && NestedLen(u, depth) < |u|
    ensures NestedLen(u + z, depth) == NestedLen(u, depth)
    decreases |u|
  {
    hide NestedLen, QuotedLen;
    NestedStep(u, 0, depth);
    NestedStep(u + z, 0, depth);
    assert u[0..] == u && (u + z)[0..] == u + z;
    if IsQuoteOpen(u[0]) {
      QuotedPrefix(u, z);
      NestedPrefix(u[QuotedLen(u)..], z, depth);
    } else {
      assert (u + z)[1..] == u[1..] + z;
      var d := if u[0] == '(' then depth + 1 else if u[0] == ')' then depth - 1 else depth;
      if d == 0 {
        NestedDone(u[1..], 0);
        NestedDone(u[1..] + z, 0);
      } else {
        NestedPrefix(u[1..], z, d);
      }
    }
  }

  /** `AS (c)` behind its first letter. */
  function Probe(c: char): string { "S (" + [c] + ")" }

  lemma ProbeIsSkipped(depth: nat)
    requires depth > 0
    ensures NestedLen(Probe('x'), depth) == |Probe('x')|
  {
    hide NestedLen;
    assert Probe('x') == ['S'] + " (x)" && " (x)" == [' '] + "(x)" && "(x)" == ['('] + "x)";
    assert "x)" == ['x'] + ")" && ")" == [')'] + "";
    CharInside('S', " (x)", depth);
    CharInside(' ', "(x)", depth);
    CharInside('(', "x)", depth);
    CharInside('x', ")", depth + 1);
    CharInside(')', "", depth + 1);
    NestedDone("", depth);
  }

  /** A group that is open at the A of AS swallows the expression as well. */
  lemma {:induction false} NestedRuns(u: string, depth: nat)
    requires EndsInA(u) && depth > 0 && NestedLen(u, depth) == |u|
    ensures NestedLen(u + Probe('x'), depth) == |u + Probe('x')|
    decreases |u|
  {
    hide NestedLen, QuotedLen, Probe;
    var z := Probe('x');
    NestedStep(u, 0, depth);
    NestedStep(u + z, 0, depth);
    assert u[0..] == u && (u + z)[0..] == u + z;
    if IsQuoteOpen(u[0]) {
      if QuotedLen(u) < |u| {
        QuotedPrefix(u, z);
        NestedRuns(u[QuotedLen(u)..], depth);
      } else {
        ProbeHasNoQuotes('x', u[0]);
        QuotedRuns(u, z);
        NestedDone((u + z)[|u + z|..], depth);
      }
    } else {
      assert (u + z)[1..] == u[1..] + z;
      var d := if u[0] == '(' then depth + 1 else if u[0] == ')' then depth - 1 else depth;
      if |u| == 1 {
        assert u[1..] + z == z;
        ProbeIsSkipped(depth);
      } else if d == 0 {
        NestedDone(u[1..], 0);
      } else {
        NestedRuns(u[1..], d);
      }
    }
  }

  lemma ProbeHasNoQuotes(c: char, open: char)
    requires IsQuoteOpen(open) && (c == 'x' || c == 'y')
    ensures QuoteClose(open) !in Probe(c)
  {
  }

  lemma NotOnlyX(a: string)
    requires '(' in a
    ensures Trim(a) != "x"
  {
    var b, c := TrimSplits(a);
    assert '(' !in b && '(' !in c;
    assert '(' in Trim(a);
  }

  /** If an earlier group opens, the expressions x and y do not both come back. */
  lemma OpenGroupWins(s: string)
    requires EndsInA(s) && |s| > 1 && !IsQuoteOpen(s[0]) && OpensGroup(s)
    ensures GeneratedFrom(s + Probe('x')) != "x" || GeneratedFrom(s + Probe('y')) != "y"
  {
    hide GeneratedFrom, OpensGroup, AsGroup, BehindAs, StartsKeyword, NestedLen, Trim, Probe;
    OpensGroupPrefix(s, Probe('x'));
    OpensGroupPrefix(s, Probe('y'));
    GroupTaken(s, Probe('x'));
    GroupTaken(s, Probe('y'));
    var u := BehindAs(s)[1..];
    if NestedLen(u, 1) < |u| {
      var m := NestedLen(u, 1);
      NestedPrefix(u, Probe('x'), 1);
      NestedPrefix(u, Probe('y'), 1);
      NestedAtLeastOne(u);
      assert (u + Probe('x'))[..m - 1] == u[..m - 1] == (u + Probe('y'))[..m - 1];
    } else {
      NestedRuns(u, 1);
      ProbeOpens();
      var w := u + Probe('x');
      assert w[|u| + 2] == '(' && '(' in w[..|w| - 1] by { assert w[..|w| - 1][|u| + 2] == w[|u| + 2]; }
      NotOnlyX(w[..|w| - 1]);
    }
  }

  lemma ProbeOpens()
    ensures |Probe('x')| == 5 && Probe('x')[2] == '('
  {
  }

  lemma NestedAtLeastOne(u: string)
    requires u != ""
    ensures NestedLen(u, 1) >= 1
  {
  }

  /** The expression taken when a group opens at the front of `s`. */
  lemma GroupTaken(s: string, z: string)
    requires EndsInA(s) && |s| > 1 && !IsQuoteOpen(s[0]) && OpensGroup(s)
    ensures StartsKeyword(s, "AS") && BehindAs(s) != ""
    ensures var w := BehindAs(s)[1..] + z;
            && EndsInA(BehindAs(s)[1..]) && 1 <= NestedLen(w, 1)
            && GeneratedFrom(s + z) == Trim(w[..NestedLen(w, 1) - 1])
  {
    hide GeneratedFrom, AsGroup, BehindAs, NestedLen, Trim, StartsCi, Boundary;
    OpensGroupPrefix(s, z);
    AsGroupOpens(s + z);
    assert (s + z)[0] == s[0];
    GeneratedHere(s + z);
    var g := BehindAs(s);
    var w := g[1..] + z;
    assert BehindAs(s + z) == g + z && (g + z)[1..] == w;
    NestedAtLeastOne(w);
    assert ParenthesizedLen(g + z) == 1 + NestedLen(w, 1);
    assert (g + z)[1..NestedLen(w, 1)] == w[..NestedLen(w, 1) - 1];
  }

  lemma {:induction false} EarlierGroupBlocks(s: string)
    requires EndsInA(s) && !NoEarlierGroup(s)
    ensures GeneratedFrom(s + Probe('x')) != "x" || GeneratedFrom(s + Probe('y')) != "y"
    decreases |s|
  {
    hide GeneratedFrom, OpensGroup, AsGroup, QuotedLen, Probe;
    var x, y := Probe('x'), Probe('y');
    if IsQuoteOpen(s[0]) {
      GeneratedBehindLiteral(s + x);
      GeneratedBehindLiteral(s + y);
      if QuotedLen(s) < |s| {
        QuotedPrefix(s, x);
        QuotedPrefix(s, y);
        EarlierGroupBlocks(s[QuotedLen(s)..]);
      } else {
        ProbeHasNoQuotes('x', s[0]);
        QuotedRuns(s, x);
        assert (s + x)[|s + x|..] == "";
        NothingGenerated();
      }
    } else if OpensGroup(s) {
      OpenGroupWins(s);
    } else {
      OpensGroupPrefix(s, x);
      OpensGroupPrefix(s, y);
      AsGroupOpens(s + x);
      AsGroupOpens(s + y);
      GeneratedStep(s + x);
      GeneratedStep(s + y);
      assert (s + x)[1..] == s[1..] + x && (s + y)[1..] == s[1..] + y;
      EarlierGroupBlocks(s[1..]);
    }
  }

  lemma ProbeClause(before: string, c: char)
    requires c == 'x' || c == 'y'
    ensures GeneratedClause(before, " ", Char(c, End), "") == (before + "A") + Probe(c)
    ensures Proper(Char(c, End), ")" + "") && Trim(Print(Char(c, End))) == [c]
  {
    assert Print(Char(c, End)) == [c];
    ClauseShape(before, " ", [c], "");
    assert "S" + " " + ("(" + [c] + ")" + "") == Probe(c);
    TrimOf("", [c], "");
    assert "" + [c] + "" == [c];
  }

  /** generated_expression() reads every balanced expression back, with any spaces behind AS and whatever
      follows, iff no earlier group opens in front of that AS and every literal there is closed. */
  lemma GeneratedExactly(before: string)
    ensures NoEarlierGroup(before + "A")
       <==> forall gap, e, behind | AllSpaces(gap) && Proper(e, ")" + behind) :: ReadsBack(before, gap, e, behind)
  {
    hide NoEarlierGroup, GeneratedFrom, Proper, AllSpaces, Probe, Trim, Print, GeneratedClause;
    if NoEarlierGroup(before + "A") {
      forall gap, e, behind | AllSpaces(gap) && Proper(e, ")" + behind)
        ensures ReadsBack(before, gap, e, behind)
      {
        GeneratedRoundTrip(before, gap, e, behind);
      }
    } else {
      EarlierGroupBlocks(before + "A");
      ProbeClause(before, 'x');
      ProbeClause(before, 'y');
      ProbeLength();
      SpaceIsSpaces();
      assert !ReadsBack(before, " ", Char('x', End), "") || !ReadsBack(before, " ", Char('y', End), "");
    }
  }

  lemma ProbeLength()
    ensures |Probe('x')| == 5 && |Probe('y')| == 5
  {
  }

  lemma SpaceIsSpaces()
    ensures AllSpaces(" ")
  {
  }

  /** In particular the code does not look at what precedes AS: behind an identifier character, where AS is not a
      keyword, the group is taken for a generated expression all the same. */
  lemma AliasIsMistaken(before: string, gap: string, e: Text, behind: string)
    requires NoEarlierGroup(before + "A") && AllSpaces(gap) && Proper(e, ")" + behind)
    requires before != "" && IsIdentChar(before[|before| - 1])
    ensures ReadsBack(before, gap, e, behind)
    ensures var text := GeneratedClause(before, gap, e, behind);
            !KeywordAt(text[|before|..], PrevOk(true, text, |before|), "AS", None)
  {
    hide NoEarlierGroup, ReadsBack, Proper, Print;
    GeneratedRoundTrip(before, gap, e, behind);
    var text := GeneratedClause(before, gap, e, behind);
    ClauseShape(before, gap, Print(e), behind);
    assert text[|before| - 1] == before[|before| - 1];
  }

  /** Thus "ALIAS (10) GENERATED ALWAYS AS (x)" gives 10. */
  lemma AliasWitness()
    ensures GeneratedExpression("ALIAS (10) GENERATED ALWAYS AS (x)") == "10"
  {
    hide GeneratedExpression, NoEarlierGroup, Proper, Print, Trim, AllSpaces;
    var e := Char('1', Char('0', End));
    var behind := " GENERATED ALWAYS AS (x)";
    TenIsProper(")" + behind);
    AliIsPlain();
    SpaceIsSpaces();
    GeneratedRoundTrip("ALI", " ", e, behind);
    AliasText();
    TenIsTrimmed();
  }

  lemma AliasText()
    ensures "ALI" + "AS" + " " + "(" + "10" + ")" + " GENERATED ALWAYS AS (x)" == "ALIAS (10) GENERATED ALWAYS AS (x)"
  {
  }

  lemma TenIsTrimmed()
    ensures Trim("10") == "10"
  {
    TrimOf("", "10", "");
    assert "" + "10" + "" == "10";
  }

  lemma TenIsProper(after: string)
    ensures var e := Char('1', Char('0', End));
            Proper(e, after) && Print(e) == "10"
  {
    assert Print(Char('0', End)) == "0";
  }

  lemma AliIsPlain()
    ensures NoEarlierGroup("ALI" + "A")
  {
    assert "ALI" + "A" == "ALIA" && "ALIA"[1..] == "LIA" && "LIA"[1..] == "IA" && "IA"[1..] == "A";
    assert !OpensGroup("ALIA") && !OpensGroup("LIA") && !OpensGroup("IA");
    assert NoEarlierGroup("A") && NoEarlierGroup("IA") && NoEarlierGroup("LIA");
  }
}

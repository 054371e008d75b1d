/** What an argument is taken for, in terms of its trimmed text alone: the words it opens with, WITHOUT ROWID
    outside its literals, and the first '=' outside its literals. */
module VTabArgKinds {
  import opened Wrappers
  import opened VTabText
  import opened VTabKeywords
  import opened VTabSpelling
  import opened VTabColumn
  import opened VTabConstraint
  import opened VTabArg

  // ---------------------------------------------------------------- the '=' of a parameter

  /** At position `i`, outside all literals, stands the character `c`. */
  predicate StandsAt(q: Quote, s: string, i: nat, c: char) { i < |s| && s[i] == c && OutsideAt(q, s, i) }

  /** The first '=' outside the literals, and no '(' outside them before it. */
  predicate AssignsAt(q: Quote, s: string, i: nat) {
    StandsAt(q, s, i, '=') && forall j: nat | j < i :: !StandsAt(q, s, j, '=') && !StandsAt(q, s, j, '(')
  }

  /** The search one character at a time. */
  function FirstEqualsFrom(q: Quote, s: string): Option<nat>
    decreases |s|
  {
    if s == "" then None
    else if IsOutside(q, s) && s[0] == '(' then None
    else if IsOutside(q, s) && s[0] == '=' then Some(0)
    else Shift(1, FirstEqualsFrom(Read(q, s[0]), s[1..]))
  }

  lemma StandsAtFront(q: Quote, s: string, c: char)
    requires s != ""
    ensures StandsAt(q, s, 0, c) <==> s[0] == c && IsOutside(q, s)
  {
    hide IsOutside;
    assert s[..0] == "" && s[0..] == s;
  }

  lemma StandsBehindFront(q: Quote, s: string, i: nat, c: char)
    requires s != ""
    ensures StandsAt(q, s, i + 1, c) <==> StandsAt(Read(q, s[0]), s[1..], i, c)
  {
    hide IsOutside, Read;
    if i < |s[1..]| {
      assert s[..i + 1][1..] == s[1..][..i] && s[i + 1..] == s[1..][i..];
      assert s[..i + 1][0] == s[0];
    }
  }

  lemma AssignsBehindFront(q: Quote, s: string, i: nat)
    requires s != "" && !StandsAt(q, s, 0, '=') && !StandsAt(q, s, 0, '(')
    ensures AssignsAt(q, s, i + 1) <==> AssignsAt(Read(q, s[0]), s[1..], i)
  {
    hide StandsAt, Read;
    StandsBehindFront(q, s, i, '=');
    forall j: nat
      ensures StandsAt(q, s, j + 1, '=') <==> StandsAt(Read(q, s[0]), s[1..], j, '=')
      ensures StandsAt(q, s, j + 1, '(') <==> StandsAt(Read(q, s[0]), s[1..], j, '(')
    {
      StandsBehindFront(q, s, j, '=');
      StandsBehindFront(q, s, j, '(');
    }
    if AssignsAt(Read(q, s[0]), s[1..], i) {
      forall j: nat | j < i + 1
        ensures !StandsAt(q, s, j, '=') && !StandsAt(q, s, j, '(')
      {
        if j > 0 {
          StandsBehindFront(q, s, j - 1, '=');
          StandsBehindFront(q, s, j - 1, '(');
        }
      }
    }
    if AssignsAt(q, s, i + 1) {
      forall j: nat | j < i
        ensures !StandsAt(Read(q, s[0]), s[1..], j, '=') && !StandsAt(Read(q, s[0]), s[1..], j, '(')
      {
        assert j + 1 < i + 1;
      }
    }
  }

  lemma {:induction false} FirstEqualsIsFirst(q: Quote, s: string, i: nat)
    ensures FirstEqualsFrom(q, s) == Some(i) <==> AssignsAt(q, s, i)
    decreases |s|
  {
    hide StandsAt, IsOutside, Read;
    if s == "" {
      NothingStands(q, i);
    } else {
      StandsAtFront(q, s, '=');
      StandsAtFront(q, s, '(');
      if IsOutside(q, s) && (s[0] == '(' || s[0] == '=') {
        assert i > 0 ==> !AssignsAt(q, s, i);
      } else if i > 0 {
        AssignsBehindFront(q, s, i - 1);
        FirstEqualsIsFirst(Read(q, s[0]), s[1..], i - 1);
      }
    }
  }

  lemma NothingStands(q: Quote, i: nat)
    ensures !StandsAt(q, "", i, '=')
  {
  }

  lemma InsideStep(s: string, k: char)
    requires s != ""
    ensures FirstEqualsFrom(Inside(k), s)
         == Shift(1, FirstEqualsFrom(if s[0] == k then Closed(k) else Inside(k), s[1..]))
  {
  }

  /** A doubled close character. */
  lemma EscapeStep(s: string, k: char)
    requires |s| > 1 && s[0] == k && s[1] == k
    ensures FirstEqualsFrom(Inside(k), s) == Shift(2, FirstEqualsFrom(Inside(k), s[2..]))
  {
    InsideStep(s, k);
    assert s[1..][1..] == s[2..];
  }

  /** skip_quoted takes the search from inside a literal to the first position outside it. */
  lemma {:induction false} FirstEqualsBehindLiteral(s: string, k: char)
    ensures var n := LiteralTailLen(s, k);
            FirstEqualsFrom(Inside(k), s) == if n < |s| then Shift(n, FirstEqualsFrom(Closed(k), s[n..])) else None
    ensures LiteralTailLen(s, k) < |s| ==> s[LiteralTailLen(s, k)] != k
  {
    hide FirstEqualsFrom;
    if s == "" {
      NothingFound(k);
    } else if s[0] != k {
      InsideStep(s, k);
      FirstEqualsBehindLiteral(s[1..], k);
      assert s[1..][LiteralTailLen(s[1..], k)..] == s[LiteralTailLen(s, k)..];
    } else if |s| > 1 && s[1] == k {
      EscapeStep(s, k);
      FirstEqualsBehindLiteral(s[2..], k);
      assert s[2..][LiteralTailLen(s[2..], k)..] == s[LiteralTailLen(s, k)..];
    } else {
      InsideStep(s, k);
      NothingFound(k);
    }
  }

  lemma NothingFound(k: char)
    ensures FirstEqualsFrom(Inside(k), "") == None && FirstEqualsFrom(Closed(k), "") == None
  {
  }

  /** Outside the literals, at neither of the two characters looked for. */
  lemma OutsideStep(q: Quote, s: string)
    requires IsOutside(q, s) && s != "" && s[0] != '(' && s[0] != '='
    ensures FirstEqualsFrom(q, s)
         == Shift(1, FirstEqualsFrom(if IsQuoteOpen(s[0]) then Inside(QuoteClose(s[0])) else Outside, s[1..]))
  {
    hide IsQuoteOpen;
  }

  lemma {:induction false} EqualsIsFirstEquals(q: Quote, s: string)
    requires IsOutside(q, s)
    ensures EqualsAt(s) == FirstEqualsFrom(q, s)
    decreases |s|
  {
    if s != "" && s[0] != '(' && s[0] != '=' {
      hide FirstEqualsFrom, EqualsAt, IsQuoteOpen;
      OutsideStep(q, s);
      EqualsFront(s);
      if IsQuoteOpen(s[0]) {
        var k, n := QuoteClose(s[0]), QuotedLen(s);
        FirstEqualsBehindLiteral(s[1..], k);
        assert s[1..][n - 1..] == s[n..];
        if n < |s| {
          EqualsIsFirstEquals(Closed(k), s[n..]);
        } else {
          NoEqualsAtEnd();
        }
      } else {
        EqualsIsFirstEquals(Outside, s[1..]);
      }
    }
  }

  /** The '=' the classifier splits at is the first one outside the literals, if no '(' outside them precedes it. */
  lemma EqualsIsExact(s: string, i: nat)
    ensures EqualsAt(s) == Some(i) <==> AssignsAt(Outside, s, i)
  {
    hide EqualsAt, AssignsAt, FirstEqualsFrom;
    EqualsIsFirstEquals(Outside, s);
    FirstEqualsIsFirst(Outside, s, i);
  }

  // ---------------------------------------------------------------- the kinds

  /** The text opens with a word of a table constraint. */
  predicate OpensConstraint(t: string) {
    || WordAt(t, "PRIMARY KEY") || WordAt(t, "PRIMARY_KEY") || WordAt(t, "UNIQUE")
    || WordAt(t, "CHECK") || WordAt(t, "FOREIGN KEY") || WordAt(t, "CONSTRAINT")
  }

  /** WITHOUT ROWID stands somewhere outside the literals, as two whole words. */
  ghost predicate HoldsWithoutRowid(t: string) { exists i: nat :: WithoutRowidAt(t, i) }

  ghost predicate WithoutRowidAt(t: string, i: nat) {
    i < |t| && OutsideAt(Outside, t, i) && PrevOk(true, t, i) && WordsAt(t[i..], "WITHOUT", "ROWID")
  }

  /** A parameter with its '=' at position `i`: a key without inner spaces precedes it. */
  predicate ParamAt(t: string, i: nat) { AssignsAt(Outside, t, i) && i > 0 && NoSpaces(Trim(t[..i])) }

  ghost predicate IsParamText(t: string) { exists i: nat :: ParamAt(t, i) }

  /** None of the other kinds. */
  ghost predicate IsColumnText(t: string) {
    t != "" && !OpensConstraint(t) && !HoldsWithoutRowid(t) && !IsParamText(t)
  }

  lemma PrefixIsWord(t: string)
    ensures IsConstraintPrefix(t) <==> OpensConstraint(t)
  {
    hide StartsCi, Boundary, WordAt;
    StartIsWordAt(t, "PRIMARY KEY");
    StartIsWordAt(t, "PRIMARY_KEY");
    StartIsWordAt(t, "UNIQUE");
    StartIsWordAt(t, "CHECK");
    StartIsWordAt(t, "FOREIGN KEY");
    StartIsWordAt(t, "CONSTRAINT");
  }

  lemma OptionIsWords(t: string)
    ensures HasWithoutRowid(t) <==> HoldsWithoutRowid(t)
  {
    hide HasKeyword, KeywordAt, OutsideAt, WordsAt, PrevOk;
    SearchIsExact(t, "WITHOUT", Some("ROWID"));
    forall i: nat
      ensures FoundAt(Outside, t, true, "WITHOUT", Some("ROWID"), i) <==> WithoutRowidAt(t, i)
    {
      if i < |t| { KeywordAtIsWords(t[i..], PrevOk(true, t, i), "WITHOUT", Some("ROWID")); }
    }
  }

  lemma SplitIsParam(t: string)
    ensures SplitsAt(t, EqualsAt(t)) <==> IsParamText(t)
    ensures forall i: nat | ParamAt(t, i) :: EqualsAt(t) == Some(i)
  {
    hide EqualsAt, AssignsAt, NoSpaces, Trim;
    forall i: nat
      ensures EqualsAt(t) == Some(i) <==> AssignsAt(Outside, t, i)
    {
      EqualsIsExact(t, i);
    }
    if EqualsAt(t).Some? {
      var i := EqualsAt(t).value;
      assert SplitsAt(t, EqualsAt(t)) <==> ParamAt(t, i);
    }
  }

  /** Exactly when an argument is of each kind, and what is taken from its text. */
  lemma KindsExactly(raw: string)
    ensures var t, a := Trim(raw), Classify(Some(raw));
            && (a == Empty <==> t == "")
            && (a.ConstraintArg? <==> OpensConstraint(t))
            && (a == OptionArg <==> !OpensConstraint(t) && HoldsWithoutRowid(t))
            && (a.ParamArg? <==> !OpensConstraint(t) && !HoldsWithoutRowid(t) && IsParamText(t))
            && (a.ColumnArg? <==> IsColumnText(t))
            && (a.ConstraintArg? ==> a.constraint == ParseConstraint(t))
            && (a.ParamArg? ==> forall i: nat | ParamAt(t, i) :: a == ParamArg(Trim(t[..i]), Trim(t[i + 1..])))
            && (a.ColumnArg? ==> a.column == MakeColumn(t))
  {
    hide IsConstraintPrefix, OpensConstraint, HasWithoutRowid, HoldsWithoutRowid, IsParamText, EqualsAt, Trim,
         MakeColumn, ParseConstraint, DropSpaces, AssignsAt, NoSpaces;
    var t := Trim(raw);
    ClassifyIgnoresPadding(raw);
    var b := BaseOf(raw);
    PrefixIsWord(t);
    OptionIsWords(t);
    SplitIsParam(t);
    if t == "" { NothingInEmptyText(); }
    TrimTwice(raw);
  }

  lemma NothingInEmptyText()
    ensures !OpensConstraint("") && !HoldsWithoutRowid("") && !IsParamText("")
  {
  }

  lemma NamedTextIsTrimmed(name: string, gap: string, definition: string)
    requires IsColumnName(name)
    requires definition != "" ==> Trimmed(definition)
    requires definition == "" ==> gap == ""
    ensures Trimmed(name + gap + definition) && name + gap + definition != ""
  {
    var t := name + gap + definition;
    assert t[0] == name[0];
    if definition == "" {
      assert t == name;
    } else {
      assert t[|t| - 1] == definition[|definition| - 1];
    }
  }

  /** A text that is none of the other kinds is the column it spells: its name, however quoted, and its definition,
      with any spaces around and between them. */
  lemma ColumnArgRoundTrip(left: string, name: string, gap: string, definition: string, right: string)
    requires AllSpaces(left) && AllSpaces(gap) && AllSpaces(right) && IsColumnName(name) && Trimmed(definition)
    requires definition == "" <==> gap == ""
    requires IsColumnText(name + gap + definition)
    ensures Classify(Some(left + (name + gap + definition) + right)) == ColumnArg(Column(name, gap, definition))
  {
    hide AllSpaces, IsColumnName, IsColumnText, OpensConstraint, HoldsWithoutRowid, Trim, Classify, MakeColumn, IsSpace;
    var t := name + gap + definition;
    NamedTextIsTrimmed(name, gap, definition);
    TrimOf(left, t, right);
    KindsExactly(left + t + right);
    ColumnRoundTrip(name, gap, definition);
  }
}

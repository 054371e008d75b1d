/** What the formatter emits for an argument, where it emits it, and a known statement. */
module VTabDdlItems {
  import opened Wrappers
  import opened VTabText
  import opened VTabKeywords
  import opened VTabSpelling
  import opened VTabArg
  import opened VTabArgKinds
  import opened VTabDdl

  /** The definition an argument contributes to a section: its trimmed text, if that is of the kind. */
  lemma DefinitionOf(raw: string)
    ensures ItemOf(Columns, Some(raw)) == if IsColumnText(Trim(raw)) then [Trim(raw)] else []
    ensures ItemOf(Constraints, Some(raw)) == if OpensConstraint(Trim(raw)) then [Trim(raw)] else []
  {
    hide Trim, Classify, ItemOf, IsColumnText, OpensConstraint, HoldsWithoutRowid, IsParamText;
    ItemIsTrimmed(Some(raw));
    KindsExactly(raw);
  }

  lemma ItemsOfOne(section: Section, raw: Option<string>)
    ensures Items(section, [raw]) == ItemOf(section, raw)
  {
    hide ItemOf;
    assert [raw][..0] == [];
  }

  lemma ItemsAround(section: Section, before: seq<Option<string>>, raw: Option<string>, after: seq<Option<string>>)
    ensures Items(section, before + [raw] + after)
         == Items(section, before) + ItemOf(section, raw) + Items(section, after)
  {
    hide ItemOf, Items;
    ItemsOfSum(before + [raw], after, section);
    ItemsOfSum(before, [raw], section);
    ItemsOfOne(section, raw);
  }

  /** Each column is emitted among the columns, each constraint among the constraints, at the place of its argument,
      and no argument of another kind is emitted at all. */
  lemma EmittedInPlace(before: seq<Option<string>>, raw: string, after: seq<Option<string>>)
    ensures var args, t := before + [Some(raw)] + after, Trim(raw);
            && Items(Columns, args)
               == Items(Columns, before) + (if IsColumnText(t) then [t] else []) + Items(Columns, after)
            && Items(Constraints, args)
               == Items(Constraints, before) + (if OpensConstraint(t) then [t] else []) + Items(Constraints, after)
  {
    hide Items, ItemOf, Trim, IsColumnText, OpensConstraint;
    ItemsAround(Columns, before, Some(raw), after);
    ItemsAround(Constraints, before, Some(raw), after);
    DefinitionOf(raw);
  }

  // ---------------------------------------------------------------- a known statement

  /** A text without any W does not say WITHOUT ROWID. */
  lemma NoWithout(t: string)
    requires 'W' !in t && 'w' !in t
    ensures !HoldsWithoutRowid(t)
  {
    hide SameLetter, OutsideAt, PrevOk, SecondAt;
    forall i: nat | i < |t|
      ensures !WordAt(t[i..], "WITHOUT")
    {
      if WordAt(t[i..], "WITHOUT") {
        assert SameLetter(t[i..][..7][0], "WITHOUT"[0]);
        LowerIsSameLetter(t[i], 'W');
      }
    }
  }

  lemma NoAssignment(t: string)
    requires '=' !in t
    ensures !IsParamText(t)
  {
    hide OutsideAt;
  }

  lemma NoConstraint(t: string)
    requires t != "" && Lower(t[0]) != 'p' && Lower(t[0]) != 'u' && Lower(t[0]) != 'c' && Lower(t[0]) != 'f'
    ensures !OpensConstraint(t)
  {
    hide SameLetter;
    NotSpelled(t, "PRIMARY KEY", 0);
    NotSpelled(t, "PRIMARY_KEY", 0);
    NotSpelled(t, "UNIQUE", 0);
    NotSpelled(t, "CHECK", 0);
    NotSpelled(t, "FOREIGN KEY", 0);
    NotSpelled(t, "CONSTRAINT", 0);
  }

  lemma PlainColumn(t: string)
    requires t != "" && Trimmed(t) && '=' !in t && 'W' !in t && 'w' !in t
    requires Lower(t[0]) != 'p' && Lower(t[0]) != 'u' && Lower(t[0]) != 'c' && Lower(t[0]) != 'f'
    ensures ItemOf(Columns, Some(t)) == [t] && ItemOf(Constraints, Some(t)) == []
  {
    hide ItemOf, Trim, OpensConstraint, HoldsWithoutRowid, IsParamText, Lower;
    TrimmedStays(t);
    DefinitionOf(t);
    NoWithout(t);
    NoAssignment(t);
    NoConstraint(t);
  }

  lemma KnownConstraint()
    ensures ItemOf(Columns, Some("CHECK (id)")) == [] && ItemOf(Constraints, Some("CHECK (id)")) == ["CHECK (id)"]
  {
    hide ItemOf, Trim, IsParamText, HoldsWithoutRowid, SameLetter;
    var t := "CHECK (id)";
    TrimmedStays(t);
    DefinitionOf(t);
    assert t[..5] == "CHECK" && t[5] == ' ';
    forall i | 0 <= i < 5
      ensures SameLetter(t[..5][i], "CHECK"[i])
    {
      LowerIsSameLetter(t[i], "CHECK"[i]);
    }
    assert WordAt(t, "CHECK");
  }

  lemma KnownParam()
    ensures ItemOf(Columns, Some("max=5")) == [] && ItemOf(Constraints, Some("max=5")) == []
  {
    hide ItemOf, Trim, OpensConstraint, HoldsWithoutRowid;
    var t := "max=5";
    TrimmedStays(t);
    DefinitionOf(t);
    NoConstraint(t);
    assert t[..3] == "max";
    UnquotedIsOutside("max");
    TrimmedStays("max");
    assert ParamAt(t, 3);
  }

  lemma ItemsMore(section: Section, args: seq<Option<string>>, raw: Option<string>)
    ensures Items(section, args + [raw]) == Items(section, args) + ItemOf(section, raw)
  {
    hide ItemOf;
    assert (args + [raw])[..|args|] == args;
  }

  const KNOWN_ARGS: seq<Option<string>> :=
    [Some("CHECK (id)"), Some("id INT"), Some("max=5"), Some("b TEXT"), Some("WITHOUT ROWID"), None]

  const KNOWN_EXTRAS: seq<Option<string>> := [Some("h HIDDEN"), None]

  lemma KnownItems()
    ensures Items(Columns, KNOWN_ARGS) == ["id INT", "b TEXT"]
    ensures Items(Constraints, KNOWN_ARGS) == ["CHECK (id)"]
    ensures IsWithoutRowid(KNOWN_ARGS)
  {
    hide ItemOf, Items, SaysWithoutRowid;
    KnownConstraint();
    KnownParam();
    PlainColumn("id INT");
    PlainColumn("b TEXT");
    OptionIsDropped();
    assert SaysWithoutRowid(KNOWN_ARGS[4]);
    KnownSection(Columns);
    KnownSection(Constraints);
    NullIsNoItem(Columns);
    NullIsNoItem(Constraints);
  }

  lemma NullIsNoItem(section: Section)
    ensures ItemOf(section, None) == []
  {
  }

  lemma KnownSection(section: Section)
    ensures Items(section, KNOWN_ARGS)
         == ItemOf(section, Some("CHECK (id)")) + ItemOf(section, Some("id INT"))
            + ItemOf(section, Some("max=5")) + ItemOf(section, Some("b TEXT"))
            + ItemOf(section, Some("WITHOUT ROWID")) + ItemOf(section, None)
  {
    hide ItemOf, Items;
    var a: Option<string>, b: Option<string>, c: Option<string> :=
      Some("CHECK (id)"), Some("id INT"), Some("max=5");
    var d: Option<string>, e: Option<string>, f: Option<string> := Some("b TEXT"), Some("WITHOUT ROWID"), None;
    ItemsOfOne(section, a);
    ItemsMore(section, [a], b);
    ItemsMore(section, [a, b], c);
    ItemsMore(section, [a, b, c], d);
    ItemsMore(section, [a, b, c, d], e);
    ItemsMore(section, [a, b, c, d, e], f);
    assert [a] + [b] == [a, b] && [a, b] + [c] == [a, b, c] && [a, b, c] + [d] == [a, b, c, d];
    assert [a, b, c, d] + [e] == [a, b, c, d, e] && [a, b, c, d, e] + [f] == KNOWN_ARGS;
  }

  lemma KnownExtras()
    ensures Items(Extras, KNOWN_EXTRAS) == ["h HIDDEN"]
  {
    hide Items;
    ItemsOfOne(Extras, Some("h HIDDEN"));
    ItemsMore(Extras, [Some("h HIDDEN")], None);
    assert [Some("h HIDDEN")] + [None] == KNOWN_EXTRAS;
  }

  lemma JoinedFour(a: string, b: string, c: string, d: string)
    ensures Joined([a, b, c, d]) == a + ", " + b + ", " + c + ", " + d
  {
    hide Joined;
    EmptyJoined();
    JoinedStep([], a);
    JoinedStep([a], b);
    JoinedStep([a, b], c);
    JoinedStep([a, b, c], d);
    assert [] + [a] == [a] && [a] + [b] == [a, b] && [a, b] + [c] == [a, b, c] && [a, b, c] + [d] == [a, b, c, d];
  }

  /** A known statement: the columns first, then the extra columns, then the constraints, whatever the order of the
      arguments; no parameter; the suffix. */
  lemma KnownDdl()
    ensures Ddl("t", KNOWN_ARGS, KNOWN_EXTRAS)
         == "CREATE TABLE t(id INT, b TEXT, h HIDDEN, CHECK (id)) WITHOUT ROWID"
  {
    hide Items, Joined, IsWithoutRowid, KNOWN_ARGS, KNOWN_EXTRAS;
    KnownItems();
    KnownExtras();
    assert AllItems(KNOWN_ARGS, KNOWN_EXTRAS) == ["id INT", "b TEXT", "h HIDDEN", "CHECK (id)"];
    JoinedFour("id INT", "b TEXT", "h HIDDEN", "CHECK (id)");
    KnownText();
  }

  lemma KnownText()
    ensures "CREATE TABLE " + "t" + "("
            + ("id INT" + ", " + "b TEXT" + ", " + "h HIDDEN" + ", " + "CHECK (id)") + ")" + " WITHOUT ROWID"
         == "CREATE TABLE t(id INT, b TEXT, h HIDDEN, CHECK (id)) WITHOUT ROWID"
  {
    var head := "CREATE TABLE t(";
    assert "CREATE TABLE " + "t" + "(" == head;
    Regrouped(head, "id INT", "b TEXT", "h HIDDEN", "CHECK (id)", " WITHOUT ROWID");
    KnownFront();
    KnownBack();
  }

  lemma Regrouped(head: string, a: string, b: string, c: string, d: string, tail: string)
    ensures head + (a + ", " + b + ", " + c + ", " + d) + ")" + tail
         == head + a + ", " + b + ", " + c + ", " + d + ")" + tail
  {
  }

  lemma KnownFront()
    ensures "CREATE TABLE t(" + "id INT" + ", " + "b TEXT" == "CREATE TABLE t(id INT, b TEXT"
  {
    assert "CREATE TABLE t(" + "id INT" == "CREATE TABLE t(id INT";
    assert "CREATE TABLE t(id INT" + ", " == "CREATE TABLE t(id INT, ";
  }

  lemma KnownBack()
    ensures "CREATE TABLE t(id INT, b TEXT" + ", " + "h HIDDEN" + ", " + "CHECK (id)" + ")" + " WITHOUT ROWID"
         == "CREATE TABLE t(id INT, b TEXT, h HIDDEN, CHECK (id)) WITHOUT ROWID"
  {
    assert "CREATE TABLE t(id INT, b TEXT" + ", " == "CREATE TABLE t(id INT, b TEXT, ";
    assert "CREATE TABLE t(id INT, b TEXT, " + "h HIDDEN" == "CREATE TABLE t(id INT, b TEXT, h HIDDEN";
    var front := "CREATE TABLE t(id INT, b TEXT, h HIDDEN, ";
    assert "CREATE TABLE t(id INT, b TEXT, h HIDDEN" + ", " == front;
    assert front + "CHECK (id)" == "CREATE TABLE t(id INT, b TEXT, h HIDDEN, CHECK (id)";
  }

  /** Which name the table gets. */
  lemma TableNames(custom: string, argvName: string)
    requires custom != "" && argvName != ""
    ensures TableName(custom, Some(argvName)) == TableName(custom, None) == custom
    ensures TableName("", Some(argvName)) == argvName
    ensures TableName("", Some("")) == TableName("", None) == "x"
  {
  }
}

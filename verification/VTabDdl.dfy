/** SqliteVTabArgs::format_declare_vtab_sql: the CREATE TABLE text synthesised from the arguments into a
    buffer of bounded size. */
module VTabDdl {
  import opened Wrappers
  import opened VTabText
  import opened VTabKeywords
  import opened VTabColumn
  import opened VTabConstraint
  import opened VTabArg

  // ---------------------------------------------------------------- the text

  function Joined(items: seq<string>): string {
    if items == [] then ""
    else if |items| == 1 then items[0]
    else Joined(items[..|items| - 1]) + ", " + items[|items| - 1]
  }

  /** The three parts of the item list, in the order in which they are emitted. */
  datatype Section = Columns | Extras | Constraints

  /** What an argument, or an extra column, contributes to a section; null extra columns are skipped. */
  function ItemOf(section: Section, raw: Option<string>): seq<string> {
    match section
    case Columns => (var a := Classify(raw); if a.ColumnArg? then [FullDef(a.column)] else [])
    case Extras => if raw.Some? then [raw.value] else []
    case Constraints => (var a := Classify(raw); if a.ConstraintArg? then [a.constraint.full] else [])
  }

  function Items(section: Section, args: seq<Option<string>>): seq<string> {
    if args == [] then [] else Items(section, args[..|args| - 1]) + ItemOf(section, args[|args| - 1])
  }

  predicate SaysWithoutRowid(raw: Option<string>) { raw.Some? && HasWithoutRowid(DropSpaces(raw.value)) }

  predicate IsWithoutRowid(args: seq<Option<string>>) {
    exists i | 0 <= i < |args| :: SaysWithoutRowid(args[i])
  }

  /** The table name: the override, else argv[2], else "x". */
  function TableName(custom: string, argvName: Option<string>): string {
    var tbl := if custom == "" then (if argvName.Some? then argvName.value else "") else custom;
    if tbl == "" then "x" else tbl
  }

  function AllItems(args: seq<Option<string>>, extras: seq<Option<string>>): seq<string> {
    Items(Columns, args) + Items(Extras, extras) + Items(Constraints, args)
  }

  function Suffix(args: seq<Option<string>>): string {
    if IsWithoutRowid(args) then " WITHOUT ROWID" else ""
  }

  /** The columns, the extra columns, then the constraints; parameters and options are dropped. */
  function Ddl(tbl: string, args: seq<Option<string>>, extras: seq<Option<string>>): string {
    "CREATE TABLE " + tbl + "(" + Joined(AllItems(args, extras)) + ")" + Suffix(args)
  }

  // ---------------------------------------------------------------- the buffer

  /** The buffer after `text` has been appended from the start: cells that fit, short of the last one of the
      capacity, hold the text; all others are as before. */
  function Filled(before: seq<char>, cap: nat, text: string): seq<char> {
    seq(|before|, i requires 0 <= i < |before| => if i < |text| && i + 1 < cap then text[i] else before[i])
  }

  /** ... and terminated. */
  function Stored(before: seq<char>, cap: nat, text: string): seq<char>
    requires cap <= |before|
  {
    if cap == 0 then before
    else Filled(before, cap, text)[(if |text| < cap then |text| else cap - 1) := '\0']
  }

  /** The buffer holds exactly the longest prefix of the text that fits with its NUL, and nothing at or beyond
      the capacity, or behind the NUL, has been written. */
  lemma StoredIsLongestPrefix(before: seq<char>, cap: nat, text: string)
    requires 0 < cap <= |before|
    ensures var n := if |text| < cap then |text| else cap - 1;
            var after := Stored(before, cap, text);
            && |after| == |before| && after[..n] == text[..n] && after[n] == '\0' && after[n + 1..] == before[n + 1..]
            && n + 1 <= cap && (n == |text| || n + 1 == cap)
  {
  }

  /** append_str: characters beyond the capacity are only counted. */
  method Append(out: array?<char>, cap: nat, ghost before: seq<char>, ghost text: string, written0: nat, s: string)
      returns (written: nat)
    requires out != null ==> cap <= out.Length && out[..] == Filled(before, cap, text)
    requires written0 == |text|
    modifies out
    ensures written == |text + s|
    ensures out != null ==> out[..] == Filled(before, cap, text + s)
  {
    written := written0;
    var i := 0;
    while i < |s|
      invariant 0 <= i <= |s| && written == |text| + i
      invariant out != null ==> out[..] == Filled(before, cap, text + s[..i])
    {
      if out != null {
        FilledStep(before, cap, text + s[..i], s[i]);
        assert text + s[..i] + [s[i]] == text + s[..i + 1];
        if written + 1 < cap {
          out[written] := s[i];
        }
      }
      written := written + 1;
      i := i + 1;
    }
    assert s[..|s|] == s;
  }

  lemma FilledStep(before: seq<char>, cap: nat, text: string, c: char)
    requires cap <= |before|
    ensures Filled(before, cap, text + [c])
         == if |text| + 1 < cap then Filled(before, cap, text)[|text| := c] else Filled(before, cap, text)
  {
  }

  lemma FilledNothing(before: seq<char>, cap: nat)
    ensures Filled(before, cap, "") == before
  {
  }

  lemma JoinedStep(items: seq<string>, item: string)
    ensures Joined(items + [item]) == if items == [] then item else Joined(items) + ", " + item
  {
    assert (items + [item])[..|items|] == items;
  }

  /** One item of the list, behind a separator unless it is the first. */
  method AppendItem(out: array?<char>, cap: nat, ghost before: seq<char>, ghost head: string, ghost items: seq<string>,
                    written0: nat, first: bool, item: string)
      returns (written: nat)
    requires out != null ==> cap <= out.Length && out[..] == Filled(before, cap, head + Joined(items))
    requires written0 == |head + Joined(items)| && (first <==> items == [])
    modifies out
    ensures written == |head + Joined(items + [item])|
    ensures out != null ==> out[..] == Filled(before, cap, head + Joined(items + [item]))
  {
    hide Filled, Joined;
    written := written0;
    ghost var text := head + Joined(items);
    JoinedStep(items, item);
    if !first {
      written := Append(out, cap, before, text, written, ", ");
      text := text + ", ";
      assert text + item == head + (Joined(items) + ", " + item);
    } else {
      EmptyJoined();
      assert text + item == head + item;
    }
    written := Append(out, cap, before, text, written, item);
  }

  lemma EmptyJoined()
    ensures Joined([]) == ""
  {
  }

  lemma ItemsStep(section: Section, args: seq<Option<string>>, i: nat)
    requires i < |args|
    ensures Items(section, args[..i + 1]) == Items(section, args[..i]) + ItemOf(section, args[i])
  {
    assert args[..i + 1][..i] == args[..i];
  }

  /** The body of each of the three loops: classify, and take what belongs to the section. */
  method MakeItem(section: Section, raw: Option<string>) returns (item: seq<string>)
    ensures item == ItemOf(section, raw) && |item| <= 1
  {
    hide Classify, FullDef;
    if section == Extras {
      return if raw.Some? then [raw.value] else [];
    }
    var a := MakeArg(raw);
    item := if section == Columns && a.ColumnArg? then [FullDef(a.column)]
            else if section == Constraints && a.ConstraintArg? then [a.constraint.full]
            else [];
  }

  /** One of the three loops, behind the items already emitted. */
  method AppendSection(section: Section, out: array?<char>, cap: nat, ghost before: seq<char>, ghost head: string,
                       ghost prior: seq<string>, written0: nat, first0: bool, args: seq<Option<string>>)
      returns (written: nat, first: bool)
    requires out != null ==> cap <= out.Length && out[..] == Filled(before, cap, head + Joined(prior))
    requires written0 == |head + Joined(prior)| && (first0 <==> prior == [])
    modifies out
    ensures written == |head + Joined(prior + Items(section, args))|
    ensures first <==> prior + Items(section, args) == []
    ensures out != null ==> out[..] == Filled(before, cap, head + Joined(prior + Items(section, args)))
  {
    hide Filled, Joined, ItemOf;
    written, first := written0, first0;
    ghost var done := prior;
    assert prior + [] == prior;
    var i := 0;
    while i < |args|
      invariant 0 <= i <= |args| && done == prior + Items(section, args[..i])
      invariant first <==> done == []
      invariant written == |head + Joined(done)|
      invariant out != null ==> out[..] == Filled(before, cap, head + Joined(done))
    {
      ItemsStep(section, args, i);
      ghost var next := prior + Items(section, args[..i + 1]);
      assert next == done + ItemOf(section, args[i]);
      var item := MakeItem(section, args[i]);
      if item != [] {
        written := AppendItem(out, cap, before, head, done, written, first, item[0]);
        first := false;
        assert item == [item[0]];
      } else {
        assert next == done;
      }
      done := next;
      i := i + 1;
    }
    assert args[..|args|] == args;
  }

  method FindWithoutRowid(args: seq<Option<string>>) returns (found: bool)
    ensures found <==> IsWithoutRowid(args)
  {
    var i := 0;
    while i < |args|
      invariant 0 <= i <= |args| && forall k | 0 <= k < i :: !SaysWithoutRowid(args[k])
    {
      if args[i].Some? {
        var raw := args[i].value;
        var s := SkipSpaces(raw, 0);
        assert raw[0..] == raw;
        var here := HasKeywordSequence(raw[s..], "WITHOUT", Some("ROWID"));
        if here {
          assert SaysWithoutRowid(args[i]);
          return true;
        }
      }
      i := i + 1;
    }
    return false;
  }

  /** The whole item list between the parentheses. */
  method AppendItems(out: array?<char>, cap: nat, ghost before: seq<char>, ghost head: string, written0: nat,
                     args: seq<Option<string>>, extras: seq<Option<string>>)
      returns (written: nat)
    requires out != null ==> cap <= out.Length && out[..] == Filled(before, cap, head)
    requires written0 == |head|
    modifies out
    ensures written == |head + Joined(AllItems(args, extras))|
    ensures out != null ==> out[..] == Filled(before, cap, head + Joined(AllItems(args, extras)))
  {
    hide Filled, Joined, Items;
    EmptyJoined();
    assert head + "" == head;
    ghost var columns, more := Items(Columns, args), Items(Extras, extras);
    assert [] + columns == columns;
    var first;
    written, first := AppendSection(Columns, out, cap, before, head, [], written0, true, args);
    written, first := AppendSection(Extras, out, cap, before, head, columns, written, first, extras);
    written, first := AppendSection(Constraints, out, cap, before, head, columns + more, written, first, args);
  }

  method Format(out: array?<char>, cap: nat, custom: string, argvName: Option<string>,
                args: seq<Option<string>>, extras: seq<Option<string>>)
      returns (length: nat)
    requires out != null ==> cap <= out.Length
    modifies out
    ensures length == |Ddl(TableName(custom, argvName), args, extras)|
    ensures out != null ==>
              out[..] == Stored(old(out[..]), cap, Ddl(TableName(custom, argvName), args, extras))
  {
    hide Filled, Joined, Items, AllItems, IsWithoutRowid;
    var tbl := TableName(custom, argvName);
    ghost var before := if out != null then out[..] else [];
    FilledNothing(before, cap);
    assert "" + "CREATE TABLE " == "CREATE TABLE ";
    var written := Append(out, cap, before, "", 0, "CREATE TABLE ");
    written := Append(out, cap, before, "" + "CREATE TABLE ", written, tbl);
    written := Append(out, cap, before, "" + "CREATE TABLE " + tbl, written, "(");
    ghost var head := "" + "CREATE TABLE " + tbl + "(";
    written := AppendItems(out, cap, before, head, written, args, extras);
    ghost var list := head + Joined(AllItems(args, extras));
    written := Append(out, cap, before, list, written, ")");
    ghost var text := list + ")";
    var without := FindWithoutRowid(args);
    if without {
      written := Append(out, cap, before, text, written, " WITHOUT ROWID");
    }
    assert text + "" == text;
    text := text + Suffix(args);
    HeadIsDdl(tbl, args, extras);
    if out != null && cap > 0 {
      var nullPos := if written < cap then written else cap - 1;
      out[nullPos] := '\0';
    } else if out != null {
      FilledWithoutRoom(before, text);
    }
    length := written;
  }

  lemma HeadIsDdl(tbl: string, args: seq<Option<string>>, extras: seq<Option<string>>)
    ensures "" + "CREATE TABLE " + tbl + "(" + Joined(AllItems(args, extras)) + ")" + Suffix(args)
         == Ddl(tbl, args, extras)
  {
    assert "" + "CREATE TABLE " == "CREATE TABLE ";
  }

  lemma FilledWithoutRoom(before: seq<char>, text: string)
    ensures Filled(before, 0, text) == before
  {
  }

  // ---------------------------------------------------------------- emitting and reading back

  /** What an emitted column or constraint looks like: the trimmed argument. */
  lemma ItemIsTrimmed(raw: Option<string>)
    requires raw.Some?
    ensures var x := Trim(raw.value);
            && ItemOf(Columns, raw) == (if Classify(raw).ColumnArg? then [x] else [])
            && ItemOf(Constraints, raw) == (if Classify(raw).ConstraintArg? then [x] else [])
            && Classify(Some(x)) == Classify(raw)
  {
    hide IsConstraintPrefix, HasWithoutRowid, EqualsAt, SplitsAt, MakeColumn, FullDef, Trimmed;
    var x := Trim(raw.value);
    ClassifyIgnoresPadding(raw.value);
    TrimOfBase(raw.value);
    var a, b := TrimSplits(raw.value);
    FullDefIsWhole(x);
  }

  lemma TrimOfBase(s: string)
    ensures Trim(DropSpaces(s)) == Trim(s)
  {
    SpacesLenIs(s);
    var d := DropSpaces(s);
    if d != "" {
      assert d[0] == s[SpacesLen(s)];
    }
  }

  /** Column definitions and constraints survive: the definition of each is its trimmed argument, and that text
      classifies to the same column or constraint again. */
  lemma DefinitionSurvives(raw: string)
    ensures var a := Classify(Some(raw));
            && (a.ColumnArg? ==> FullDef(a.column) == Trim(raw) && Classify(Some(FullDef(a.column))) == a)
            && (a.ConstraintArg? ==> a.constraint.full == Trim(raw) && Classify(Some(a.constraint.full)) == a)
  {
    hide Classify, Trim, FullDef;
    ItemIsTrimmed(Some(raw));
    var a := Classify(Some(raw));
    if a.ColumnArg? { assert ItemOf(Columns, Some(raw))[0] == FullDef(a.column); }
    if a.ConstraintArg? { assert ItemOf(Constraints, Some(raw))[0] == a.constraint.full; }
  }

  predicate EmitsColumn(x: string) { ItemOf(Columns, Some(x)) == [x] && ItemOf(Constraints, Some(x)) == [] }

  predicate EmitsConstraint(x: string) { ItemOf(Columns, Some(x)) == [] && ItemOf(Constraints, Some(x)) == [x] }

  lemma EmittedAgain(raw: Option<string>)
    ensures forall x | x in ItemOf(Columns, raw) :: EmitsColumn(x) && !SaysWithoutRowid(Some(x))
    ensures forall x | x in ItemOf(Constraints, raw) ::
              EmitsConstraint(x) && (SaysWithoutRowid(Some(x)) ==> SaysWithoutRowid(raw))
  {
    hide IsConstraintPrefix, HasWithoutRowid, EqualsAt, SplitsAt, MakeColumn, FullDef, Trim, ParseConstraint, Trimmed;
    if raw.Some? {
      var x := Trim(raw.value);
      ItemIsTrimmed(raw);
      ItemIsTrimmed(Some(x));
      TrimTwice(raw.value);
      OptionIgnoresPadding(raw.value);
    }
  }

  lemma OptionIgnoresPadding(raw: string)
    ensures HasWithoutRowid(DropSpaces(Trim(raw))) <==> HasWithoutRowid(DropSpaces(raw))
  {
    hide HasWithoutRowid, Trim, AllSpaces, DropSpaces;
    var b := BaseOf(raw);
    OptionPadded(Trim(raw), b);
  }

  lemma {:induction false} ItemsEmitAgain(args: seq<Option<string>>)
    ensures forall x | x in Items(Columns, args) :: EmitsColumn(x) && !SaysWithoutRowid(Some(x))
    ensures forall x | x in Items(Constraints, args) ::
              EmitsConstraint(x) && (SaysWithoutRowid(Some(x)) ==> IsWithoutRowid(args))
  {
    hide ItemOf, EmitsColumn, EmitsConstraint, SaysWithoutRowid;
    if args != [] {
      var n := |args| - 1;
      ItemsEmitAgain(args[..n]);
      EmittedAgain(args[n]);
      forall x | x in Items(Constraints, args) && SaysWithoutRowid(Some(x))
        ensures IsWithoutRowid(args)
      {
        if x in Items(Constraints, args[..n]) {
          var i :| 0 <= i < n && SaysWithoutRowid(args[..n][i]);
          assert SaysWithoutRowid(args[i]);
        } else {
          assert SaysWithoutRowid(args[n]);
        }
      }
    }
  }

  function AsArgs(items: seq<string>): seq<Option<string>> {
    seq(|items|, i requires 0 <= i < |items| => Some(items[i]))
  }

  /** The emitted definitions, and the option if the suffix was printed, as new arguments. */
  function Emitted(args: seq<Option<string>>): seq<Option<string>> {
    AsArgs(Items(Columns, args)) + AsArgs(Items(Constraints, args))
    + if IsWithoutRowid(args) then [Some("WITHOUT ROWID")] else []
  }

  lemma {:induction false} ItemsOfSum(a: seq<Option<string>>, b: seq<Option<string>>, section: Section)
    ensures Items(section, a + b) == Items(section, a) + Items(section, b)
  {
    hide ItemOf;
    if b == [] {
      assert a + b == a;
    } else {
      var n := |b| - 1;
      assert (a + b)[..|a + b| - 1] == a + b[..n];
      ItemsOfSum(a, b[..n], section);
    }
  }

  lemma {:induction false} ItemsKept(items: seq<string>, section: Section)
    requires forall x | x in items :: ItemOf(section, Some(x)) == [x]
    ensures Items(section, AsArgs(items)) == items
  {
    hide ItemOf;
    if items != [] {
      var n := |items| - 1;
      assert AsArgs(items)[..n] == AsArgs(items[..n]);
      ItemsKept(items[..n], section);
    }
  }

  lemma {:induction false} ItemsDropped(items: seq<string>, section: Section)
    requires forall x | x in items :: ItemOf(section, Some(x)) == []
    ensures Items(section, AsArgs(items)) == []
  {
    hide ItemOf;
    if items != [] {
      var n := |items| - 1;
      assert AsArgs(items)[..n] == AsArgs(items[..n]);
      ItemsDropped(items[..n], section);
    }
  }

  lemma OptionIsDropped()
    ensures var opt := Some("WITHOUT ROWID");
            ItemOf(Columns, opt) == [] && ItemOf(Constraints, opt) == [] && SaysWithoutRowid(opt)
  {
    hide ParseConstraint, MakeColumn, EqualsAt;
    var s := "WITHOUT ROWID";
    assert DropSpaces(s) == s;
    OptionIsFound();
    NotAConstraint();
  }

  lemma OptionIsFound()
    ensures HasWithoutRowid("WITHOUT ROWID")
  {
    var s := "WITHOUT ROWID";
    var r := s[7..];
    assert r == " ROWID" && s[..7] == "WITHOUT";
    assert StartsCi(s, "WITHOUT");
    assert " " + "ROWID" == " ROWID";
    SpacesLenOf(" ", "ROWID");
    assert DropSpaces(r) == "ROWID";
    assert "ROWID"[5..] == "";
    assert KeywordAt(s, true, "WITHOUT", Some("ROWID"));
  }

  lemma NotAConstraint()
    ensures !IsConstraintPrefix("WITHOUT ROWID")
  {
    assert "WITHOUT ROWID"[0] == 'W';
  }

  /** The option argument, if there is one. */
  lemma ItemsOfOption(args: seq<Option<string>>)
    ensures var tail := if IsWithoutRowid(args) then [Some("WITHOUT ROWID")] else [];
            Items(Columns, tail) == [] && Items(Constraints, tail) == []
  {
    hide ItemOf;
    OptionIsDropped();
    var tail := if IsWithoutRowid(args) then [Some("WITHOUT ROWID")] else [];
    if tail != [] { assert tail[..0] == []; }
  }

  lemma EmittedItems(args: seq<Option<string>>)
    ensures Items(Columns, Emitted(args)) == Items(Columns, args)
    ensures Items(Constraints, Emitted(args)) == Items(Constraints, args)
  {
    hide ItemOf, SaysWithoutRowid, Items, AsArgs;
    var columns, constraints := Items(Columns, args), Items(Constraints, args);
    var tail := if IsWithoutRowid(args) then [Some("WITHOUT ROWID")] else [];
    ItemsEmitAgain(args);
    ItemsOfOption(args);
    ItemsKept(columns, Columns);
    ItemsDropped(columns, Constraints);
    ItemsDropped(constraints, Columns);
    ItemsKept(constraints, Constraints);
    ItemsOfSum(AsArgs(columns) + AsArgs(constraints), tail, Columns);
    ItemsOfSum(AsArgs(columns), AsArgs(constraints), Columns);
    ItemsOfSum(AsArgs(columns) + AsArgs(constraints), tail, Constraints);
    ItemsOfSum(AsArgs(columns), AsArgs(constraints), Constraints);
  }

  lemma EmittedSuffix(args: seq<Option<string>>)
    ensures IsWithoutRowid(Emitted(args)) <==> IsWithoutRowid(args)
  {
    hide ItemOf, SaysWithoutRowid, Items;
    var columns, constraints := Items(Columns, args), Items(Constraints, args);
    ItemsEmitAgain(args);
    OptionIsDropped();
    var out := Emitted(args);
    if IsWithoutRowid(args) {
      assert SaysWithoutRowid(out[|out| - 1]);
    } else {
      forall i | 0 <= i < |out|
        ensures !SaysWithoutRowid(out[i])
      {
        if i < |columns| {
          assert out[i] == Some(columns[i]);
        } else {
          assert out[i] == Some(constraints[i - |columns|]);
        }
      }
    }
  }

  /** Feeding the emitted definitions back through the formatter, with the same table name and extra columns,
      gives the identical text. */
  lemma DdlIsIdempotent(tbl: string, args: seq<Option<string>>, extras: seq<Option<string>>)
    ensures Ddl(tbl, Emitted(args), extras) == Ddl(tbl, args, extras)
  {
    hide Items, IsWithoutRowid, Emitted;
    EmittedItems(args);
    EmittedSuffix(args);
  }
}

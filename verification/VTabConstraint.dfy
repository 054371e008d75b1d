/** SqliteVTabConstraint: the parser of table constraints and of their column lists, and the printer whose
    output it reads back. */
module VTabConstraint {
  import opened Wrappers
  import opened VTabText
  import opened VTabKeywords
  import opened VTabColumn

  datatype Kind = Unknown | PrimaryKey | Unique | Check | ForeignKey

  datatype Constraint = Constraint(kind: Kind, name: string, columnsRaw: string, full: string)

  function StripQuotes(s: string): string {
    if |s| >= 2 && IsQuoteOpen(s[0]) && s[|s| - 1] == QuoteClose(s[0]) then s[1..|s| - 1] else s
  }

  // ---------------------------------------------------------------- the constructor

  function KindOf(s: string): Kind {
    if StartsKeyword(s, "PRIMARY KEY") || StartsKeyword(s, "PRIMARY_KEY") then Kind.PrimaryKey
    else if StartsKeyword(s, "UNIQUE") then Kind.Unique
    else if StartsKeyword(s, "CHECK") then Check
    else if StartsKeyword(s, "FOREIGN KEY") then ForeignKey
    else Unknown
  }

  /** Length of an unquoted constraint name. */
  function BareNameLen(s: string): (n: nat)
    ensures n <= |s|
  {
    if s == "" || IsSpace(s[0]) || s[0] == '(' then 0 else 1 + BareNameLen(s[1..])
  }

  function NameLen(s: string): (n: nat)
    ensures n <= |s|
  {
    if s != "" && IsQuoteOpen(s[0]) then QuotedLen(s) else BareNameLen(s)
  }

  /** From position `i`: the first '(' at level 0 and the ')' that brings the level back to 0. */
  function FindGroup(s: string, i: nat, level: int, open: Option<nat>): Option<(nat, nat)>
    requires i <= |s|
    decreases |s| - i
  {
    if i == |s| then None
    else if IsQuoteOpen(s[i]) then FindGroup(s, i + QuotedLen(s[i..]), level, open)
    else if s[i] == '(' then FindGroup(s, i + 1, level + 1, if level == 0 then Some(i) else open)
    else if s[i] == ')' && level == 1 && open.Some? then Some((open.value, i))
    else FindGroup(s, i + 1, if s[i] == ')' then level - 1 else level, open)
  }

  function InsideGroup(s: string, g: Option<(nat, nat)>): string {
    if g.Some? && g.value.0 < g.value.1 <= |s| then Trim(s[g.value.0 + 1..g.value.1]) else ""
  }

  /** The optional "CONSTRAINT <name>" in front: the name without its quotes, and what follows. */
  function SplitName(s: string): (string, string) {
    if StartsKeyword(s, "CONSTRAINT") then
      var named := DropSpaces(s[10..]);
      (StripQuotes(named[..NameLen(named)]), DropSpaces(named[NameLen(named)..]))
    else ("", s)
  }

  function ParseConstraint(full: string): Constraint {
    var (name, rem) := SplitName(DropSpaces(full));
    Constraint(KindOf(rem), name, InsideGroup(rem, FindGroup(rem, 0, 0, None)), full)
  }

  // ---------------------------------------------------------------- the column list

  function FieldLen(s: string): (n: nat)
    ensures n <= |s|
    decreases |s|
  {
    if s == "" || s[0] == ',' then 0
    else if IsQuoteOpen(s[0]) then QuotedLen(s) + FieldLen(s[QuotedLen(s)..])
    else 1 + FieldLen(s[1..])
  }

  /** Length of an unquoted column name. */
  function BareColumnLen(s: string): (n: nat)
    ensures n <= |s|
  {
    if s == "" || IsSpace(s[0]) || s[0] == ',' || s[0] == ')' then 0 else 1 + BareColumnLen(s[1..])
  }

  /** extract_base_column_name */
  function BaseColumnName(raw: string): string {
    var s := DropSpaces(raw);
    if s == "" then ""
    else if IsQuoteOpen(s[0]) then StripQuotes(s[..QuotedLen(s)])
    else StripQuotes(s[..BareColumnLen(s)])
  }

  /** The name in one field, if there is one. */
  function NameIn(field: string): seq<string> {
    var name := BaseColumnName(Trim(field));
    if name == "" then [] else [name]
  }

  function NamesFrom(s: string): seq<string>
    decreases |s|
  {
    var n := FieldLen(s);
    NameIn(s[..n]) + if n == |s| then [] else NamesFrom(s[n + 1..])
  }

  /** for_each_column_name: the names in the order of the calls. */
  function ColumnNames(columnsRaw: string): seq<string> {
    if columnsRaw == "" then [] else NamesFrom(columnsRaw)
  }

  // ---------------------------------------------------------------- the parsers

  /** The loop over an unquoted constraint name. */
  method SkipName(s: string, pos0: nat) returns (pos: nat)
    requires pos0 <= |s|
    ensures pos == pos0 + NameLen(s[pos0..]) <= |s|
  {
    hide QuotedLen;
    if pos0 < |s| && IsQuoteOpen(s[pos0]) {
      pos := SkipQuoted(s, pos0);
      return;
    }
    pos := pos0;
    while pos < |s| && !IsSpace(s[pos]) && s[pos] != '('
      invariant pos0 <= pos <= |s| && pos + BareNameLen(s[pos..]) == pos0 + BareNameLen(s[pos0..])
    {
      assert s[pos..][1..] == s[pos + 1..];
      pos := pos + 1;
    }
  }

  /** The parenthesis scan of the constructor. */
  method ScanGroup(s: string) returns (columnsRaw: string)
    ensures columnsRaw == InsideGroup(s, FindGroup(s, 0, 0, None))
  {
    hide QuotedLen, Trim, IsQuoteOpen;
    var open: Option<nat>, close: Option<nat> := None, None;
    var level: int := 0;
    var i := 0;
    while i < |s| && close.None?
      invariant 0 <= i <= |s| && (open.Some? ==> open.value < i)
      invariant close.None? ==> FindGroup(s, i, level, open) == FindGroup(s, 0, 0, None)
      invariant close.Some? ==>
        open.Some? && open.value < close.value < |s| && FindGroup(s, 0, 0, None) == Some((open.value, close.value))
      decreases |s| - i, close.None?
    {
      if IsQuoteOpen(s[i]) {
        i := SkipQuoted(s, i);
      } else if s[i] == '(' {
        if level == 0 { open := Some(i); }
        level := level + 1;
        i := i + 1;
      } else if s[i] == ')' {
        level := level - 1;
        if level == 0 && open.Some? {
          close := Some(i);
        } else {
          i := i + 1;
        }
      } else {
        i := i + 1;
      }
    }
    columnsRaw := "";
    if open.Some? && close.Some? {
      columnsRaw := TrimSlice(s, open.value + 1, close.value);
    }
  }

  method ReadName(s: string) returns (name: string, rem: string)
    ensures (name, rem) == SplitName(s)
  {
    hide StartsCi, Boundary, NameLen, StripQuotes, SpacesLen;
    if !StartsKeyword(s, "CONSTRAINT") { return "", s; }
    StartsLength(s, "CONSTRAINT");
    var nameStart := SkipSpaces(s, 10);
    var named := s[nameStart..];
    var nameLen := SkipName(named, 0);
    assert named[0..] == named;
    var remStart := SkipSpaces(named, nameLen);
    name, rem := StripQuotes(named[..nameLen]), named[remStart..];
    assert DropSpaces(named[nameLen..]) == named[nameLen..][remStart - nameLen..] == rem;
  }

  method Parse(full: string) returns (c: Constraint)
    ensures c == ParseConstraint(full)
  {
    hide SpacesLen, SplitName, FindGroup, InsideGroup, KindOf;
    var offset := SkipSpaces(full, 0);
    assert full[0..] == full;
    var name, rem := ReadName(full[offset..]);
    var columnsRaw := ScanGroup(rem);
    c := Constraint(KindOf(rem), name, columnsRaw, full);
  }

  /** for_each_column_name, collecting the names it reports. */
  method ForEachColumnName(columnsRaw: string) returns (names: seq<string>)
    ensures names == ColumnNames(columnsRaw)
  {
    hide FieldLen, QuotedLen, IsQuoteOpen, NameIn, NamesFrom;
    names := [];
    if columnsRaw == "" { return; }
    var s := columnsRaw;
    var start, i := 0, 0;
    while i <= |s|
      invariant 0 <= start && 0 <= i <= |s| + 1
      invariant i <= |s| ==> start <= i && FieldLen(s[start..]) == (i - start) + FieldLen(s[i..])
      invariant i <= |s| ==> names + NamesFrom(s[start..]) == NamesFrom(s)
      invariant i == |s| + 1 ==> names == NamesFrom(s)
      decreases |s| + 1 - i
    {
      FieldStep(s, i);
      if i < |s| && IsQuoteOpen(s[i]) {
        i := SkipQuoted(s, i);
        continue;
      }
      if i == |s| || s[i] == ',' {
        assert s[start..][..i - start] == s[start..i];
        var name := NameOf(s[start..i]);
        names := names + name;
        NamesStep(s, start, i);
        start := i + 1;
      }
      i := i + 1;
    }
  }

  method NameOf(field: string) returns (name: seq<string>)
    ensures name == NameIn(field)
  {
    var raw := TrimSlice(field, 0, |field|);
    assert field[0..|field|] == field;
    var base := BaseColumnName(raw);
    name := if base == "" then [] else [base];
  }

  lemma FieldStep(s: string, i: nat)
    requires i <= |s|
    ensures i == |s| || s[i] == ',' ==> FieldLen(s[i..]) == 0
    ensures i < |s| && s[i] != ',' && !IsQuoteOpen(s[i]) ==> FieldLen(s[i..]) == 1 + FieldLen(s[i + 1..])
    ensures i < |s| && IsQuoteOpen(s[i]) ==>
              FieldLen(s[i..]) == QuotedLen(s[i..]) + FieldLen(s[i + QuotedLen(s[i..])..])
  {
    hide QuotedLen;
    if i < |s| {
      assert s[i..][1..] == s[i + 1..] && s[i..][QuotedLen(s[i..])..] == s[i + QuotedLen(s[i..])..];
    }
  }

  lemma NamesStep(s: string, start: nat, i: nat)
    requires start <= i <= |s| && FieldLen(s[start..]) == i - start
    ensures NamesFrom(s[start..]) == NameIn(s[start..i]) + if i == |s| then [] else NamesFrom(s[i + 1..])
  {
    hide FieldLen, NameIn;
    assert s[start..][..i - start] == s[start..i];
    if i < |s| { assert s[start..][i - start + 1..] == s[i + 1..]; }
  }
}

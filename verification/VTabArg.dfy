/** SqliteVTabArg: one CREATE VIRTUAL TABLE argument, classified as parameter, column, constraint or option. */
module VTabArg {
  import opened Wrappers
  import opened VTabText
  import opened VTabGrammar
  import opened VTabKeywords
  import opened VTabColumn
  import opened VTabConstraint

  datatype Arg =
    | Empty
    | ParamArg(key: string, value: string)
    | ColumnArg(column: Column)
    | ConstraintArg(constraint: Constraint)
    | OptionArg

  /** is_table_constraint_prefix */
  predicate IsConstraintPrefix(s: string) {
    || StartsKeyword(s, "PRIMARY KEY") || StartsKeyword(s, "PRIMARY_KEY") || StartsKeyword(s, "UNIQUE")
    || StartsKeyword(s, "CHECK") || StartsKeyword(s, "FOREIGN KEY") || StartsKeyword(s, "CONSTRAINT")
  }

  predicate HasWithoutRowid(s: string) { HasKeyword(s, "WITHOUT", Some("ROWID")) }

  /** The first '=' outside literals, unless a parenthesis opens before it. */
  function EqualsAt(s: string): (i: Option<nat>)
    ensures i.Some? ==> i.value < |s|
    decreases |s|
  {
    if s == "" || s[0] == '(' then None
    else if IsQuoteOpen(s[0]) then Shift(QuotedLen(s), EqualsAt(s[QuotedLen(s)..]))
    else if s[0] == '=' then Some(0)
    else Shift(1, EqualsAt(s[1..]))
  }

  function Shift(n: nat, i: Option<nat>): Option<nat> { if i.Some? then Some(n + i.value) else None }

  predicate NoSpaces(s: string) { forall i | 0 <= i < |s| :: !IsSpace(s[i]) }

  /** The argument is a parameter with its '=' at this position: something precedes it, without inner spaces. */
  predicate SplitsAt(base: string, i: Option<nat>) {
    i.Some? && 0 < i.value < |base| && NoSpaces(Trim(base[..i.value]))
  }

  /** The four-way classifier, from the first character that is not a space. */
  function ClassifyBase(base: string): Arg {
    if base == "" then Empty
    else if IsConstraintPrefix(base) then ConstraintArg(ParseConstraint(Trim(base)))
    else if HasWithoutRowid(base) then OptionArg
    else if SplitsAt(base, EqualsAt(base)) then
      var i := EqualsAt(base).value;
      ParamArg(Trim(base[..i]), Trim(base[i + 1..]))
    else ColumnArg(MakeColumn(Trim(base)))
  }

  /** The constructor; None is a null pointer. */
  function Classify(raw: Option<string>): Arg {
    if raw.None? then Empty else ClassifyBase(DropSpaces(raw.value))
  }

  // ---------------------------------------------------------------- the classifier

  /** The loop of step 3. */
  method FindEquals(base: string) returns (eq: Option<nat>)
    ensures eq == if SplitsAt(base, EqualsAt(base)) then EqualsAt(base) else None
  {
    hide QuotedLen, IsQuoteOpen, Trim, EqualsAt, NoSpaces;
    var i := 0;
    assert base[0..] == base;
    NoEqualsAtEnd();
    assert Shift(0, EqualsAt(base)) == EqualsAt(base);
    while i < |base|
      invariant 0 <= i <= |base|
      invariant EqualsAt(base) == Shift(i, EqualsAt(base[i..]))
    {
      EqualsStep(base, i);
      if IsQuoteOpen(base[i]) {
        i := SkipQuoted(base, i);
      } else if base[i] == '(' {
        return None;
      } else if base[i] == '=' {
        var key := TrimSlice(base, 0, i);
        assert base[0..i] == base[..i];
        var validKey := ScanKey(key);
        return if validKey && i > 0 then Some(i) else None;
      } else {
        i := i + 1;
      }
    }
    return None;
  }

  lemma NoEqualsAtEnd()
    ensures EqualsAt("") == None
  {
  }

  method ScanKey(key: string) returns (valid: bool)
    ensures valid <==> NoSpaces(key)
  {
    var k := 0;
    while k < |key|
      invariant 0 <= k <= |key| && forall i | 0 <= i < k :: !IsSpace(key[i])
    {
      if IsSpace(key[k]) { return false; }
      k := k + 1;
    }
    return true;
  }

  lemma EqualsStep(s: string, i: nat)
    requires i < |s|
    ensures s[i] == '(' ==> EqualsAt(s[i..]) == None
    ensures s[i] == '=' ==> EqualsAt(s[i..]) == Some(0)
    ensures IsQuoteOpen(s[i]) ==> EqualsAt(s[i..]) == Shift(QuotedLen(s[i..]), EqualsAt(s[i + QuotedLen(s[i..])..]))
    ensures s[i] != '(' && s[i] != '=' && !IsQuoteOpen(s[i]) ==> EqualsAt(s[i..]) == Shift(1, EqualsAt(s[i + 1..]))
  {
    hide QuotedLen;
    assert s[i..][1..] == s[i + 1..] && s[i..][QuotedLen(s[i..])..] == s[i + QuotedLen(s[i..])..];
  }

  method MakeArg(raw: Option<string>) returns (arg: Arg)
    ensures arg == Classify(raw)
  {
    hide IsConstraintPrefix, HasKeyword, NoSpaces, EqualsAt, MakeColumn, ParseConstraint, Trim, SpacesLen;
    if raw.None? { return Empty; }
    var start := SkipSpaces(raw.value, 0);
    assert raw.value[0..] == raw.value;
    var base := raw.value[start..];
    if base == "" { return Empty; }
    assert base[0..|base|] == base && base[..|base|] == base;
    if IsConstraintPrefix(base) {
      var full := TrimSlice(base, 0, |base|);
      var c := Parse(full);
      return ConstraintArg(c);
    }
    var option := HasKeywordSequence(base, "WITHOUT", Some("ROWID"));
    if option { return OptionArg; }
    var eq := FindEquals(base);
    if eq.Some? {
      var key := TrimSlice(base, 0, eq.value);
      var value := TrimSlice(base, eq.value + 1, |base|);
      assert base[0..eq.value] == base[..eq.value] && base[eq.value + 1..|base|] == base[eq.value + 1..];
      return ParamArg(key, value);
    }
    var full := TrimSlice(base, 0, |base|);
    return ColumnArg(MakeColumn(full));
  }

  // ---------------------------------------------------------------- only the trimmed text counts

  lemma StartsCiPadded(t: string, b: string, kw: string)
    requires AllSpaces(b) && kw != "" && IsIdentChar(kw[|kw| - 1])
    ensures StartsCi(t + b, kw) <==> StartsCi(t, kw)
    ensures |kw| <= |t| ==> (t + b)[|kw|..] == t[|kw|..] + b
  {
    if |kw| > |t| && |kw| <= |t + b| {
      var i := |kw| - 1;
      assert (t + b)[i] == b[i - |t|];
    } else if |kw| <= |t| {
      assert forall i | 0 <= i < |kw| :: (t + b)[i] == t[i];
    }
  }

  lemma BoundaryPadded(t: string, b: string)
    requires AllSpaces(b)
    ensures Boundary(t + b) <==> Boundary(t)
  {
    if t == "" { assert t + b == b; }
  }

  lemma StartsPadded(t: string, b: string, kw: string)
    requires AllSpaces(b) && kw != "" && IsIdentChar(kw[|kw| - 1])
    ensures StartsKeyword(t + b, kw) <==> StartsKeyword(t, kw)
  {
    hide StartsCi, Boundary, AllSpaces;
    StartsCiPadded(t, b, kw);
    if StartsCi(t, kw) {
      StartsCiLength(t, kw);
      BoundaryPadded(t[|kw|..], b);
    }
  }

  lemma PrefixPadded(t: string, b: string)
    requires AllSpaces(b)
    ensures IsConstraintPrefix(t + b) <==> IsConstraintPrefix(t)
  {
    hide StartsKeyword, AllSpaces;
    StartsPadded(t, b, "PRIMARY KEY");
    StartsPadded(t, b, "PRIMARY_KEY");
    StartsPadded(t, b, "UNIQUE");
    StartsPadded(t, b, "CHECK");
    StartsPadded(t, b, "FOREIGN KEY");
    StartsPadded(t, b, "CONSTRAINT");
  }

  lemma {:induction false} DropSpacesPadded(v: string, b: string)
    requires AllSpaces(b)
    ensures DropSpaces(v + b) == if DropSpaces(v) == "" then "" else DropSpaces(v) + b
  {
    if v == "" {
      assert v + b == b + "";
      SpacesLenOf(b, "");
    } else if IsSpace(v[0]) {
      DropSpacesPadded(v[1..], b);
      assert (v + b)[1..] == v[1..] + b;
      DropSpacesStep(v);
      DropSpacesStep(v + b);
    }
  }

  lemma EndsInIdent(kw: string)
    requires IsKeyword(kw)
    ensures kw != "" && IsIdentChar(kw[|kw| - 1])
  {
  }

  lemma KeywordAtPadded(t: string, b: string, prevOk: bool, kw1: string, kw2: string)
    requires AllSpaces(b) && IsKeyword(kw1) && IsKeyword(kw2)
    ensures KeywordAt(t + b, prevOk, kw1, Some(kw2)) <==> KeywordAt(t, prevOk, kw1, Some(kw2))
  {
    hide StartsCi, Boundary, AllSpaces, DropSpaces, IsKeyword, IsIdentChar;
    EndsInIdent(kw1);
    EndsInIdent(kw2);
    StartsCiPadded(t, b, kw1);
    if StartsCi(t, kw1) {
      StartsCiLength(t, kw1);
      var v := t[|kw1|..];
      BoundaryPadded(v, b);
      DropSpacesPadded(v, b);
      var r := DropSpaces(v);
      StartsCiPadded(r, b, kw2);
      if r == "" {
        NothingStartsEmpty(kw2);
      } else if StartsCi(r, kw2) {
        StartsCiLength(r, kw2);
        BoundaryPadded(r[|kw2|..], b);
      }
    }
  }

  lemma NothingStartsEmpty(kw: string)
    requires kw != ""
    ensures !StartsCi("", kw)
  {
  }

  lemma {:induction false} OccursPadded(q: Quote, t: string, b: string, prevOk: bool, kw1: string, kw2: string)
    requires AllSpaces(b) && IsKeyword(kw1) && IsKeyword(kw2)
    ensures Occurs(q, t + b, prevOk, kw1, Some(kw2)) <==> Occurs(q, t, prevOk, kw1, Some(kw2))
    decreases |t|
  {
    hide KeywordAt, IsKeyword, AllSpaces;
    if t == "" {
      assert t + b == b;
      NothingInSpaces(q, b, prevOk, kw1, Some(kw2));
    } else {
      KeywordAtPadded(t, b, prevOk, kw1, kw2);
      assert (t + b)[1..] == t[1..] + b;
      OccursPadded(Read(q, t[0]), t[1..], b, !IsIdentChar(t[0]), kw1, kw2);
    }
  }

  lemma {:induction false} NothingInSpaces(q: Quote, b: string, prevOk: bool, kw1: string, kw2: Option<string>)
    requires AllSpaces(b) && IsKeyword(kw1)
    ensures !Occurs(q, b, prevOk, kw1, kw2)
    decreases |b|
  {
    if b != "" {
      assert IsIdentChar(kw1[0]);
      NothingInSpaces(Read(q, b[0]), b[1..], !IsIdentChar(b[0]), kw1, kw2);
    }
  }

  lemma OptionPadded(t: string, b: string)
    requires AllSpaces(b)
    ensures HasWithoutRowid(t + b) <==> HasWithoutRowid(t)
  {
    hide Occurs, HasKeywordFrom, AllSpaces;
    SearchIsOccurs(Outside, t + b, true, "WITHOUT", Some("ROWID"));
    SearchIsOccurs(Outside, t, true, "WITHOUT", Some("ROWID"));
    OccursPadded(Outside, t, b, true, "WITHOUT", "ROWID");
  }

  /** Spaces behind a text either stay outside its literals or belong to one that is never closed. */
  lemma {:induction false} TailPadded(t: string, b: string, k: char)
    requires AllSpaces(b) && !IsSpace(k)
    ensures var n := LiteralTailLen(t, k);
            LiteralTailLen(t + b, k) == n || (n == |t| && LiteralTailLen(t + b, k) == |t + b|)
  {
    if t == "" {
      assert t + b == b;
      TailOfSpaces(b, k);
    } else if t[0] != k {
      assert (t + b)[1..] == t[1..] + b;
      TailPadded(t[1..], b, k);
    } else if |t| > 1 && t[1] == k {
      assert (t + b)[2..] == t[2..] + b;
      TailPadded(t[2..], b, k);
    } else {
      assert |t + b| > 1 ==> (t + b)[1] == if |t| > 1 then t[1] else b[0];
    }
  }

  lemma {:induction false} TailOfSpaces(b: string, k: char)
    requires AllSpaces(b) && !IsSpace(k)
    ensures LiteralTailLen(b, k) == |b|
  {
    if b != "" { TailOfSpaces(b[1..], k); }
  }

  lemma {:induction false} EqualsPadded(t: string, b: string)
    requires AllSpaces(b)
    ensures EqualsAt(t + b) == EqualsAt(t)
    decreases |t|
  {
    hide AllSpaces;
    if t == "" {
      assert t + b == b;
      NoEqualsInSpaces(b);
    } else if t[0] == '(' {
    } else if IsQuoteOpen(t[0]) {
      QuotedPadded(t, b);
      var n := QuotedLen(t);
      if QuotedLen(t + b) == n {
        assert (t + b)[n..] == t[n..] + b;
        EqualsPadded(t[n..], b);
      } else {
        assert t[n..] == "" && (t + b)[QuotedLen(t + b)..] == "";
      }
    } else {
      assert (t + b)[1..] == t[1..] + b;
      EqualsPadded(t[1..], b);
    }
  }

  lemma QuotedPadded(t: string, b: string)
    requires AllSpaces(b) && t != "" && IsQuoteOpen(t[0])
    ensures QuotedLen(t + b) == QuotedLen(t) || (QuotedLen(t) == |t| && QuotedLen(t + b) == |t + b|)
  {
    assert (t + b)[1..] == t[1..] + b;
    TailPadded(t[1..], b, QuoteClose(t[0]));
  }

  lemma {:induction false} NoEqualsInSpaces(b: string)
    requires AllSpaces(b)
    ensures EqualsAt(b) == None
  {
    if b != "" { NoEqualsInSpaces(b[1..]); }
  }

  lemma TrimPadded(t: string, b: string)
    requires AllSpaces(b)
    ensures Trim(t + b) == Trim(t)
  {
    hide DropSpaces, DropTrailing, AllSpaces, Trimmed, Trim;
    var a, c := TrimSplits(t);
    assert t + b == a + Trim(t) + (c + b);
    AllSpacesJoin(c, b);
    TrimOf(a, Trim(t), c + b);
  }

  lemma AllSpacesJoin(a: string, b: string)
    requires AllSpaces(a) && AllSpaces(b)
    ensures AllSpaces(a + b)
  {
  }

  lemma BasePadded(t: string, b: string)
    requires AllSpaces(b) && t != ""
    ensures ClassifyBase(t + b) == ClassifyBase(t)
  {
    hide AllSpaces, IsConstraintPrefix, HasWithoutRowid, EqualsAt, Trim, NoSpaces, MakeColumn, ParseConstraint;
    PrefixPadded(t, b);
    OptionPadded(t, b);
    EqualsPadded(t, b);
    TrimPadded(t, b);
    if EqualsAt(t).Some? {
      var i := EqualsAt(t).value;
      assert (t + b)[..i] == t[..i] && (t + b)[i + 1..] == t[i + 1..] + b;
      TrimPadded(t[i + 1..], b);
    }
  }

  /** Dropping leading spaces leaves the trimmed text, with the trailing spaces. */
  lemma BaseOf(raw: string) returns (b: string)
    ensures AllSpaces(b) && DropSpaces(Trim(raw)) == Trim(raw)
    ensures DropSpaces(raw) == if Trim(raw) == "" then "" else Trim(raw) + b
  {
    hide AllSpaces, DropTrailing, DropSpaces, Trim, Trimmed;
    var a;
    a, b := TrimSplits(raw);
    var t := Trim(raw);
    FrontOfTrimmed(t, b);
    if t == "" {
      AllSpacesJoin(a, b);
      assert raw == a + b;
      SpacesOnly(a + b);
    } else {
      assert raw == a + (t + b);
      SpacesThen(a, t + b);
    }
  }

  /** Spaces around an argument never change what it is taken for, or any part of the result. */
  lemma ClassifyIgnoresPadding(raw: string)
    ensures Classify(Some(Trim(raw))) == Classify(Some(raw))
  {
    hide ClassifyBase, Trim, AllSpaces, DropSpaces;
    var b := BaseOf(raw);
    if Trim(raw) != "" { BasePadded(Trim(raw), b); }
  }

  lemma FrontOfTrimmed(t: string, b: string)
    requires Trimmed(t)
    ensures t != "" ==> (t + b)[0] == t[0] && !IsSpace(t[0])
    ensures DropSpaces(t) == t
  {
  }

  lemma SpacesOnly(a: string)
    requires AllSpaces(a)
    ensures DropSpaces(a) == ""
  {
    assert a == a + "";
    SpacesLenOf(a, "");
  }

  lemma SpacesThen(a: string, t: string)
    requires AllSpaces(a) && t != "" && !IsSpace(t[0])
    ensures DropSpaces(a + t) == t
  {
    SpacesLenOf(a, t);
  }

  // ---------------------------------------------------------------- what is taken for what

  /** A parameter key: characters and closed literals, with no '=' or group outside the literals. `after` is what
      comes behind the key. */
  predicate KeyText(t: Text, after: string) {
    match t
    case End => true
    case Char(c, rest) => !IsQuoteOpen(c) && c != '=' && c != '(' && KeyText(rest, after)
    case Literal(open, body, rest) =>
      IsQuoteOpen(open) && !StartsWith(Print(rest) + after, QuoteClose(open)) && KeyText(rest, after)
    case Group(_, _) => false
  }

  /** The first '=' outside literals is the one behind the key. */
  lemma {:induction false} FirstEquals(t: Text, gap: string, rest: string)
    requires KeyText(t, gap + "=" + rest) && AllSpaces(gap)
    ensures EqualsAt(Print(t) + (gap + "=" + rest)) == Some(|Print(t)| + |gap|)
    decreases t
  {
    hide EqualsAt, PrintLiteral, QuotedLen, AllSpaces;
    var after := gap + "=" + rest;
    var s := Print(t) + after;
    match t
    case End =>
      assert s == after;
      EqualsBehindGap(gap, rest);
    case Char(c, more) =>
      assert s[0] == c && s[1..] == Print(more) + after;
      EqualsFront(s);
      FirstEquals(more, gap, rest);
    case Literal(open, body, more) =>
      var tail := Print(more) + after;
      assert s == PrintLiteral(open, body) + tail;
      LiteralIsSkipped(open, body, tail);
      LiteralFrontIsQuote(open, body, tail);
      assert s[QuotedLen(s)..] == tail;
      EqualsFront(s);
      FirstEquals(more, gap, rest);
  }

  lemma LiteralFrontIsQuote(open: char, body: string, tail: string)
    ensures PrintLiteral(open, body) + tail != "" && (PrintLiteral(open, body) + tail)[0] == open
  {
  }

  lemma EqualsFront(s: string)
    requires s != "" && s[0] != '(' && s[0] != '='
    ensures IsQuoteOpen(s[0]) ==> EqualsAt(s) == Shift(QuotedLen(s), EqualsAt(s[QuotedLen(s)..]))
    ensures !IsQuoteOpen(s[0]) ==> EqualsAt(s) == Shift(1, EqualsAt(s[1..]))
  {
    hide QuotedLen;
  }

  lemma {:induction false} EqualsBehindGap(gap: string, rest: string)
    requires AllSpaces(gap)
    ensures EqualsAt(gap + "=" + rest) == Some(|gap|)
    decreases |gap|
  {
    var s := gap + "=" + rest;
    if gap == "" {
      assert s[0] == '=';
    } else {
      assert s[0] == gap[0] && s[1..] == gap[1..] + "=" + rest;
      EqualsBehindGap(gap[1..], rest);
    }
  }

  /** `key = value` is read as that parameter, for every value and every key without spaces, also a quoted one,
      with any spaces around both: unless the text as a whole looks like a constraint or says WITHOUT ROWID. */
  lemma ParamRoundTrip(t: Text, gap: string, gap2: string, value: string)
    requires Print(t) != "" && NoSpaces(Print(t)) && KeyText(t, gap + "=" + gap2 + value)
    requires AllSpaces(gap) && AllSpaces(gap2) && Trimmed(value)
    requires var text := Print(t) + gap + "=" + gap2 + value;
             !IsConstraintPrefix(text) && !HasWithoutRowid(text)
    ensures Classify(Some(Print(t) + gap + "=" + gap2 + value)) == ParamArg(Print(t), value)
  {
    hide IsConstraintPrefix, HasWithoutRowid, EqualsAt, Trim, DropSpaces, Print, KeyText;
    var key := Print(t);
    var left, right := key + gap, gap2 + value;
    var text := left + "=" + right;
    assert key + gap + "=" + gap2 + value == text;
    assert gap + "=" + gap2 + value == gap + "=" + right;
    assert text == key + (gap + "=" + right);
    assert text[0] == key[0];
    NoSpaceInFront(text);
    FirstEquals(t, gap, right);
    assert text[..|left|] == left && text[|left| + 1..] == right;
    assert "" + key + gap == left && gap2 + value + "" == right;
    TrimOf("", key, gap);
    TrimOf(gap2, value, "");
  }

  lemma NoSpaceInFront(s: string)
    requires s != "" && !IsSpace(s[0])
    ensures DropSpaces(s) == s
  {
  }
}

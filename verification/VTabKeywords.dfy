/** Keyword search over a definition: case-insensitive, at identifier boundaries, outside quoted literals. */
module VTabKeywords {
  import opened Wrappers
  import opened VTabText
  import opened VTabGrammar

  function Lower(c: char): char { if 'A' <= c <= 'Z' then (c as int + 32) as char else c }

  /** sqlite3_strnicmp(s, kw, |kw|) == 0, for a text of at least that length. */
  predicate StartsCi(s: string, kw: string) {
    |kw| <= |s| && forall i | 0 <= i < |kw| :: Lower(s[i]) == Lower(kw[i])
  }

  /** No identifier character at the front. */
  predicate Boundary(s: string) { s == "" || !IsIdentChar(s[0]) }

  predicate IsKeyword(kw: string) { kw != "" && forall i | 0 <= i < |kw| :: IsIdentChar(kw[i]) }

  /** The keyword, or the two keywords with only spaces between them, at the front of `s`. */
  predicate KeywordAt(s: string, prevOk: bool, kw1: string, kw2: Option<string>) {
    && StartsCi(s, kw1) && prevOk && Boundary(s[|kw1|..])
    && (kw2.Some? ==>
          var r := DropSpaces(s[|kw1|..]);
          StartsCi(r, kw2.value) && Boundary(r[|kw2.value|..]))
  }

  /** ci_has_kw_sequence from the rest `s` of the text; `prevOk` says that no identifier character precedes it. */
  predicate HasKeywordFrom(s: string, prevOk: bool, kw1: string, kw2: Option<string>)
    decreases |s|
  {
    if s == "" then false
    else if IsQuoteOpen(s[0]) then
      var q := QuotedLen(s);
      HasKeywordFrom(s[q..], !IsIdentChar(s[q - 1]), kw1, kw2)
    else
      KeywordAt(s, prevOk, kw1, kw2) || HasKeywordFrom(s[1..], !IsIdentChar(s[0]), kw1, kw2)
  }

  predicate HasKeyword(s: string, kw1: string, kw2: Option<string>) {
    HasKeywordFrom(s, true, kw1, kw2)
  }

  method HasKeywordSequence(s: string, kw1: string, kw2: Option<string>) returns (found: bool)
    ensures found <==> HasKeyword(s, kw1, kw2)
  {
    hide KeywordAt, StartsCi, Boundary;
    var i := 0;
    while i < |s|
      invariant 0 <= i <= |s|
      invariant HasKeyword(s, kw1, kw2)
           <==> HasKeywordFrom(s[i..], i == 0 || !IsIdentChar(s[i - 1]), kw1, kw2)
    {
      if IsQuoteOpen(s[i]) {
        ghost var rest := s[i..];
        i := SkipQuoted(s, i);
        assert rest[QuotedLen(rest)..] == s[i..] && rest[QuotedLen(rest) - 1] == s[i - 1];
        continue;
      }
      if i + |kw1| <= |s| {
        var here := MatchHere(s, i, kw1, kw2);
        if here { return true; }
      } else {
        TooShort(s[i..], i == 0 || !IsIdentChar(s[i - 1]), kw1, kw2);
      }
      assert s[i..][1..] == s[i + 1..];
      i := i + 1;
    }
    return false;
  }

  lemma TooShort(s: string, prevOk: bool, kw1: string, kw2: Option<string>)
    requires |s| < |kw1|
    ensures !KeywordAt(s, prevOk, kw1, kw2)
  {
  }

  /** The body of the loop: both keywords with their boundaries at position `i`. */
  method MatchHere(s: string, i: nat, kw1: string, kw2: Option<string>) returns (here: bool)
    requires i + |kw1| <= |s|
    ensures here <==> KeywordAt(s[i..], i == 0 || !IsIdentChar(s[i - 1]), kw1, kw2)
  {
    here := false;
    var rest := s[i + |kw1|..];
    assert s[i..][|kw1|..] == rest;
    if StartsCi(s[i..], kw1) {
      var prevOk := i == 0 || !IsIdentChar(s[i - 1]);
      var nextOk := i + |kw1| == |s| || !IsIdentChar(s[i + |kw1|]);
      if prevOk && nextOk {
        if kw2.None? { return true; }
        var j := SkipSpaces(s, i + |kw1|);
        assert DropSpaces(rest) == s[j..];
        if j + |kw2.value| <= |s| && StartsCi(s[j..], kw2.value) {
          here := j + |kw2.value| == |s| || !IsIdentChar(s[j + |kw2.value|]);
        }
      }
    }
  }

  // ---------------------------------------------------------------- quotes, one character at a time

  /** The reference: a scanner that looks at single characters. `Closed` has just read a close character,
      which counts as an escape if another one follows. */
  datatype Quote = Outside | Inside(close: char) | Closed(close: char)

  function Read(q: Quote, c: char): Quote {
    match q
    case Outside => if IsQuoteOpen(c) then Inside(QuoteClose(c)) else Outside
    case Inside(k) => if c == k then Closed(k) else q
    case Closed(k) => if c == k then Inside(k) else if IsQuoteOpen(c) then Inside(QuoteClose(c)) else Outside
  }

  function ReadAll(q: Quote, s: string): Quote
    decreases |s|
  {
    if s == "" then q else ReadAll(Read(q, s[0]), s[1..])
  }

  /** In state `q`, with `s` still to come, the scan is outside all literals. */
  predicate IsOutside(q: Quote, s: string) {
    q.Outside? || (q.Closed? && !StartsWith(s, q.close))
  }

  /** Position `i` of `s` is outside all literals, if the scan of `s` starts in state `q`. */
  predicate OutsideAt(q: Quote, s: string, i: nat)
    requires i <= |s|
  {
    IsOutside(ReadAll(q, s[..i]), s[i..])
  }

  predicate PrevOk(prevOk: bool, s: string, i: nat)
    requires i <= |s|
  {
    if i == 0 then prevOk else !IsIdentChar(s[i - 1])
  }

  /** The search with the character-by-character scanner. */
  predicate Occurs(q: Quote, s: string, prevOk: bool, kw1: string, kw2: Option<string>)
    decreases |s|
  {
    s != "" && ((IsOutside(q, s) && KeywordAt(s, prevOk, kw1, kw2))
                || Occurs(Read(q, s[0]), s[1..], !IsIdentChar(s[0]), kw1, kw2))
  }

  /** The keywords start at position `i`, outside all literals and at identifier boundaries. */
  predicate FoundAt(q: Quote, s: string, prevOk: bool, kw1: string, kw2: Option<string>, i: nat) {
    i < |s| && OutsideAt(q, s, i) && KeywordAt(s[i..], PrevOk(prevOk, s, i), kw1, kw2)
  }

  lemma FoundAtFront(q: Quote, s: string, prevOk: bool, kw1: string, kw2: Option<string>)
    requires s != ""
    ensures FoundAt(q, s, prevOk, kw1, kw2, 0) <==> IsOutside(q, s) && KeywordAt(s, prevOk, kw1, kw2)
  {
    hide KeywordAt, IsOutside;
    assert s[..0] == "" && s[0..] == s;
  }

  lemma FoundBehindFront(q: Quote, s: string, prevOk: bool, kw1: string, kw2: Option<string>, i: nat)
    requires s != ""
    ensures FoundAt(q, s, prevOk, kw1, kw2, i + 1)
       <==> FoundAt(Read(q, s[0]), s[1..], !IsIdentChar(s[0]), kw1, kw2, i)
  {
    hide KeywordAt, IsOutside, Read;
    if i < |s[1..]| {
      assert s[..i + 1][1..] == s[1..][..i] && s[i + 1..] == s[1..][i..];
      assert s[..i + 1][0] == s[0];
    }
  }

  lemma {:induction false} OccursAtSomePosition(q: Quote, s: string, prevOk: bool, kw1: string, kw2: Option<string>)
    ensures Occurs(q, s, prevOk, kw1, kw2) <==> exists i: nat :: FoundAt(q, s, prevOk, kw1, kw2, i)
    decreases |s|
  {
    hide KeywordAt, IsOutside, Read, FoundAt;
    if s == "" {
      NothingInEmpty(q, prevOk, kw1, kw2);
    } else {
      var q', p' := Read(q, s[0]), !IsIdentChar(s[0]);
      OccursAtSomePosition(q', s[1..], p', kw1, kw2);
      FoundAtFront(q, s, prevOk, kw1, kw2);
      if Occurs(q', s[1..], p', kw1, kw2) {
        var i: nat :| FoundAt(q', s[1..], p', kw1, kw2, i);
        FoundBehindFront(q, s, prevOk, kw1, kw2, i);
      }
      if i: nat :| FoundAt(q, s, prevOk, kw1, kw2, i) {
        if i > 0 { FoundBehindFront(q, s, prevOk, kw1, kw2, i - 1); }
      }
    }
  }

  lemma NothingInEmpty(q: Quote, prevOk: bool, kw1: string, kw2: Option<string>)
    ensures forall i: nat :: !FoundAt(q, "", prevOk, kw1, kw2, i)
  {
  }

  /** skip_quoted takes the scan from inside a literal to the first position outside it. */
  lemma {:induction false} OccursBehindLiteral(s: string, k: char, prevOk: bool, kw1: string, kw2: Option<string>)
    requires !IsIdentChar(k)
    ensures var n := LiteralTailLen(s, k);
            Occurs(Inside(k), s, prevOk, kw1, kw2) <==> n < |s| && Occurs(Closed(k), s[n..], true, kw1, kw2)
    ensures LiteralTailLen(s, k) < |s| ==> LiteralTailLen(s, k) > 0 && s[LiteralTailLen(s, k) - 1] == k
    ensures LiteralTailLen(s, k) < |s| ==> s[LiteralTailLen(s, k)] != k
  {
    hide KeywordAt;
    if s == "" {
    } else if s[0] != k {
      OccursBehindLiteral(s[1..], k, !IsIdentChar(s[0]), kw1, kw2);
      assert s[1..][LiteralTailLen(s[1..], k)..] == s[LiteralTailLen(s, k)..];
    } else if |s| > 1 && s[1] == k {
      OccursBehindLiteral(s[2..], k, true, kw1, kw2);
      assert s[1..][1..] == s[2..];
      assert s[2..][LiteralTailLen(s[2..], k)..] == s[LiteralTailLen(s, k)..];
    }
  }

  /** The code's search and the reference agree, from every position outside the literals. */
  lemma {:induction false} SearchIsOccurs(q: Quote, s: string, prevOk: bool, kw1: string, kw2: Option<string>)
    requires IsOutside(q, s) && IsKeyword(kw1)
    ensures HasKeywordFrom(s, prevOk, kw1, kw2) <==> Occurs(q, s, prevOk, kw1, kw2)
    decreases |s|
  {
    hide KeywordAt;
    if s != "" {
      if IsQuoteOpen(s[0]) {
        NoKeywordAtQuote(s, prevOk, kw1, kw2);
        var k, n := QuoteClose(s[0]), QuotedLen(s);
        OccursBehindLiteral(s[1..], k, !IsIdentChar(s[0]), kw1, kw2);
        assert s[1..][n - 1..] == s[n..];
        if n < |s| {
          SearchIsOccurs(Closed(k), s[n..], true, kw1, kw2);
        }
      } else {
        SearchIsOccurs(Read(q, s[0]), s[1..], !IsIdentChar(s[0]), kw1, kw2);
      }
    }
  }

  lemma NoKeywordAtQuote(s: string, prevOk: bool, kw1: string, kw2: Option<string>)
    requires s != "" && IsQuoteOpen(s[0]) && IsKeyword(kw1)
    ensures !KeywordAt(s, prevOk, kw1, kw2)
  {
    assert IsIdentChar(kw1[0]);
  }

  /** ci_has_kw_sequence finds the keywords iff they occur at identifier boundaries, separated by spaces only,
      starting at a position outside all quoted literals. */
  lemma SearchIsExact(s: string, kw1: string, kw2: Option<string>)
    requires IsKeyword(kw1)
    ensures HasKeyword(s, kw1, kw2)
       <==> exists i: nat :: FoundAt(Outside, s, true, kw1, kw2, i)
  {
    hide KeywordAt, HasKeywordFrom, Occurs, FoundAt;
    SearchIsOccurs(Outside, s, true, kw1, kw2);
    OccursAtSomePosition(Outside, s, true, kw1, kw2);
  }

  // ---------------------------------------------------------------- literal bodies do not matter

  /** What a keyword match can see ends at the first quote. */
  lemma {:induction false} SpacesBeforeQuote(u: string, open: char, x: string)
    requires IsQuoteOpen(open)
    ensures SpacesLen(u) <= |u| && DropSpaces(u + [open] + x) == u[SpacesLen(u)..] + [open] + x
  {
    var s := u + [open] + x;
    if u == "" {
      assert s[0] == open;
      assert s[0..] == s && u[0..] + [open] + x == s;
    } else if IsSpace(u[0]) {
      SpacesBeforeQuote(u[1..], open, x);
      assert s[1..] == u[1..] + [open] + x;
      assert u[1..][SpacesLen(u[1..])..] == u[SpacesLen(u)..];
    } else {
      assert s[0] == u[0];
      assert s[0..] == s && u[0..] == u;
    }
  }

  lemma StartsBeforeQuote(u: string, open: char, x: string, kw: string)
    requires IsQuoteOpen(open) && IsKeyword(kw)
    ensures StartsCi(u + [open] + x, kw) <==> StartsCi(u, kw)
    ensures |kw| <= |u| ==> (u + [open] + x)[|kw|..] == u[|kw|..] + [open] + x
    ensures Boundary(u + [open] + x) <==> Boundary(u)
  {
    var s := u + [open] + x;
    assert forall i | 0 <= i < |u| :: s[i] == u[i];
    assert s[|u|] == open;
    if |u| < |kw| { assert IsIdentChar(kw[|u|]); }
  }

  lemma KeywordBeforeQuote(u: string, open: char, x: string, prevOk: bool, kw1: string, kw2: Option<string>)
    requires IsQuoteOpen(open) && IsKeyword(kw1) && (kw2.Some? ==> IsKeyword(kw2.value))
    ensures KeywordAt(u + [open] + x, prevOk, kw1, kw2) <==> KeywordAt(u, prevOk, kw1, kw2)
  {
    hide IsKeyword, StartsCi, DropSpaces, Boundary;
    StartsBeforeQuote(u, open, x, kw1);
    if StartsCi(u, kw1) {
      StartsCiLength(u, kw1);
      var v := u[|kw1|..];
      StartsBeforeQuote(v, open, x, kw1);
      if kw2.Some? {
        SpacesBeforeQuote(v, open, x);
        var r := v[SpacesLen(v)..];
        assert DropSpaces(v) == r by { DropSpacesIs(v); }
        StartsBeforeQuote(r, open, x, kw2.value);
        if StartsCi(r, kw2.value) {
          StartsCiLength(r, kw2.value);
          StartsBeforeQuote(r[|kw2.value|..], open, x, kw2.value);
        }
      }
    }
  }

  lemma StartsCiLength(u: string, kw: string)
    requires StartsCi(u, kw)
    ensures |kw| <= |u|
  {
  }

  lemma DropSpacesIs(s: string)
    ensures DropSpaces(s) == s[SpacesLen(s)..]
  {
  }

  /** The scan inside a printed literal finds nothing, and goes on behind it. */
  lemma OccursBehindPrinted(open: char, body: string, post: string, q: Quote, prevOk: bool,
                            kw1: string, kw2: Option<string>)
    requires IsQuoteOpen(open) && IsKeyword(kw1) && IsOutside(q, [open]) && !StartsWith(post, QuoteClose(open))
    ensures Occurs(q, PrintLiteral(open, body) + post, prevOk, kw1, kw2)
       <==> post != "" && Occurs(Closed(QuoteClose(open)), post, true, kw1, kw2)
  {
    hide KeywordAt, IsKeyword;
    var k := QuoteClose(open);
    var s := PrintLiteral(open, body) + post;
    var inner := Escape(body, k) + [k] + post;
    assert s[1..] == inner;
    NoKeywordAtQuote(s, prevOk, kw1, kw2);
    TailOfEscaped(body, k, post);
    OccursBehindLiteral(inner, k, !IsIdentChar(open), kw1, kw2);
    assert inner[|Escape(body, k)| + 1..] == post;
  }

  lemma {:induction false} OccursIgnoresBody(q: Quote, pre: string, open: char, b1: string, b2: string,
                                             post: string, prevOk: bool, kw1: string, kw2: Option<string>)
    requires IsQuoteOpen(open) && IsOutside(ReadAll(q, pre), [open]) && !StartsWith(post, QuoteClose(open))
    requires IsKeyword(kw1) && (kw2.Some? ==> IsKeyword(kw2.value))
    ensures Occurs(q, pre + PrintLiteral(open, b1) + post, prevOk, kw1, kw2)
       <==> Occurs(q, pre + PrintLiteral(open, b2) + post, prevOk, kw1, kw2)
    decreases |pre|
  {
    hide KeywordAt, IsKeyword, PrintLiteral;
    var l1, l2 := PrintLiteral(open, b1) + post, PrintLiteral(open, b2) + post;
    assert pre + PrintLiteral(open, b1) + post == pre + l1 && pre + PrintLiteral(open, b2) + post == pre + l2;
    if pre == "" {
      assert pre + l1 == l1 && pre + l2 == l2;
      OccursBehindPrinted(open, b1, post, q, prevOk, kw1, kw2);
      OccursBehindPrinted(open, b2, post, q, prevOk, kw1, kw2);
    } else {
      LiteralStartsWithQuote(open, b1, post);
      LiteralStartsWithQuote(open, b2, post);
      assert pre + l1 == pre + [open] + l1[1..] && pre + l2 == pre + [open] + l2[1..];
      KeywordBeforeQuote(pre, open, l1[1..], prevOk, kw1, kw2);
      KeywordBeforeQuote(pre, open, l2[1..], prevOk, kw1, kw2);
      OccursIgnoresBody(Read(q, pre[0]), pre[1..], open, b1, b2, post, !IsIdentChar(pre[0]), kw1, kw2);
      assert (pre + l1)[1..] == pre[1..] + PrintLiteral(open, b1) + post;
      assert (pre + l2)[1..] == pre[1..] + PrintLiteral(open, b2) + post;
    }
  }

  lemma LiteralStartsWithQuote(open: char, body: string, post: string)
    ensures PrintLiteral(open, body) + post != "" && (PrintLiteral(open, body) + post)[0] == open
  {
  }

  // ---------------------------------------------------------------- column flags

  datatype ColFlag = NotNull | PrimaryKey | Unique | AutoIncr | Hidden | Generated | Stored | Virtual

  /** The keywords behind one flag. */
  function FlagKeywords(f: ColFlag): (string, Option<string>) {
    match f
    case NotNull => ("NOT", Some("NULL"))
    case PrimaryKey => ("PRIMARY", Some("KEY"))
    case Unique => ("UNIQUE", None)
    case AutoIncr => ("AUTOINCREMENT", None)
    case Hidden => ("HIDDEN", None)
    case Generated => ("GENERATED", None)
    case Stored => ("STORED", None)
    case Virtual => ("VIRTUAL", None)
  }

  predicate HasFlag(definition: string, f: ColFlag) {
    || HasKeyword(definition, FlagKeywords(f).0, FlagKeywords(f).1)
    || (f == Generated && HasKeyword(definition, "AS", None))
  }

  /** SqliteVTabColumn::flags, the bit mask as a set. */
  function Flags(definition: string): set<ColFlag> {
    set f: ColFlag | HasFlag(definition, f)
  }

  lemma SearchIgnoresBody(pre: string, open: char, b1: string, b2: string, post: string,
                          kw1: string, kw2: Option<string>)
    requires IsQuoteOpen(open) && IsOutside(ReadAll(Outside, pre), [open]) && !StartsWith(post, QuoteClose(open))
    requires IsKeyword(kw1) && (kw2.Some? ==> IsKeyword(kw2.value))
    ensures HasKeyword(pre + PrintLiteral(open, b1) + post, kw1, kw2)
       <==> HasKeyword(pre + PrintLiteral(open, b2) + post, kw1, kw2)
  {
    hide KeywordAt, IsKeyword, PrintLiteral, Occurs, HasKeywordFrom;
    OccursIgnoresBody(Outside, pre, open, b1, b2, post, true, kw1, kw2);
    SearchIsOccurs(Outside, pre + PrintLiteral(open, b1) + post, true, kw1, kw2);
    SearchIsOccurs(Outside, pre + PrintLiteral(open, b2) + post, true, kw1, kw2);
  }

  /** Column flags do not change when the inside of a well-closed quoted literal that starts outside other
      literals is replaced by any other properly escaped text. */
  lemma FlagsIgnoreLiterals(pre: string, open: char, b1: string, b2: string, post: string)
    requires IsQuoteOpen(open) && IsOutside(ReadAll(Outside, pre), [open]) && !StartsWith(post, QuoteClose(open))
    ensures Flags(pre + PrintLiteral(open, b1) + post) == Flags(pre + PrintLiteral(open, b2) + post)
  {
    hide HasKeyword, PrintLiteral, IsOutside, ReadAll, StartsWith;
    var d1, d2 := pre + PrintLiteral(open, b1) + post, pre + PrintLiteral(open, b2) + post;
    forall f: ColFlag
      ensures HasFlag(d1, f) <==> HasFlag(d2, f)
    {
      SearchIgnoresBody(pre, open, b1, b2, post, FlagKeywords(f).0, FlagKeywords(f).1);
      SearchIgnoresBody(pre, open, b1, b2, post, "AS", None);
    }
  }
}

/** The quote- and depth-aware scanners of sqlite3_vtab_arg.hpp. A scanner is specified by the number of
    characters it consumes from the rest of the text. */
module VTabText {
  predicate IsSpace(c: char) { c == ' ' || c == '\t' || c == '\r' || c == '\n' }

  predicate IsIdentChar(c: char) {
    ('a' <= c <= 'z') || ('A' <= c <= 'Z') || ('0' <= c <= '9') || c == '_'
  }

  predicate IsQuoteOpen(c: char) { c == '\'' || c == '\"' || c == '`' || c == '[' }

  function QuoteClose(open: char): char { if open == '[' then ']' else open }

  // ---------------------------------------------------------------- what the scanners consume

  function SpacesLen(s: string): (n: nat)
    ensures n <= |s|
  {
    if s == "" || !IsSpace(s[0]) then 0 else 1 + SpacesLen(s[1..])
  }

  /** From inside a literal: up to and including the close character that is not doubled. */
  function LiteralTailLen(s: string, close: char): (n: nat)
    ensures n <= |s|
  {
    if s == "" then 0
    else if s[0] != close then 1 + LiteralTailLen(s[1..], close)
    else if |s| > 1 && s[1] == close then 2 + LiteralTailLen(s[2..], close)
    else 1
  }

  function QuotedLen(s: string): (n: nat)
    ensures n <= |s|
    ensures s != "" && IsQuoteOpen(s[0]) <==> n > 0
  {
    if s == "" || !IsQuoteOpen(s[0]) then 0 else 1 + LiteralTailLen(s[1..], QuoteClose(s[0]))
  }

  /** From inside `depth` open parentheses: up to and including the one that closes them all. */
  function NestedLen(s: string, depth: nat): (n: nat)
    ensures n <= |s|
    decreases |s|
  {
    if s == "" || depth == 0 then 0
    else if IsQuoteOpen(s[0]) then
      var q := QuotedLen(s);
      q + NestedLen(s[q..], depth)
    else
      1 + NestedLen(s[1..], if s[0] == '(' then depth + 1 else if s[0] == ')' then depth - 1 else depth)
  }

  function ParenthesizedLen(s: string): (n: nat)
    ensures n <= |s|
  {
    if s == "" || s[0] != '(' then 0 else 1 + NestedLen(s[1..], 1)
  }

  // ---------------------------------------------------------------- the scanners

  method SkipSpaces(s: string, pos0: nat) returns (pos: nat)
    requires pos0 <= |s|
    ensures pos == pos0 + SpacesLen(s[pos0..])
    ensures pos0 <= pos <= |s| && (forall i | pos0 <= i < pos :: IsSpace(s[i])) && (pos < |s| ==> !IsSpace(s[pos]))
  {
    pos := pos0;
    while pos < |s| && IsSpace(s[pos])
      invariant pos0 <= pos <= |s| && (forall i | pos0 <= i < pos :: IsSpace(s[i]))
      invariant pos + SpacesLen(s[pos..]) == pos0 + SpacesLen(s[pos0..])
    {
      pos := pos + 1;
    }
  }

  method SkipQuoted(s: string, pos0: nat) returns (pos: nat)
    requires pos0 <= |s|
    ensures pos == pos0 + QuotedLen(s[pos0..]) <= |s|
  {
    pos := pos0;
    if pos >= |s| || !IsQuoteOpen(s[pos]) { return; }
    var close := QuoteClose(s[pos]);
    pos := pos + 1;
    ghost var end := pos + LiteralTailLen(s[pos..], close);
    while pos < |s|
      invariant pos0 < pos <= |s|
      invariant pos + LiteralTailLen(s[pos..], close) == end
    {
      if s[pos] == close {
        if pos + 1 < |s| && s[pos + 1] == close {
          pos := pos + 2;
        } else {
          pos := pos + 1;
          break;
        }
      } else {
        pos := pos + 1;
      }
    }
  }

  lemma NestedStep(s: string, pos: nat, depth: nat)
    requires pos < |s| && depth > 0
    ensures IsQuoteOpen(s[pos]) ==>
      NestedLen(s[pos..], depth) == QuotedLen(s[pos..]) + NestedLen(s[pos + QuotedLen(s[pos..])..], depth)
    ensures !IsQuoteOpen(s[pos]) ==>
      NestedLen(s[pos..], depth)
      == 1 + NestedLen(s[pos + 1..], if s[pos] == '(' then depth + 1 else if s[pos] == ')' then depth - 1 else depth)
  {
    hide QuotedLen;
    var u := s[pos..];
    assert u[QuotedLen(u)..] == s[pos + QuotedLen(u)..];
    assert u[1..] == s[pos + 1..];
  }

  lemma NestedDone(s: string, depth: nat)
    requires s == "" || depth == 0
    ensures NestedLen(s, depth) == 0
  {
  }

  method SkipParenthesized(s: string, pos0: nat) returns (pos: nat)
    requires pos0 <= |s|
    ensures pos == pos0 + ParenthesizedLen(s[pos0..]) <= |s|
  {
    hide NestedLen, QuotedLen, IsQuoteOpen;
    pos := pos0;
    if pos >= |s| || s[pos] != '(' { return; }
    var depth := 1;
    pos := pos + 1;
    ghost var end := pos + NestedLen(s[pos..], 1);
    assert s[pos0..][1..] == s[pos..];
    while pos < |s| && depth > 0
      invariant pos0 < pos <= |s| && depth >= 0
      invariant pos + NestedLen(s[pos..], depth) == end
      decreases |s| - pos
    {
      NestedStep(s, pos, depth);
      if IsQuoteOpen(s[pos]) {
        pos := SkipQuoted(s, pos);
      } else if s[pos] == '(' {
        depth := depth + 1;
        pos := pos + 1;
      } else if s[pos] == ')' {
        depth := depth - 1;
        pos := pos + 1;
      } else {
        pos := pos + 1;
      }
    }
    NestedDone(s[pos..], depth);
  }

  // ---------------------------------------------------------------- trimming

  function DropSpaces(s: string): string { s[SpacesLen(s)..] }

  function DropTrailing(s: string): (r: string)
    ensures |r| <= |s| && s[..|r|] == r
  {
    if s != "" && IsSpace(s[|s| - 1]) then DropTrailing(s[..|s| - 1]) else s
  }

  function Trim(s: string): string { DropTrailing(DropSpaces(s)) }

  predicate AllSpaces(s: string) { forall i | 0 <= i < |s| :: IsSpace(s[i]) }

  predicate Trimmed(s: string) { s == "" || (!IsSpace(s[0]) && !IsSpace(s[|s| - 1])) }

  lemma DropSpacesStep(s: string)
    ensures DropSpaces(s) == if s != "" && IsSpace(s[0]) then DropSpaces(s[1..]) else s
  {
    if s != "" && IsSpace(s[0]) {
      assert s[1..][SpacesLen(s[1..])..] == s[SpacesLen(s)..];
    }
  }

  /** trim_slice on `s[lo..hi]`. */
  method TrimSlice(s: string, lo0: nat, hi0: nat) returns (r: string)
    requires lo0 <= hi0 <= |s|
    ensures r == Trim(s[lo0..hi0])
  {
    hide DropSpaces, DropTrailing, IsSpace;
    var lo, hi := lo0, hi0;
    while lo < hi && IsSpace(s[lo])
      invariant lo0 <= lo <= hi
      invariant DropSpaces(s[lo..hi]) == DropSpaces(s[lo0..hi0])
    {
      DropSpacesStep(s[lo..hi]);
      assert s[lo..hi][1..] == s[lo + 1..hi];
      lo := lo + 1;
    }
    DropSpacesStep(s[lo..hi]);
    while hi > lo && IsSpace(s[hi - 1])
      invariant lo <= hi <= hi0
      invariant DropTrailing(s[lo..hi]) == Trim(s[lo0..hi0])
    {
      DropTrailingStep(s[lo..hi]);
      assert s[lo..hi][..hi - lo - 1] == s[lo..hi - 1];
      hi := hi - 1;
    }
    DropTrailingStep(s[lo..hi]);
    r := if lo < hi then s[lo..hi] else "";
  }

  lemma DropTrailingStep(s: string)
    ensures DropTrailing(s) == if s != "" && IsSpace(s[|s| - 1]) then DropTrailing(s[..|s| - 1]) else s
  {
  }

  lemma {:induction false} SpacesLenIs(s: string)
    ensures AllSpaces(s[..SpacesLen(s)])
    ensures SpacesLen(s) < |s| ==> !IsSpace(s[SpacesLen(s)])
  {
    if s != "" && IsSpace(s[0]) {
      SpacesLenIs(s[1..]);
      assert s[..SpacesLen(s)] == [s[0]] + s[1..][..SpacesLen(s[1..])];
    }
  }

  lemma {:induction false} SpacesLenOf(sp: string, t: string)
    requires AllSpaces(sp) && (t == "" || !IsSpace(t[0]))
    ensures SpacesLen(sp + t) == |sp|
  {
    if sp == "" {
      assert sp + t == t;
    } else {
      assert (sp + t)[1..] == sp[1..] + t;
      SpacesLenOf(sp[1..], t);
    }
  }

  lemma {:induction false} DropTrailingOf(t: string, sp: string)
    requires AllSpaces(sp) && (t == "" || !IsSpace(t[|t| - 1]))
    ensures DropTrailing(t + sp) == t
  {
    if sp == "" {
      assert t + sp == t;
    } else {
      assert (t + sp)[..|t + sp| - 1] == t + sp[..|sp| - 1];
      DropTrailingOf(t, sp[..|sp| - 1]);
    }
  }

  /** Trimming is characterised by what it takes away. */
  lemma TrimOf(a: string, t: string, b: string)
    requires AllSpaces(a) && AllSpaces(b) && Trimmed(t)
    ensures Trim(a + t + b) == t
  {
    if t == "" {
      assert a + t + b == (a + b) + "";
      SpacesLenOf(a + b, "");
    } else {
      assert a + t + b == a + (t + b);
      SpacesLenOf(a, t + b);
      assert DropSpaces(a + t + b) == t + b;
      DropTrailingOf(t, b);
    }
  }

  lemma {:induction false} DropTrailingIs(s: string)
    ensures AllSpaces(s[|DropTrailing(s)|..])
    ensures DropTrailing(s) != "" ==> !IsSpace(DropTrailing(s)[|DropTrailing(s)| - 1])
  {
    if s != "" && IsSpace(s[|s| - 1]) {
      var u := s[..|s| - 1];
      DropTrailingIs(u);
      assert s[|DropTrailing(s)|..] == u[|DropTrailing(u)|..] + [s[|s| - 1]];
    }
  }

  /** Every text is its trimmed text between spaces. */
  lemma TrimSplits(s: string) returns (a: string, b: string)
    ensures s == a + Trim(s) + b && AllSpaces(a) && AllSpaces(b) && Trimmed(Trim(s))
  {
    SpacesLenIs(s);
    var d := DropSpaces(s);
    DropTrailingIs(d);
    a, b := s[..SpacesLen(s)], d[|Trim(s)|..];
    assert d == Trim(s) + b;
    if Trim(s) != "" { assert Trim(s)[0] == d[0]; }
  }

  lemma TrimmedStays(s: string)
    requires Trimmed(s)
    ensures Trim(s) == s
  {
    TrimOf("", s, "");
    assert "" + s + "" == s;
  }

  lemma TrimTwice(s: string)
    ensures Trim(Trim(s)) == Trim(s)
  {
    hide Trim;
    var a, b := TrimSplits(s);
    TrimOf("", Trim(s), "");
    assert "" + Trim(s) + "" == Trim(s);
  }
}

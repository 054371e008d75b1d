/** Keywords as they are written: what a keyword match sees, letter by letter, and the flags of the documented
    keywords. */
module VTabSpelling {
  import opened Wrappers
  import opened VTabText
  import opened VTabKeywords

  const CAPITALS := "ABCDEFGHIJKLMNOPQRSTUVWXYZ"
  const SMALL := "abcdefghijklmnopqrstuvwxyz"
  const DIGITS := "0123456789"

  /** The same letter of the alphabet in either case, or the same character. */
  predicate SameLetter(a: char, b: char) {
    a == b || exists k | 0 <= k < 26 :: (a == CAPITALS[k] && b == SMALL[k]) || (a == SMALL[k] && b == CAPITALS[k])
  }

  predicate Spells(w: string, kw: string) { |w| == |kw| && forall i | 0 <= i < |w| :: SameLetter(w[i], kw[i]) }

  lemma Alphabet(k: nat)
    requires k < 26
    ensures |CAPITALS| == |SMALL| == 26 && CAPITALS[k] as int == 0x41 + k && SMALL[k] as int == 0x61 + k
  {
  }

  lemma SameLetterIsLower(a: char, b: char)
    requires SameLetter(a, b)
    ensures Lower(a) == Lower(b)
  {
    hide CAPITALS, SMALL;
    if a != b {
      Alphabet(0);
      var k: nat :| k < 26 && ((a == CAPITALS[k] && b == SMALL[k]) || (a == SMALL[k] && b == CAPITALS[k]));
      Alphabet(k);
    }
  }

  lemma LowerIsSameLetter(a: char, b: char)
    ensures Lower(a) == Lower(b) <==> SameLetter(a, b)
  {
    hide CAPITALS, SMALL;
    if SameLetter(a, b) { SameLetterIsLower(a, b); }
    if 'A' <= a <= 'Z' { Alphabet(a as int - 0x41); }
    if 'A' <= b <= 'Z' { Alphabet(b as int - 0x41); }
  }

  /** The characters of identifiers, of spaces, and of quotes with their close characters. */
  lemma CharClasses(c: char)
    ensures IsIdentChar(c) <==> c in CAPITALS || c in SMALL || c in DIGITS || c == '_'
    ensures IsSpace(c) <==> c in " \t\r\n"
    ensures IsQuoteOpen(c) <==> c in "'\"`["
    ensures IsQuoteOpen(c) ==> QuoteClose(c) == if c == '[' then ']' else c
  {
    IdentCharsAre(c);
  }

  lemma IdentCharsAre(c: char)
    ensures IsIdentChar(c) <==> c in CAPITALS || c in SMALL || c in DIGITS || c == '_'
  {
  }

  // ---------------------------------------------------------------- one keyword, two keywords

  /** The text starts with the word, in any case, and no identifier character follows it. */
  predicate WordAt(s: string, kw: string) {
    |kw| <= |s| && Spells(s[..|kw|], kw) && (|kw| < |s| ==> !IsIdentChar(s[|kw|]))
  }

  /** The text starts with both words and nothing but spaces between them. */
  ghost predicate WordsAt(s: string, kw1: string, kw2: string) {
    WordAt(s, kw1) && exists n: nat :: SecondAt(s, |kw1|, n, kw2)
  }

  predicate SecondAt(s: string, start: nat, n: nat, kw2: string) {
    start + n <= |s| && AllSpaces(s[start..start + n]) && WordAt(s[start + n..], kw2)
  }

  lemma StartsIsSpells(s: string, kw: string)
    ensures StartsCi(s, kw) <==> |kw| <= |s| && Spells(s[..|kw|], kw)
  {
    hide SameLetter, Lower;
    forall i | 0 <= i < |kw| <= |s|
      ensures Lower(s[i]) == Lower(kw[i]) <==> SameLetter(s[..|kw|][i], kw[i])
    {
      LowerIsSameLetter(s[i], kw[i]);
    }
  }

  lemma StartIsWordAt(s: string, kw: string)
    ensures StartsCi(s, kw) && Boundary(s[|kw|..]) <==> WordAt(s, kw)
  {
    hide Spells, StartsCi;
    StartsIsSpells(s, kw);
  }

  /** The second word starts behind all the spaces. */
  lemma SecondBehindSpaces(s: string, start: nat, kw2: string)
    requires start <= |s| && IsKeyword(kw2)
    ensures (exists n: nat :: SecondAt(s, start, n, kw2)) <==> WordAt(DropSpaces(s[start..]), kw2)
  {
    hide WordAt, AllSpaces, SpacesLen, IsKeyword;
    var rest := s[start..];
    var m := SpacesLen(rest);
    SpacesLenIs(rest);
    assert rest[..m] == s[start..start + m] && DropSpaces(rest) == s[start + m..];
    if WordAt(DropSpaces(rest), kw2) {
      assert SecondAt(s, start, m, kw2);
    }
    if n: nat :| SecondAt(s, start, n, kw2) {
      WordFront(s[start + n..], kw2);
      assert s[start..start + n] + s[start + n..] == rest;
      SpacesLenOf(s[start..start + n], s[start + n..]);
    }
  }

  lemma WordFront(s: string, kw: string)
    requires WordAt(s, kw) && IsKeyword(kw)
    ensures s != "" && !IsSpace(s[0])
  {
    assert SameLetter(s[..|kw|][0], kw[0]);
    assert IsIdentChar(kw[0]);
    if s[0] != kw[0] {
      var k: nat :| k < 26 && (s[0] == CAPITALS[k] || s[0] == SMALL[k]);
      Alphabet(k);
    }
  }

  /** What a keyword search looks for at one position. */
  lemma KeywordAtIsWords(s: string, prevOk: bool, kw1: string, kw2: Option<string>)
    requires kw2.Some? ==> IsKeyword(kw2.value)
    ensures KeywordAt(s, prevOk, kw1, kw2)
       <==> prevOk && if kw2.Some? then WordsAt(s, kw1, kw2.value) else WordAt(s, kw1)
  {
    hide WordAt, StartsCi, Boundary, DropSpaces, IsKeyword, SecondAt;
    StartIsWordAt(s, kw1);
    if kw2.Some? && WordAt(s, kw1) {
      WordLength(s, kw1);
      SecondBehindSpaces(s, |kw1|, kw2.value);
      StartIsWordAt(DropSpaces(s[|kw1|..]), kw2.value);
    }
  }

  lemma WordLength(s: string, kw: string)
    requires WordAt(s, kw)
    ensures |kw| <= |s|
  {
  }

  /** A different letter anywhere in the word. */
  lemma NotSpelled(s: string, kw: string, i: nat)
    requires i < |s| && i < |kw| && Lower(s[i]) != Lower(kw[i])
    ensures !WordAt(s, kw)
  {
    hide SameLetter, Lower;
    if WordAt(s, kw) {
      assert SameLetter(s[..|kw|][i], kw[i]);
      LowerIsSameLetter(s[i], kw[i]);
    }
  }

  // ---------------------------------------------------------------- texts of one or two words

  predicate IsWord(w: string) { w != "" && forall i | 0 <= i < |w| :: IsIdentChar(w[i]) }

  predicate NoQuotes(s: string) { forall i | 0 <= i < |s| :: !IsQuoteOpen(s[i]) }

  lemma {:induction false} UnquotedIsOutside(s: string)
    requires NoQuotes(s)
    ensures ReadAll(Outside, s) == Outside
  {
    if s != "" {
      assert Read(Outside, s[0]) == Outside;
      UnquotedIsOutside(s[1..]);
    }
  }

  /** Without quotes a keyword is found at a position iff the words are there. */
  lemma FoundUnquoted(s: string, kw1: string, kw2: Option<string>, i: nat)
    requires NoQuotes(s) && i < |s| && (kw2.Some? ==> IsKeyword(kw2.value))
    ensures FoundAt(Outside, s, true, kw1, kw2, i)
       <==> (i == 0 || !IsIdentChar(s[i - 1]))
            && if kw2.Some? then WordsAt(s[i..], kw1, kw2.value) else WordAt(s[i..], kw1)
  {
    hide KeywordAt, WordAt, WordsAt, IsKeyword, IsIdentChar, IsQuoteOpen;
    UnquotedIsOutside(s[..i]);
    KeywordAtIsWords(s[i..], PrevOk(true, s, i), kw1, kw2);
  }

  /** A word at the front of a text is the whole first word. */
  lemma WholeWord(w: string, rest: string, kw: string)
    requires IsWord(w) && IsKeyword(kw) && (rest != "" ==> !IsIdentChar(rest[0]))
    ensures WordAt(w + rest, kw) <==> Spells(w, kw)
  {
    hide SameLetter, IsIdentChar;
    var s := w + rest;
    if WordAt(s, kw) {
      if |kw| > |w| {
        assert SameLetter(s[..|kw|][|w|], kw[|w|]);
        SameLetterIdent(rest[0], kw[|w|]);
      }
      assert s[..|w|] == w;
    }
    if Spells(w, kw) { assert s[..|w|] == w; }
  }

  lemma SameLetterIdent(a: char, b: char)
    requires SameLetter(a, b)
    ensures IsIdentChar(a) <==> IsIdentChar(b)
  {
    if a != b {
      var k: nat :| k < 26 && ((a == CAPITALS[k] && b == SMALL[k]) || (a == SMALL[k] && b == CAPITALS[k]));
      Alphabet(k);
    }
  }

  lemma WordIsUnquoted(w: string)
    requires IsWord(w)
    ensures NoQuotes(w)
  {
  }

  /** A text that is one word holds that keyword and no other. */
  lemma OneWord(w: string, kw1: string, kw2: Option<string>)
    requires IsWord(w) && IsKeyword(kw1) && (kw2.Some? ==> IsKeyword(kw2.value))
    ensures HasKeyword(w, kw1, kw2) <==> kw2.None? && Spells(w, kw1)
  {
    hide HasKeyword, FoundAt, WordAt, Spells, SecondAt, IsKeyword, IsIdentChar, NoQuotes;
    SearchIsExact(w, kw1, kw2);
    WordIsUnquoted(w);
    forall i: nat | i < |w|
      ensures FoundAt(Outside, w, true, kw1, kw2, i) <==> i == 0 && kw2.None? && Spells(w, kw1)
    {
      FoundUnquoted(w, kw1, kw2, i);
      assert w + "" == w && w[0..] == w;
      WholeWord(w, "", kw1);
      if kw2.Some? && i == 0 && WordAt(w, kw1) { NoSecondWord(w, kw1, kw2.value); }
    }
    FoundInside(w, kw1, kw2);
    WordNotEmpty(w);
    assert FoundAt(Outside, w, true, kw1, kw2, 0) <==> kw2.None? && Spells(w, kw1);
  }

  lemma FoundInside(s: string, kw1: string, kw2: Option<string>)
    ensures forall i: nat :: FoundAt(Outside, s, true, kw1, kw2, i) ==> i < |s|
  {
    hide KeywordAt, OutsideAt;
  }

  lemma NoSecondWord(w: string, kw1: string, kw2: string)
    requires IsWord(w) && IsKeyword(kw1) && IsKeyword(kw2) && WordAt(w, kw1)
    ensures !WordsAt(w, kw1, kw2)
  {
    hide IsIdentChar, SameLetter;
    WholeWord(w, "", kw1);
    assert w + "" == w;
  }

  /** A text of two words, with spaces between them. */
  lemma TwoWords(w1: string, gap: string, w2: string, kw1: string, kw2: Option<string>)
    requires IsWord(w1) && IsWord(w2) && gap != "" && AllSpaces(gap)
    requires IsKeyword(kw1) && (kw2.Some? ==> IsKeyword(kw2.value))
    ensures HasKeyword(w1 + gap + w2, kw1, kw2)
       <==> if kw2.None? then Spells(w1, kw1) || Spells(w2, kw1) else Spells(w1, kw1) && Spells(w2, kw2.value)
  {
    hide HasKeyword, FoundAt, WordAt, Spells, SecondAt, IsKeyword, IsIdentChar, NoQuotes, AllSpaces, IsWord;
    var s := w1 + gap + w2;
    var start := |w1 + gap|;
    SearchIsExact(s, kw1, kw2);
    TwoWordsPlain(w1, gap, w2);
    forall i: nat | i < |s|
      ensures FoundAt(Outside, s, true, kw1, kw2, i)
         <==> || (i == 0 && Spells(w1, kw1) && (kw2.Some? ==> Spells(w2, kw2.value)))
              || (i == start && kw2.None? && Spells(w2, kw1))
    {
      FoundUnquoted(s, kw1, kw2, i);
      if i == 0 {
        FirstOfTwo(w1, gap, w2, kw1, kw2);
      } else if i == start {
        LastOfTwo(w1, gap, w2, kw1, kw2);
      } else {
        BetweenWords(w1, gap, w2, kw1, kw2, i);
      }
    }
    FoundInside(s, kw1, kw2);
    WordNotEmpty(w2);
    assert FoundAt(Outside, s, true, kw1, kw2, 0) <==> Spells(w1, kw1) && (kw2.Some? ==> Spells(w2, kw2.value));
    assert FoundAt(Outside, s, true, kw1, kw2, start) <==> kw2.None? && Spells(w2, kw1);
  }

  lemma WordNotEmpty(w: string)
    requires IsWord(w)
    ensures |w| > 0
  {
  }

  lemma TwoWordsPlain(w1: string, gap: string, w2: string)
    requires IsWord(w1) && IsWord(w2) && gap != "" && AllSpaces(gap)
    ensures NoQuotes(w1 + gap + w2)
  {
  }

  lemma FirstOfTwo(w1: string, gap: string, w2: string, kw1: string, kw2: Option<string>)
    requires IsWord(w1) && IsWord(w2) && gap != "" && AllSpaces(gap)
    requires IsKeyword(kw1) && (kw2.Some? ==> IsKeyword(kw2.value))
    ensures var s := w1 + gap + w2;
            s[0..] == s && (WordAt(s, kw1) <==> Spells(w1, kw1))
            && (kw2.Some? ==> (WordsAt(s, kw1, kw2.value) <==> Spells(w1, kw1) && Spells(w2, kw2.value)))
  {
    hide WordAt, IsWord, IsKeyword, SameLetter, DropSpaces;
    var s := w1 + gap + w2;
    assert s == w1 + (gap + w2);
    SpaceIsNoIdent(gap);
    WholeWord(w1, gap + w2, kw1);
    if kw2.Some? && Spells(w1, kw1) {
      assert s[|kw1|..] == gap + w2;
      SecondBehindSpaces(s, |kw1|, kw2.value);
      WordStart(w2);
      SpacesLenOf(gap, w2);
      assert DropSpaces(gap + w2) == w2 by { DropSpacesIs(gap + w2); assert (gap + w2)[|gap|..] == w2; }
      assert w2 + "" == w2;
      WholeWord(w2, "", kw2.value);
    }
  }

  lemma SpaceIsNoIdent(gap: string)
    requires gap != "" && AllSpaces(gap)
    ensures !IsIdentChar(gap[0]) && !IsIdentChar(gap[|gap| - 1])
  {
  }

  lemma WordStart(w: string)
    requires IsWord(w)
    ensures w != "" && !IsSpace(w[0])
  {
  }

  lemma LastOfTwo(w1: string, gap: string, w2: string, kw1: string, kw2: Option<string>)
    requires IsWord(w1) && IsWord(w2) && gap != "" && AllSpaces(gap)
    requires IsKeyword(kw1) && (kw2.Some? ==> IsKeyword(kw2.value))
    ensures var s, i := w1 + gap + w2, |w1 + gap|;
            && !IsIdentChar(s[i - 1]) && s[i..] == w2 && (WordAt(w2, kw1) <==> Spells(w2, kw1))
            && (kw2.Some? ==> !WordsAt(w2, kw1, kw2.value))
  {
    hide WordAt, IsWord, IsKeyword, IsIdentChar, Spells;
    SpaceIsNoIdent(gap);
    assert (w1 + gap + w2)[|w1 + gap| - 1] == gap[|gap| - 1];
    assert w2 + "" == w2;
    WholeWord(w2, "", kw1);
    if kw2.Some? && WordAt(w2, kw1) { NoSecondWord(w2, kw1, kw2.value); }
  }

  /** Inside a word, or in the gap, no keyword starts. */
  lemma BetweenWords(w1: string, gap: string, w2: string, kw1: string, kw2: Option<string>, i: nat)
    requires IsWord(w1) && IsWord(w2) && AllSpaces(gap) && IsKeyword(kw1)
    requires 0 < i < |w1 + gap + w2| && i != |w1 + gap|
    ensures var s := w1 + gap + w2;
            IsIdentChar(s[i - 1]) || !WordAt(s[i..], kw1)
  {
    hide IsKeyword, WordAt, IsIdentChar, IsSpace;
    var s := w1 + gap + w2;
    if |w1| <= i < |w1 + gap| {
      assert s[i..][0] == gap[i - |w1|];
      if WordAt(s[i..], kw1) { WordFront(s[i..], kw1); }
    } else if i < |w1| {
      assert s[i - 1] == w1[i - 1];
    } else {
      assert s[i - 1] == w2[i - 1 - |w1 + gap|];
    }
  }

  // ---------------------------------------------------------------- flags

  lemma SpellsLetters(w: string, kw: string)
    requires Spells(w, kw) && IsKeyword(kw)
    ensures IsWord(w)
  {
    hide SameLetter, IsIdentChar;
    forall i | 0 <= i < |w|
      ensures IsIdentChar(w[i])
    {
      SameLetterIdent(w[i], kw[i]);
    }
  }

  /** A word spells at most one of two keywords of different lengths or first letters. */
  lemma OtherSpelling(w: string, kw: string, other: string)
    requires Spells(w, kw) && kw != "" && other != "" && (|kw| == |other| ==> Lower(kw[0]) != Lower(other[0]))
    ensures !Spells(w, other)
  {
    hide SameLetter, Lower;
    LowerIsSameLetter(w[0], kw[0]);
    if |kw| == |other| { LowerIsSameLetter(w[0], other[0]); }
  }

  /** The one-word keywords of the documentation. */
  predicate IsFlagWord(kw: string) {
    kw == "UNIQUE" || kw == "AUTOINCREMENT" || kw == "HIDDEN" || kw == "GENERATED" || kw == "STORED"
    || kw == "VIRTUAL" || kw == "AS"
  }

  lemma FlagWordsDiffer(w: string, kw: string, other: string)
    requires IsFlagWord(kw) && IsFlagWord(other) && Spells(w, kw)
    ensures Spells(w, other) <==> other == kw
  {
    hide Spells;
    if other != kw { OtherSpelling(w, kw, other); }
  }

  lemma FlagKeywordsAreWords(g: ColFlag)
    ensures IsKeyword(FlagKeywords(g).0) && (FlagKeywords(g).1.Some? ==> IsKeyword(FlagKeywords(g).1.value))
    ensures FlagKeywords(g).1.None? ==> IsFlagWord(FlagKeywords(g).0)
    ensures IsKeyword("AS") && IsFlagWord("AS")
  {
  }

  lemma FlagOfWord(w: string, kw: string, g: ColFlag)
    requires IsFlagWord(kw) && Spells(w, kw)
    ensures HasFlag(w, g) <==> FlagKeywords(g) == (kw, None) || (g == Generated && kw == "AS")
  {
    hide Spells, HasKeyword, IsFlagWord, FlagKeywords, IsKeyword;
    FlagWordIsKeyword(kw);
    SpellsLetters(w, kw);
    FlagKeywordsAreWords(g);
    OneWord(w, FlagKeywords(g).0, FlagKeywords(g).1);
    OneWord(w, "AS", None);
    FlagWordsDiffer(w, kw, "AS");
    if FlagKeywords(g).1.None? { FlagWordsDiffer(w, kw, FlagKeywords(g).0); }
  }

  lemma FlagWordIsKeyword(kw: string)
    requires IsFlagWord(kw)
    ensures IsKeyword(kw)
  {
  }

  /** Each documented keyword, in any mix of cases, alone in a definition sets exactly its own flag. */
  lemma FlagsOfOneWord(w: string)
    ensures Spells(w, "UNIQUE") ==> Flags(w) == {Unique}
    ensures Spells(w, "AUTOINCREMENT") ==> Flags(w) == {AutoIncr}
    ensures Spells(w, "HIDDEN") ==> Flags(w) == {Hidden}
    ensures Spells(w, "GENERATED") || Spells(w, "AS") ==> Flags(w) == {Generated}
    ensures Spells(w, "STORED") ==> Flags(w) == {Stored}
    ensures Spells(w, "VIRTUAL") ==> Flags(w) == {Virtual}
  {
    hide Spells, HasFlag;
    forall kw: string, g: ColFlag | IsFlagWord(kw) && Spells(w, kw)
      ensures HasFlag(w, g) <==> FlagKeywords(g) == (kw, None) || (g == Generated && kw == "AS")
    {
      FlagOfWord(w, kw, g);
    }
    assert IsFlagWord("UNIQUE") && IsFlagWord("AUTOINCREMENT") && IsFlagWord("HIDDEN") && IsFlagWord("GENERATED");
    assert IsFlagWord("AS") && IsFlagWord("STORED") && IsFlagWord("VIRTUAL");
  }

  lemma FlagOfTwoWords(w1: string, gap: string, w2: string, kw1: string, kw2: string, g: ColFlag)
    requires (kw1 == "NOT" && kw2 == "NULL") || (kw1 == "PRIMARY" && kw2 == "KEY")
    requires Spells(w1, kw1) && Spells(w2, kw2) && gap != "" && AllSpaces(gap)
    ensures HasFlag(w1 + gap + w2, g) <==> FlagKeywords(g) == (kw1, Some(kw2))
  {
    hide HasKeyword, Spells, IsKeyword, AllSpaces;
    var kws := FlagKeywords(g);
    assert IsKeyword(kw1) && IsKeyword(kw2) by { DocumentedPairs(kw1, kw2); }
    SpellsLetters(w1, kw1);
    SpellsLetters(w2, kw2);
    FlagKeywordsAreWords(g);
    TwoWords(w1, gap, w2, kws.0, kws.1);
    TwoWords(w1, gap, w2, "AS", None);
    PairIsNoFlagWord(w1, w2, kw1, kw2, "AS");
    if kws.1.None? {
      PairIsNoFlagWord(w1, w2, kw1, kw2, kws.0);
    } else if kws.0 != kw1 {
      OtherSpelling(w1, kw1, kws.0);
    }
  }

  lemma DocumentedPairs(kw1: string, kw2: string)
    requires (kw1 == "NOT" && kw2 == "NULL") || (kw1 == "PRIMARY" && kw2 == "KEY")
    ensures IsKeyword(kw1) && IsKeyword(kw2)
  {
  }

  lemma PairIsNoFlagWord(w1: string, w2: string, kw1: string, kw2: string, other: string)
    requires (kw1 == "NOT" && kw2 == "NULL") || (kw1 == "PRIMARY" && kw2 == "KEY")
    requires Spells(w1, kw1) && Spells(w2, kw2) && IsFlagWord(other)
    ensures !Spells(w1, other) && !Spells(w2, other)
  {
    hide Spells;
    OtherSpelling(w1, kw1, other);
    OtherSpelling(w2, kw2, other);
  }

  /** And so do the two-word keywords, with any spaces between the words. */
  lemma FlagsOfTwoWords(w1: string, gap: string, w2: string)
    requires gap != "" && AllSpaces(gap)
    ensures Spells(w1, "NOT") && Spells(w2, "NULL") ==> Flags(w1 + gap + w2) == {NotNull}
    ensures Spells(w1, "PRIMARY") && Spells(w2, "KEY") ==> Flags(w1 + gap + w2) == {PrimaryKey}
  {
    hide Spells, HasFlag, AllSpaces;
    forall g: ColFlag
      ensures Spells(w1, "NOT") && Spells(w2, "NULL") ==> (HasFlag(w1 + gap + w2, g) <==> g == NotNull)
      ensures Spells(w1, "PRIMARY") && Spells(w2, "KEY") ==> (HasFlag(w1 + gap + w2, g) <==> g == PrimaryKey)
    {
      if Spells(w1, "NOT") && Spells(w2, "NULL") { FlagOfTwoWords(w1, gap, w2, "NOT", "NULL", g); }
      if Spells(w1, "PRIMARY") && Spells(w2, "KEY") { FlagOfTwoWords(w1, gap, w2, "PRIMARY", "KEY", g); }
    }
  }
}

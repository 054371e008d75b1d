/** What a schema counts, reports and converts, in terms of the spelled keys and texts. */
module VTabSchemaExact {
  import opened Wrappers
  import opened VTabText
  import opened VTabKeywords
  import opened VTabSpelling
  import opened VTabConstraint
  import opened VTabArg
  import opened VTabArgKinds
  import opened VTabSchema

  // ---------------------------------------------------------------- keys

  lemma EqualsIsSpells(a: string, b: string)
    ensures EqualsCi(a, b) <==> Spells(a, b)
  {
    hide SameLetter, StartsCi;
    StartsIsSpells(a, b);
    if |a| == |b| { assert a[..|b|] == a; }
  }

  /** A key without quotes around it. */
  predicate BareKey(k: string) { k == "" || !IsQuoteOpen(k[0]) }

  function InQuotes(open: char, k: string): string { [open] + k + [QuoteClose(open)] }

  lemma QuotesAreStripped(open: char, k: string)
    requires IsQuoteOpen(open)
    ensures StripQuotes(InQuotes(open, k)) == k
  {
    var s := InQuotes(open, k);
    assert s[0] == open && s[|s| - 1] == QuoteClose(open) && s[1..|s| - 1] == k;
  }

  /** Only a whole pair of quotes is stripped. */
  lemma OtherQuotesStay(s: string)
    requires forall open: char, k: string | IsQuoteOpen(open) :: s != InQuotes(open, k)
    ensures StripQuotes(s) == s
  {
    if |s| >= 2 && IsQuoteOpen(s[0]) && s[|s| - 1] == QuoteClose(s[0]) {
      var k := s[1..|s| - 1];
      assert s == InQuotes(s[0], k);
    }
  }

  lemma BareStays(k: string)
    requires BareKey(k)
    ensures StripQuotes(k) == k
  {
  }

  /** Keys match iff they are the same letters in any case, whether either of them is in quotes, of any kind, or
      not. */
  lemma KeysMatchIff(k: string, l: string, open1: char, open2: char)
    requires BareKey(k) && BareKey(l) && IsQuoteOpen(open1) && IsQuoteOpen(open2)
    ensures KeyMatch(k, l) <==> Spells(k, l)
    ensures KeyMatch(InQuotes(open1, k), l) <==> Spells(k, l)
    ensures KeyMatch(k, InQuotes(open2, l)) <==> Spells(k, l)
    ensures KeyMatch(InQuotes(open1, k), InQuotes(open2, l)) <==> Spells(k, l)
  {
    hide StripQuotes, EqualsCi, Spells, InQuotes, IsQuoteOpen;
    BareStays(k);
    BareStays(l);
    QuotesAreStripped(open1, k);
    QuotesAreStripped(open2, l);
    EqualsIsSpells(k, l);
  }

  // ---------------------------------------------------------------- values

  predicate IsTrueWord(v: string) { Spells(v, "true") || Spells(v, "yes") || Spells(v, "on") }

  predicate IsFalseWord(v: string) { Spells(v, "false") || Spells(v, "no") || Spells(v, "off") }

  /** The documented rules of as_bool: numbers by being zero or not, then the six words in any case, and nothing
      else. */
  lemma BoolRules(scan: Scan, v: string, b: bool)
    ensures Convert(scan, Bool, v) == Some(BoolValue(b))
       <==> v != "" && match scan(Int, v)
                       case Some(n) => b <==> n != 0
                       case None => if b then IsTrueWord(v) else IsFalseWord(v)
    ensures Convert(scan, Bool, v) == None
       <==> v == "" || (scan(Int, v) == None && !IsTrueWord(v) && !IsFalseWord(v))
  {
    hide EqualsCi, Spells;
    EqualsIsSpells(v, "true");
    EqualsIsSpells(v, "yes");
    EqualsIsSpells(v, "on");
    EqualsIsSpells(v, "false");
    EqualsIsSpells(v, "no");
    EqualsIsSpells(v, "off");
    TrueIsNotFalse(v);
  }

  lemma TrueIsNotFalse(v: string)
    ensures !(IsTrueWord(v) && IsFalseWord(v))
  {
    hide Spells;
    if Spells(v, "true") { NotAlso(v, "true"); }
    if Spells(v, "yes") { NotAlso(v, "yes"); }
    if Spells(v, "on") { NotAlso(v, "on"); }
  }

  lemma NotAlso(v: string, kw: string)
    requires Spells(v, kw) && (kw == "true" || kw == "yes" || kw == "on")
    ensures !IsFalseWord(v)
  {
    hide Spells;
    OtherSpelling(v, kw, "false");
    OtherSpelling(v, kw, "off");
    if kw == "on" {
      SecondLetters(v);
    } else {
      OtherSpelling(v, kw, "no");
    }
  }

  lemma SecondLetters(v: string)
    requires Spells(v, "on")
    ensures !Spells(v, "no")
  {
    hide SameLetter, Lower;
    LowerIsSameLetter(v[0], "on"[0]);
    LowerIsSameLetter(v[0], "no"[0]);
    OAndN();
  }

  lemma OAndN()
    ensures Lower("on"[0]) != Lower("no"[0])
  {
  }

  /** What a text means to a binding of some type: a number, a Boolean, the whole text with its quotes, the first
      enum value it is equal to, or -1. */
  predicate Means(scan: Scan, ty: SlotType, v: string, x: Value) {
    match ty
    case Num(n) => x.NumValue? && v != "" && scan(n, v) == Some(x.bits)
    case Bool =>
      && x.BoolValue? && v != ""
      && (match scan(Int, v)
          case Some(n) => x.b <==> n != 0
          case None => if x.b then IsTrueWord(v) else IsFalseWord(v))
    case Str => x == StrValue(v)
    case EnumStr(options) => x.IndexValue? && if MatchesSome(v, options) then IsChoice(v, options, x.i) else x.i == -1
    case ValueOwned => x == OwnedValue(v)
  }

  lemma ConvertsExactly(scan: Scan, ty: SlotType, v: string, x: Value)
    ensures Convert(scan, ty, v) == Some(x) <==> Means(scan, ty, v, x)
  {
    hide BoolOf, EnumIndex, IsTrueWord, IsFalseWord, MatchesSome, IsChoice;
    match ty
    case Num(_) =>
    case Bool => ConvertsToBool(scan, v, x);
    case Str =>
    case EnumStr(options) =>
      EnumIndexIsChoice(v, options);
      SomeChoice(v, options);
      if x.IndexValue? { OneChoice(v, options, EnumIndex(StripQuotes(v), options), x.i); }
    case ValueOwned =>
  }

  lemma ConvertsToBool(scan: Scan, v: string, x: Value)
    ensures Convert(scan, Bool, v) == Some(x) <==> Means(scan, Bool, v, x)
  {
    hide BoolOf, IsTrueWord, IsFalseWord;
    if x.BoolValue? { BoolRules(scan, v, x.b); }
  }

  /** When parse counts a text of a parameter as converted. */
  ghost predicate Accepts(scan: Scan, ty: SlotType, v: string) {
    match ty
    case Num(n) => v != "" && scan(n, v).Some?
    case Bool => v != "" && (scan(Int, v).Some? || IsTrueWord(v) || IsFalseWord(v))
    case Str => true
    case EnumStr(options) => MatchesSome(v, options)
    case ValueOwned => true
  }

  lemma SucceedsIff(scan: Scan, ty: SlotType, v: string)
    ensures Succeeds(scan, ty, v) <==> Accepts(scan, ty, v)
  {
    hide BoolOf, EnumIndex, IsTrueWord, IsFalseWord, MatchesSome;
    match ty
    case Num(_) =>
    case Bool => BoolRules(scan, v, true);
    case Str =>
    case EnumStr(options) => SomeChoice(v, options);
    case ValueOwned =>
  }

  // ---------------------------------------------------------------- the two counts

  /** The first binding whose name matches has an output, and accepts the value. */
  ghost predicate IsCounted(scan: Scan, slots: seq<Slot>, p: Param) {
    exists i | 0 <= i < |slots| :: Reaches(slots, p.key, i) && slots[i].out.Some? && Accepts(scan, slots[i].ty, p.value)
  }

  predicate Reaches(slots: seq<Slot>, key: string, i: nat)
    requires i < |slots|
  {
    KeyMatch(key, slots[i].name) && forall k | 0 <= k < i :: !KeyMatch(key, slots[k].name)
  }

  lemma ReachesIsFirst(slots: seq<Slot>, key: string, i: nat)
    requires i < |slots|
    ensures FirstSlot(slots, key) == Some(i) <==> Reaches(slots, key, i)
  {
    hide KeyMatch, FirstSlot;
    FirstSlotIs(slots, key);
  }

  lemma CountsIff(scan: Scan, slots: seq<Slot>, p: Param)
    ensures Counts(scan, slots, p) == if IsCounted(scan, slots, p) then 1 else 0
  {
    hide FirstSlot, Succeeds, Accepts, Reaches;
    forall i | 0 <= i < |slots|
      ensures FirstSlot(slots, p.key) == Some(i) <==> Reaches(slots, p.key, i)
      ensures Succeeds(scan, slots[i].ty, p.value) <==> Accepts(scan, slots[i].ty, p.value)
    {
      ReachesIsFirst(slots, p.key, i);
      SucceedsIff(scan, slots[i].ty, p.value);
    }
  }

  ghost function CountedParams(scan: Scan, slots: seq<Slot>, params: seq<Param>): set<nat> {
    set k: nat | k < |params| && IsCounted(scan, slots, params[k])
  }

  /** parse returns the number of parameters whose binding has an output and accepts the text. */
  lemma {:induction false} MatchedCounts(scan: Scan, slots: seq<Slot>, params: seq<Param>)
    ensures Matched(scan, slots, params) == |CountedParams(scan, slots, params)|
    decreases |params|
  {
    hide Counts, IsCounted;
    if params == [] {
      assert CountedParams(scan, slots, params) == {};
    } else {
      var n := |params| - 1;
      MatchedCounts(scan, slots, params[..n]);
      CountsIff(scan, slots, params[n]);
      var before := CountedParams(scan, slots, params[..n]);
      assert n !in before;
      assert CountedParams(scan, slots, params) == before + if IsCounted(scan, slots, params[n]) then {n} else {};
    }
  }

  ghost function UnboundParams(slots: seq<Slot>, params: seq<Param>): set<nat> {
    set k: nat | k < |params| && !HasBinding(slots, params[k].key)
  }

  /** The first parameter without a binding. */
  predicate IsFirstUnbound(slots: seq<Slot>, params: seq<Param>, k: nat) {
    k < |params| && !HasBinding(slots, params[k].key) && forall j | 0 <= j < k :: HasBinding(slots, params[j].key)
  }

  /** validate returns the number of parameters without a binding, */
  lemma {:induction false} UnknownAreUnbound(slots: seq<Slot>, params: seq<Param>)
    ensures |UnknownKeys(slots, params)| == |UnboundParams(slots, params)|
    decreases |params|
  {
    hide HasBinding;
    if params == [] {
      assert UnboundParams(slots, params) == {};
    } else {
      var n := |params| - 1;
      var before := UnboundParams(slots, params[..n]);
      UnknownAreUnbound(slots, params[..n]);
      assert n !in before;
      assert UnboundParams(slots, params) == before + if HasBinding(slots, params[n].key) then {} else {n};
    }
  }

  /** and the key of the first of them. */
  lemma {:induction false} FirstUnknown(slots: seq<Slot>, params: seq<Param>, k: nat)
    requires IsFirstUnbound(slots, params, k)
    ensures UnknownKeys(slots, params) != [] && UnknownKeys(slots, params)[0] == params[k].key
    decreases |params|
  {
    hide HasBinding;
    var n := |params| - 1;
    if k < n {
      FirstUnknown(slots, params[..n], k);
    } else {
      ValidIffAllBound(slots, params[..n]);
    }
  }

  // ---------------------------------------------------------------- the parameters of an argument list

  lemma {:induction false} ParamsOfSum(a: seq<Option<string>>, b: seq<Option<string>>)
    ensures ParamsOf(a + b) == ParamsOf(a) + ParamsOf(b)
    decreases |b|
  {
    hide Classify;
    if b == [] {
      assert a + b == a;
    } else {
      var n := |b| - 1;
      assert (a + b)[..|a + b| - 1] == a + b[..n];
      ParamsOfSum(a, b[..n]);
    }
  }

  /** for_each_param visits each key=value argument at its place, with the trimmed texts on both sides of the '='. */
  lemma ParamInPlace(before: seq<Option<string>>, raw: string, after: seq<Option<string>>, i: nat)
    requires var t := Trim(raw); !OpensConstraint(t) && !HoldsWithoutRowid(t) && ParamAt(t, i)
    ensures i < |Trim(raw)|
    ensures ParamsOf(before + [Some(raw)] + after)
         == ParamsOf(before) + [Param(Trim(Trim(raw)[..i]), Trim(Trim(raw)[i + 1..]))] + ParamsOf(after)
  {
    hide Classify, Trim, OpensConstraint, HoldsWithoutRowid, ParamsOf, NoSpaces, OutsideAt;
    ParamsAround(before, raw, after);
    KindsExactly(raw);
    assert IsParamText(Trim(raw));
  }

  /** And it visits no other argument. */
  lemma OthersAreSkipped(before: seq<Option<string>>, raw: string, after: seq<Option<string>>)
    requires var t := Trim(raw); OpensConstraint(t) || HoldsWithoutRowid(t) || !IsParamText(t)
    ensures ParamsOf(before + [Some(raw)] + after) == ParamsOf(before) + ParamsOf(after)
  {
    hide Classify, Trim, OpensConstraint, HoldsWithoutRowid, ParamsOf, IsParamText;
    ParamsAround(before, raw, after);
    KindsExactly(raw);
    assert ParamsOf(before) + [] == ParamsOf(before);
  }

  lemma ParamsAround(before: seq<Option<string>>, raw: string, after: seq<Option<string>>)
    ensures var a := Classify(Some(raw));
            ParamsOf(before + [Some(raw)] + after)
            == ParamsOf(before) + (if a.ParamArg? then [Param(a.key, a.value)] else []) + ParamsOf(after)
  {
    hide Classify, ParamsOf;
    ParamsOfSum(before + [Some(raw)], after);
    ParamsOfSum(before, [Some(raw)]);
    ParamsOfOne(raw);
  }

  lemma ParamsOfOne(raw: string)
    ensures var a := Classify(Some(raw));
            ParamsOf([Some(raw)]) == if a.ParamArg? then [Param(a.key, a.value)] else []
  {
    hide Classify;
    assert [Some(raw)][..0] == [];
  }
}

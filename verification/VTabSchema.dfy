/** SqliteVTabParamSchema: declared parameters parsed in one pass, compared with the getters of
    SqliteVTabArgs, which look one parameter up by name. Number scanning (sscanf) is a parameter. */
module VTabSchema {
  import opened Wrappers
  import opened VTabText
  import opened VTabKeywords
  import opened VTabConstraint
  import opened VTabArg

  const MAX_PARAMS := 16

  datatype Number = Int | Long | Double | Float | UInt | Size

  datatype SlotType = Num(number: Number) | Bool | Str | EnumStr(values: seq<Option<string>>) | ValueOwned

  /** An output variable's value. A number is known by its bit pattern, a dynamic value by its literal. */
  datatype Value = NumValue(bits: int) | BoolValue(b: bool) | StrValue(text: string) | IndexValue(i: int)
                 | OwnedValue(literal: string)

  /** A parameter binding: `out` names the output variable, None is a null pointer. */
  datatype Slot = Slot(name: string, ty: SlotType, out: Option<nat>)

  datatype Param = Param(key: string, value: string)

  /** What sscanf makes of a text, for each of the number formats. */
  type Scan = (Number, string) -> Option<int>

  predicate EqualsCi(a: string, b: string) { |a| == |b| && StartsCi(a, b) }

  /** is_key_match, and key_is */
  predicate KeyMatch(a: string, b: string) { EqualsCi(StripQuotes(a), StripQuotes(b)) }

  // ---------------------------------------------------------------- one value

  function BoolOf(scan: Scan, v: string): Option<bool> {
    if scan(Int, v).Some? then Some(scan(Int, v).value != 0)
    else if EqualsCi(v, "true") || EqualsCi(v, "yes") || EqualsCi(v, "on") then Some(true)
    else if EqualsCi(v, "false") || EqualsCi(v, "no") || EqualsCi(v, "off") then Some(false)
    else None
  }

  /** The first enum value that matches, or -1. */
  function EnumIndex(v: string, values: seq<Option<string>>): int {
    if values == [] then -1
    else if values[0].Some? && EqualsCi(v, values[0].value) then 0
    else if EnumIndex(v, values[1..]) < 0 then -1
    else 1 + EnumIndex(v, values[1..])
  }

  /** The as_xxx accessors: None leaves the output alone. An enum binding always writes. */
  function Convert(scan: Scan, ty: SlotType, v: string): Option<Value> {
    match ty
    case Num(n) => if v == "" || scan(n, v).None? then None else Some(NumValue(scan(n, v).value))
    case Bool => if v == "" || BoolOf(scan, v).None? then None else Some(BoolValue(BoolOf(scan, v).value))
    case Str => Some(StrValue(v))
    case EnumStr(values) => Some(IndexValue(EnumIndex(StripQuotes(v), values)))
    case ValueOwned => Some(OwnedValue(v))
  }

  predicate Succeeds(scan: Scan, ty: SlotType, v: string) {
    Convert(scan, ty, v).Some? && (ty.EnumStr? ==> EnumIndex(StripQuotes(v), ty.values) >= 0)
  }

  function Assign(scan: Scan, ty: SlotType, v: string, before: Value): Value {
    if Convert(scan, ty, v).Some? then Convert(scan, ty, v).value else before
  }

  // ---------------------------------------------------------------- the getters

  /** find_param: the first parameter whose key matches. */
  function FindParam(params: seq<Param>, name: string): Option<Param> {
    if params == [] then None
    else if KeyMatch(params[0].key, name) then Some(params[0])
    else FindParam(params[1..], name)
  }

  /** What a getter makes of the value it has found. get_enum keeps the default for an empty or unknown value. */
  function ReadValue(scan: Scan, ty: SlotType, v: string, def: Value): Value {
    if ty.EnumStr? && (v == "" || EnumIndex(StripQuotes(v), ty.values) < 0) then def else Assign(scan, ty, v, def)
  }

  /** get_int, ..., get_str, get_value, get_enum: the converted first match, or the default. */
  function Getter(scan: Scan, ty: SlotType, params: seq<Param>, name: string, def: Value): Value {
    var p := FindParam(params, name);
    if p.Some? then ReadValue(scan, ty, p.value.value, def) else def
  }

  // ---------------------------------------------------------------- parse()

  function FirstSlot(slots: seq<Slot>, key: string): (i: Option<nat>)
    ensures i.Some? ==> i.value < |slots|
  {
    if slots == [] then None
    else if KeyMatch(key, slots[0].name) then Some(0)
    else if FirstSlot(slots[1..], key).Some? then Some(1 + FirstSlot(slots[1..], key).value)
    else None
  }

  predicate InCells(slots: seq<Slot>, cells: seq<Value>) {
    forall i | 0 <= i < |slots| && slots[i].out.Some? :: slots[i].out.value < |cells|
  }

  /** One parameter: only the first matching slot is looked at. */
  function ParseOne(scan: Scan, slots: seq<Slot>, p: Param, cells: seq<Value>): (r: seq<Value>)
    requires InCells(slots, cells)
    ensures |r| == |cells|
  {
    var i := FirstSlot(slots, p.key);
    if i.Some? && slots[i.value].out.Some? then
      var o := slots[i.value].out.value;
      cells[o := Assign(scan, slots[i.value].ty, p.value, cells[o])]
    else cells
  }

  function Counts(scan: Scan, slots: seq<Slot>, p: Param): nat {
    var i := FirstSlot(slots, p.key);
    if i.Some? && slots[i.value].out.Some? && Succeeds(scan, slots[i.value].ty, p.value) then 1 else 0
  }

  function ParseAll(scan: Scan, slots: seq<Slot>, params: seq<Param>, cells: seq<Value>): (r: seq<Value>)
    requires InCells(slots, cells)
    ensures |r| == |cells|
  {
    if params == [] then cells
    else ParseOne(scan, slots, params[|params| - 1], ParseAll(scan, slots, params[..|params| - 1], cells))
  }

  function Matched(scan: Scan, slots: seq<Slot>, params: seq<Param>): nat {
    if params == [] then 0
    else Matched(scan, slots, params[..|params| - 1]) + Counts(scan, slots, params[|params| - 1])
  }

  predicate HasBinding(slots: seq<Slot>, key: string) { exists i | 0 <= i < |slots| :: KeyMatch(slots[i].name, key) }

  function UnknownKeys(slots: seq<Slot>, params: seq<Param>): seq<string> {
    if params == [] then []
    else
      UnknownKeys(slots, params[..|params| - 1])
      + if HasBinding(slots, params[|params| - 1].key) then [] else [params[|params| - 1].key]
  }

  class ParamSchema {
    var slots: seq<Slot>

    constructor ()
      ensures slots == []
    {
      slots := [];
    }

    /** bind_xxx: the seventeenth and later bindings are dropped silently. */
    method Bind(name: string, ty: SlotType, out: Option<nat>)
      requires |slots| <= MAX_PARAMS
      modifies this
      ensures slots == (if |old(slots)| < 16 then old(slots) + [Slot(name, ty, out)] else old(slots))
      ensures |slots| <= MAX_PARAMS
    {
      if |slots| >= MAX_PARAMS { return; }
      slots := slots + [Slot(name, ty, out)];
    }

    /** parse: returns how many parameters were matched and converted. */
    method Parse(scan: Scan, params: seq<Param>, cells: array<Value>) returns (matched: nat)
      requires InCells(slots, cells[..])
      modifies cells
      ensures cells[..] == ParseAll(scan, slots, params, old(cells[..]))
      ensures matched == Matched(scan, slots, params)
    {
      hide ParseOne, Counts;
      ghost var before := cells[..];
      matched := 0;
      var k := 0;
      while k < |params|
        invariant 0 <= k <= |params| && InCells(slots, before)
        invariant cells[..] == ParseAll(scan, slots, params[..k], before)
        invariant matched == Matched(scan, slots, params[..k])
      {
        assert params[..k + 1][..k] == params[..k];
        var ok := ParseParam(scan, params[k], cells);
        if ok { matched := matched + 1; }
        k := k + 1;
      }
      assert params[..|params|] == params;
    }

    /** The slot loop of parse, left at the first slot whose name matches. */
    method ParseParam(scan: Scan, p: Param, cells: array<Value>) returns (ok: bool)
      requires InCells(slots, cells[..])
      modifies cells
      ensures cells[..] == ParseOne(scan, slots, p, old(cells[..]))
      ensures Counts(scan, slots, p) == if ok then 1 else 0
    {
      hide KeyMatch, Convert, EnumIndex;
      ok := false;
      var i := 0;
      assert slots[0..] == slots;
      while i < |slots|
        invariant 0 <= i <= |slots| && cells[..] == old(cells[..]) && !ok
        invariant FirstSlot(slots, p.key) == ShiftSlot(i, FirstSlot(slots[i..], p.key))
      {
        SlotStep(slots, i, p.key);
        if KeyMatch(p.key, slots[i].name) {
          var s := slots[i];
          if s.out.Some? {
            var v := Convert(scan, s.ty, p.value);
            if v.Some? { cells[s.out.value] := v.value; }
            ok := Succeeds(scan, s.ty, p.value);
          }
          return;
        }
        i := i + 1;
      }
    }

    method Binds(key: string) returns (bound: bool)
      ensures bound <==> HasBinding(slots, key)
    {
      hide KeyMatch;
      var i := 0;
      while i < |slots|
        invariant 0 <= i <= |slots| && forall k | 0 <= k < i :: !KeyMatch(slots[k].name, key)
      {
        if KeyMatch(slots[i].name, key) { return true; }
        i := i + 1;
      }
      return false;
    }

    /** validate: the number of parameters no binding knows, and the first of their keys. */
    method Validate(params: seq<Param>) returns (unknown: nat, first: Option<string>)
      ensures unknown == |UnknownKeys(slots, params)|
      ensures first == (if UnknownKeys(slots, params) == [] then None else Some(UnknownKeys(slots, params)[0]))
    {
      hide HasBinding;
      unknown, first := 0, None;
      var k := 0;
      while k < |params|
        invariant 0 <= k <= |params| && unknown == |UnknownKeys(slots, params[..k])|
        invariant first == if unknown == 0 then None else Some(UnknownKeys(slots, params[..k])[0])
      {
        assert params[..k + 1][..k] == params[..k];
        var bound := Binds(params[k].key);
        if !bound {
          if unknown == 0 { first := Some(params[k].key); }
          unknown := unknown + 1;
        }
        k := k + 1;
      }
      assert params[..|params|] == params;
    }
  }

  function ShiftSlot(n: nat, i: Option<nat>): Option<nat> { if i.Some? then Some(n + i.value) else None }

  lemma SlotStep(slots: seq<Slot>, i: nat, key: string)
    requires i < |slots|
    ensures FirstSlot(slots[i..], key)
         == if KeyMatch(key, slots[i].name) then Some(0) else ShiftSlot(1, FirstSlot(slots[i + 1..], key))
  {
    hide KeyMatch;
    assert slots[i..][1..] == slots[i + 1..];
  }

  // ---------------------------------------------------------------- keys

  lemma KeyMatchSymmetric(a: string, b: string)
    ensures KeyMatch(a, b) <==> KeyMatch(b, a)
  {
  }

  lemma KeyMatchTransitive(a: string, b: string, c: string)
    requires KeyMatch(a, b) && KeyMatch(b, c)
    ensures KeyMatch(a, c)
  {
    hide StripQuotes;
  }

  /** No two bindings match each other, or share an output variable. */
  predicate Distinct(slots: seq<Slot>) {
    forall i, j | 0 <= i < j < |slots| ::
      !KeyMatch(slots[i].name, slots[j].name) && (slots[i].out.Some? ==> slots[i].out != slots[j].out)
  }

  lemma {:induction false} FirstSlotIs(slots: seq<Slot>, key: string)
    ensures FirstSlot(slots, key).Some? ==>
              var i := FirstSlot(slots, key).value;
              KeyMatch(key, slots[i].name) && forall k | 0 <= k < i :: !KeyMatch(key, slots[k].name)
    ensures FirstSlot(slots, key).None? ==> forall k | 0 <= k < |slots| :: !KeyMatch(key, slots[k].name)
  {
    hide KeyMatch;
    if slots != [] {
      FirstSlotIs(slots[1..], key);
      assert forall k | 0 < k < |slots| :: slots[k] == slots[1..][k - 1];
    }
  }

  /** Among distinct bindings a key reaches slot `i` iff it matches its name. */
  lemma SlotOfKey(slots: seq<Slot>, key: string, i: nat)
    requires Distinct(slots) && i < |slots|
    ensures FirstSlot(slots, key) == Some(i) <==> KeyMatch(key, slots[i].name)
  {
    hide KeyMatch, FirstSlot;
    FirstSlotIs(slots, key);
    if KeyMatch(key, slots[i].name) && FirstSlot(slots, key).Some? {
      var j := FirstSlot(slots, key).value;
      KeyMatchSymmetric(key, slots[j].name);
      KeyMatchTransitive(slots[j].name, key, slots[i].name);
    }
  }

  // ---------------------------------------------------------------- what parse leaves in an output

  /** The values of all parameters that match a name, in order. */
  function ValuesOf(params: seq<Param>, name: string): seq<string> {
    if params == [] then []
    else
      ValuesOf(params[..|params| - 1], name)
      + if KeyMatch(params[|params| - 1].key, name) then [params[|params| - 1].value] else []
  }

  /** Each value in turn is converted over the previous content. */
  function AssignAll(scan: Scan, ty: SlotType, values: seq<string>, before: Value): Value {
    if values == [] then before
    else Assign(scan, ty, values[|values| - 1], AssignAll(scan, ty, values[..|values| - 1], before))
  }

  lemma AssignAllStep(scan: Scan, ty: SlotType, values: seq<string>, v: string, before: Value)
    ensures AssignAll(scan, ty, values + [v], before) == Assign(scan, ty, v, AssignAll(scan, ty, values, before))
  {
    assert (values + [v])[..|values|] == values;
  }

  /** For distinct bindings, parse leaves in each output the conversions of exactly the parameters that match
      its binding, in their order. */
  lemma {:induction false} ParseIsAssignAll(scan: Scan, slots: seq<Slot>, params: seq<Param>, cells: seq<Value>, i: nat)
    requires Distinct(slots) && InCells(slots, cells) && i < |slots| && slots[i].out.Some?
    ensures ParseAll(scan, slots, params, cells)[slots[i].out.value]
         == AssignAll(scan, slots[i].ty, ValuesOf(params, slots[i].name), cells[slots[i].out.value])
    decreases |params|
  {
    hide KeyMatch, Assign, FirstSlot, AssignAll;
    var o := slots[i].out.value;
    if params == [] {
      AssignNothing(scan, slots[i].ty, cells[o]);
    } else {
      var n := |params| - 1;
      var p := params[n];
      var mid := ParseAll(scan, slots, params[..n], cells);
      ParseIsAssignAll(scan, slots, params[..n], cells, i);
      SlotOfKey(slots, p.key, i);
      var values := ValuesOf(params[..n], slots[i].name);
      if KeyMatch(p.key, slots[i].name) {
        AssignAllStep(scan, slots[i].ty, values, p.value, cells[o]);
      } else {
        OtherSlot(slots, p.key, i);
        assert values + [] == values;
      }
    }
  }

  lemma AssignNothing(scan: Scan, ty: SlotType, before: Value)
    ensures AssignAll(scan, ty, [], before) == before
  {
  }

  lemma OtherSlot(slots: seq<Slot>, key: string, i: nat)
    requires Distinct(slots) && i < |slots| && FirstSlot(slots, key) != Some(i) && slots[i].out.Some?
    ensures FirstSlot(slots, key).Some? ==> slots[FirstSlot(slots, key).value].out != slots[i].out
  {
    hide KeyMatch, FirstSlot;
  }

  // ---------------------------------------------------------------- parse against the getters

  lemma {:induction false} FindParamIsFirst(params: seq<Param>, name: string)
    ensures FindParam(params, name).Some? <==> ValuesOf(params, name) != []
    ensures FindParam(params, name).Some? ==> FindParam(params, name).value.value == ValuesOf(params, name)[0]
    decreases |params|
  {
    hide KeyMatch;
    if params != [] {
      FindParamIsFirst(params[1..], name);
      ValuesFromFront(params, name);
    }
  }

  lemma {:induction false} ValuesFromFront(params: seq<Param>, name: string)
    requires params != []
    ensures ValuesOf(params, name)
         == (if KeyMatch(params[0].key, name) then [params[0].value] else []) + ValuesOf(params[1..], name)
    decreases |params|
  {
    hide KeyMatch;
    var n := |params| - 1;
    if n > 0 {
      ValuesFromFront(params[..n], name);
      assert params[..n][1..] == params[1..][..n - 1] && params[1..][n - 1] == params[n];
    }
  }

  /** A text that as_bool accepts without the number scanner. */
  predicate IsBoolWord(v: string) {
    || EqualsCi(v, "true") || EqualsCi(v, "yes") || EqualsCi(v, "on")
    || EqualsCi(v, "false") || EqualsCi(v, "no") || EqualsCi(v, "off")
  }

  function LastNonEmpty(values: seq<string>): string {
    if values == [] then ""
    else if values[|values| - 1] != "" then values[|values| - 1]
    else LastNonEmpty(values[..|values| - 1])
  }

  predicate Matches(v: string, option: Option<string>) { option.Some? && EqualsCi(StripQuotes(v), option.value) }

  /** The first option that `v` matches. */
  predicate IsChoice(v: string, options: seq<Option<string>>, j: int) {
    0 <= j < |options| && Matches(v, options[j]) && forall k | 0 <= k < j :: !Matches(v, options[k])
  }

  predicate MatchesSome(v: string, options: seq<Option<string>>) {
    exists j | 0 <= j < |options| :: Matches(v, options[j])
  }

  predicate SameChoice(u: string, v: string, options: seq<Option<string>>) {
    forall j | 0 <= j < |options| :: IsChoice(u, options, j) <==> IsChoice(v, options, j)
  }

  /** The condition on the texts of a repeated parameter under which parse and getter cannot differ. A number
      takes the last convertible text where the getter takes the first, so all texts but the empty ones must be
      the first one; likewise a Boolean, unless the first text is one of the six words. A string takes the last
      text. An enum binding takes the last text, and the first one must be a known value. */
  predicate Agreeable(ty: SlotType, values: seq<string>) {
    values == [] ||
    var first, last := values[0], values[|values| - 1];
    match ty
    case Num(_) => forall v | v in values :: v == "" || v == first
    case Bool =>
      if IsBoolWord(first) then LastNonEmpty(values) == first else forall v | v in values :: v == "" || v == first
    case Str => last == first
    case ValueOwned => last == first
    case EnumStr(options) => first != "" && MatchesSome(first, options) && SameChoice(first, last, options)
  }

  lemma {:induction false} AssignAgreeable(scan: Scan, ty: SlotType, values: seq<string>, before: Value)
    requires values != [] && (ty.Num? || ty.Bool?) && forall v | v in values :: v == "" || v == values[0]
    ensures AssignAll(scan, ty, values, before) == Assign(scan, ty, values[0], before)
    decreases |values|
  {
    hide BoolOf;
    var n := |values| - 1;
    if n == 0 {
      assert values[..0] == [];
    } else {
      assert values[n] in values;
      assert forall u | u in values[..n] :: u in values;
      AssignAgreeable(scan, ty, values[..n], before);
    }
  }

  /** A text that always converts wins if only empty texts follow it. */
  lemma {:induction false} LastNonEmptyWins(scan: Scan, values: seq<string>, before: Value)
    requires Convert(scan, Bool, LastNonEmpty(values)).Some?
    ensures AssignAll(scan, Bool, values, before) == Convert(scan, Bool, LastNonEmpty(values)).value
    decreases |values|
  {
    hide BoolOf;
    if values[|values| - 1] == "" {
      LastNonEmptyWins(scan, values[..|values| - 1], before);
    }
  }

  lemma TakesLast(scan: Scan, ty: SlotType, values: seq<string>, before: Value)
    requires values != [] && (ty.Str? || ty.ValueOwned? || ty.EnumStr?)
    ensures AssignAll(scan, ty, values, before) == Convert(scan, ty, values[|values| - 1]).value
  {
    hide EnumIndex;
  }

  /** EnumIndex is the choice, or -1 without one. */
  lemma {:induction false} EnumIndexIsChoice(v: string, options: seq<Option<string>>)
    ensures var r := EnumIndex(StripQuotes(v), options);
            if r < 0 then r == -1 && !MatchesSome(v, options) else IsChoice(v, options, r)
    decreases |options|
  {
    hide EqualsCi, StripQuotes;
    if options != [] && !Matches(v, options[0]) {
      EnumIndexIsChoice(v, options[1..]);
      forall k | 0 < k < |options|
        ensures Matches(v, options[k]) <==> Matches(v, options[1..][k - 1])
      {
      }
    }
  }

  /** Two texts get the same index iff they have the same choice. */
  lemma SameIndexIff(u: string, v: string, options: seq<Option<string>>)
    ensures EnumIndex(StripQuotes(u), options) == EnumIndex(StripQuotes(v), options) <==> SameChoice(u, v, options)
  {
    hide EnumIndex, Matches, StripQuotes;
    EnumIndexIsChoice(u, options);
    EnumIndexIsChoice(v, options);
    var i, j := EnumIndex(StripQuotes(u), options), EnumIndex(StripQuotes(v), options);
    if SameChoice(u, v, options) && i >= 0 { assert IsChoice(v, options, i); }
    if SameChoice(u, v, options) && j >= 0 { assert IsChoice(u, options, j); }
  }

  lemma AgreeableSuffices(scan: Scan, ty: SlotType, values: seq<string>, before: Value)
    requires values != [] && Agreeable(ty, values)
    ensures AssignAll(scan, ty, values, before) == ReadValue(scan, ty, values[0], before)
  {
    hide AssignAll, EqualsCi, EnumIndex, MatchesSome, SameChoice, LastNonEmpty;
    match ty
    case Num(_) => AssignAgreeable(scan, ty, values, before);
    case Bool =>
      if IsBoolWord(values[0]) {
        WordIsNotEmpty(values[0]);
        LastNonEmptyWins(scan, values, before);
      } else {
        AssignAgreeable(scan, ty, values, before);
      }
    case Str => TakesLast(scan, ty, values, before);
    case ValueOwned => TakesLast(scan, ty, values, before);
    case EnumStr(options) =>
      TakesLast(scan, ty, values, before);
      EnumIndexIsChoice(values[0], options);
      SomeChoice(values[0], options);
      SameIndexIff(values[0], values[|values| - 1], options);
  }

  lemma WordIsNotEmpty(v: string)
    requires IsBoolWord(v)
    ensures v != ""
  {
  }

  lemma SomeChoice(v: string, options: seq<Option<string>>)
    ensures MatchesSome(v, options) <==> EnumIndex(StripQuotes(v), options) >= 0
  {
    hide EnumIndex, Matches, StripQuotes;
    EnumIndexIsChoice(v, options);
  }

  /** The condition of the documented agreement: no two parameter keys match each other. */
  predicate KeysApart(params: seq<Param>) {
    forall i, j | 0 <= i < j < |params| :: !KeyMatch(params[i].key, params[j].key)
  }

  lemma {:induction false} AtMostOneValue(params: seq<Param>, name: string)
    requires KeysApart(params)
    ensures |ValuesOf(params, name)| <= 1
    ensures |ValuesOf(params, name)| == 1 ==> exists i | 0 <= i < |params| :: KeyMatch(params[i].key, name)
    decreases |params|
  {
    hide KeyMatch;
    if params != [] {
      var n := |params| - 1;
      AtMostOneValue(params[..n], name);
      if KeyMatch(params[n].key, name) && |ValuesOf(params[..n], name)| == 1 {
        var i :| 0 <= i < n && KeyMatch(params[..n][i].key, name);
        KeyMatchSymmetric(params[n].key, name);
        KeyMatchTransitive(params[i].key, name, params[n].key);
        assert false;
      }
      if KeyMatch(params[n].key, name) {
      } else if |ValuesOf(params, name)| == 1 {
        var i :| 0 <= i < n && KeyMatch(params[..n][i].key, name);
        assert KeyMatch(params[i].key, name);
      }
    }
  }

  lemma ApartIsAgreeable(params: seq<Param>, name: string, ty: SlotType)
    requires KeysApart(params) && !ty.EnumStr?
    ensures Agreeable(ty, ValuesOf(params, name))
  {
    hide KeysApart, KeyMatch, ValuesOf, EqualsCi;
    AtMostOneValue(params, name);
    var values := ValuesOf(params, name);
    if values != [] && IsBoolWord(values[0]) { WordIsNotEmpty(values[0]); }
  }

  /** For distinct bindings: parse converts the matching texts in order, the getter reads the first of them. */
  lemma ParseAndGetter(scan: Scan, slots: seq<Slot>, params: seq<Param>, cells: seq<Value>, i: nat)
    requires Distinct(slots) && InCells(slots, cells) && i < |slots| && slots[i].out.Some?
    ensures var s, o := slots[i], slots[i].out.value;
            var values := ValuesOf(params, s.name);
            && ParseAll(scan, slots, params, cells)[o] == AssignAll(scan, s.ty, values, cells[o])
            && Getter(scan, s.ty, params, s.name, cells[o])
               == (if values == [] then cells[o] else ReadValue(scan, s.ty, values[0], cells[o]))
  {
    hide KeyMatch, Assign, FirstSlot, AssignAll, ParseAll, ValuesOf, FindParam, Distinct, ReadValue;
    ParseIsAssignAll(scan, slots, params, cells, i);
    FindParamIsFirst(params, slots[i].name);
  }

  /** After parse, an output holds what the getter of the same type returns with the old content as default,
      whenever the texts of its matching parameters are agreeable: for all but enum bindings in particular
      when no two keys match. */
  lemma ParseAgreesWithGetter(scan: Scan, slots: seq<Slot>, params: seq<Param>, cells: seq<Value>, i: nat)
    requires Distinct(slots) && InCells(slots, cells) && i < |slots| && slots[i].out.Some?
    requires Agreeable(slots[i].ty, ValuesOf(params, slots[i].name))
             || (KeysApart(params) && !slots[i].ty.EnumStr?)
    ensures var o := slots[i].out.value;
            ParseAll(scan, slots, params, cells)[o]
            == Getter(scan, slots[i].ty, params, slots[i].name, cells[o])
  {
    hide KeyMatch, Assign, FirstSlot, AssignAll, ParseAll, ValuesOf, FindParam, Agreeable, KeysApart, Distinct, Getter,
         ReadValue;
    var s, o := slots[i], slots[i].out.value;
    var values := ValuesOf(params, s.name);
    if KeysApart(params) && !s.ty.EnumStr? { ApartIsAgreeable(params, s.name, s.ty); }
    ParseAndGetter(scan, slots, params, cells, i);
    if values == [] {
      AssignNothing(scan, s.ty, cells[o]);
    } else {
      AgreeableSuffices(scan, s.ty, values, cells[o]);
    }
  }

  // ---------------------------------------------------------------- the condition is exact

  /** The number scanner that reads 1 from every text but `first`. */
  function ScanAllBut(first: string): Scan {
    (n: Number, v: string) => if v == first then None else Some(1)
  }

  /** ... and 0 from `first`. */
  function ScanApart(first: string): Scan {
    (n: Number, v: string) => if v == first then Some(0) else Some(1)
  }

  function Zero(ty: SlotType): Value { if ty.Bool? then BoolValue(false) else NumValue(0) }

  function One(ty: SlotType): Value { if ty.Bool? then BoolValue(true) else NumValue(1) }

  lemma {:induction false} OtherTextWins(ty: SlotType, values: seq<string>, first: string)
    requires (ty.Num? || (ty.Bool? && !IsBoolWord(first))) && exists v :: v in values && v != "" && v != first
    ensures AssignAll(ScanAllBut(first), ty, values, Zero(ty)) == One(ty)
    decreases |values|
  {
    hide EqualsCi;
    var n := |values| - 1;
    if values[n] == "" || values[n] == first {
      var v :| v in values && v != "" && v != first;
      assert v in values[..n];
      OtherTextWins(ty, values[..n], first);
    }
  }

  lemma {:induction false} NonEmptyStays(values: seq<string>, v: string)
    requires v in values && v != ""
    ensures LastNonEmpty(values) != ""
  {
    if values[|values| - 1] == "" { NonEmptyStays(values[..|values| - 1], v); }
  }

  /** Unless the texts are agreeable, some number scanner and some old content tell parse and getter apart. */
  lemma NotAgreeableDiffers(ty: SlotType, values: seq<string>) returns (scan: Scan, before: Value)
    requires values != [] && !Agreeable(ty, values)
    ensures AssignAll(scan, ty, values, before) != ReadValue(scan, ty, values[0], before)
  {
    hide AssignAll, EqualsCi, EnumIndex, MatchesSome, SameChoice, LastNonEmpty;
    var first, last := values[0], values[|values| - 1];
    if ty.Bool? && IsBoolWord(first) {
      scan, before := ScanApart(first), Zero(ty);
      WordIsNotEmpty(first);
      NonEmptyStays(values, first);
      LastNonEmptyWins(scan, values, before);
    } else if ty.Num? || ty.Bool? {
      scan, before := ScanAllBut(first), Zero(ty);
      OtherTextWins(ty, values, first);
    } else {
      scan, before := ScanAllBut(first), IndexValue(-2);
      TakesLast(scan, ty, values, before);
      if ty.EnumStr? {
        EnumIndexIsChoice(last, ty.values);
        SomeChoice(first, ty.values);
        SameIndexIff(first, last, ty.values);
      }
    }
  }

  /** More output variables than any binding names. */
  function CellCount(slots: seq<Slot>): (n: nat)
    ensures forall i | 0 <= i < |slots| && slots[i].out.Some? :: slots[i].out.value < n
  {
    if slots == [] then 0
    else
      var n := CellCount(slots[1..]);
      assert forall i | 0 < i < |slots| :: slots[i] == slots[1..][i - 1];
      if slots[0].out.Some? && slots[0].out.value >= n then slots[0].out.value + 1 else n
  }

  predicate AgreesOn(scan: Scan, slots: seq<Slot>, params: seq<Param>, cells: seq<Value>, i: nat)
    requires InCells(slots, cells) && i < |slots| && slots[i].out.Some?
  {
    var o := slots[i].out.value;
    ParseAll(scan, slots, params, cells)[o] == Getter(scan, slots[i].ty, params, slots[i].name, cells[o])
  }

  /** For a binding of any type, with any number of matching parameters: parse and getter agree for every number
      scanner and every old content iff the texts are agreeable. */
  lemma AgreementIsExact(slots: seq<Slot>, params: seq<Param>, i: nat)
    requires Distinct(slots) && i < |slots| && slots[i].out.Some?
    ensures Agreeable(slots[i].ty, ValuesOf(params, slots[i].name))
       <==> forall scan: Scan, cells | InCells(slots, cells) :: AgreesOn(scan, slots, params, cells, i)
  {
    hide KeyMatch, Assign, AssignAll, ParseAll, ValuesOf, FindParam, Agreeable, Distinct, Getter, ReadValue, AgreesOn,
         InCells;
    var s := slots[i];
    var values := ValuesOf(params, s.name);
    if Agreeable(s.ty, values) {
      forall scan: Scan, cells | InCells(slots, cells)
        ensures AgreesOn(scan, slots, params, cells, i)
      {
        ParseAgreesWithGetter(scan, slots, params, cells, i);
        AgreesOnIs(scan, slots, params, cells, i);
      }
    } else {
      NothingIsAgreeable(s.ty);
      var scan, before := NotAgreeableDiffers(s.ty, values);
      var cells := seq(CellCount(slots), k => before);
      CellsFit(slots, cells);
      ParseAndGetter(scan, slots, params, cells, i);
      AgreesOnIs(scan, slots, params, cells, i);
      assert !AgreesOn(scan, slots, params, cells, i);
    }
  }

  lemma AgreesOnIs(scan: Scan, slots: seq<Slot>, params: seq<Param>, cells: seq<Value>, i: nat)
    requires InCells(slots, cells) && i < |slots| && slots[i].out.Some?
    ensures slots[i].out.value < |cells|
    ensures AgreesOn(scan, slots, params, cells, i)
       <==> ParseAll(scan, slots, params, cells)[slots[i].out.value]
            == Getter(scan, slots[i].ty, params, slots[i].name, cells[slots[i].out.value])
  {
  }

  lemma NothingIsAgreeable(ty: SlotType)
    ensures Agreeable(ty, [])
  {
  }

  lemma CellsFit(slots: seq<Slot>, cells: seq<Value>)
    requires |cells| == CellCount(slots)
    ensures InCells(slots, cells)
  {
  }

  // ---------------------------------------------------------------- enum bindings

  /** parse leaves the choice of the last matching text in an enum output, or -1. */
  lemma EnumTakesLast(scan: Scan, slots: seq<Slot>, params: seq<Param>, cells: seq<Value>, i: nat)
      returns (index: int)
    requires Distinct(slots) && InCells(slots, cells) && i < |slots| && slots[i].out.Some? && slots[i].ty.EnumStr?
    requires ValuesOf(params, slots[i].name) != []
    ensures ParseAll(scan, slots, params, cells)[slots[i].out.value] == IndexValue(index)
    ensures var values, options := ValuesOf(params, slots[i].name), slots[i].ty.values;
            var last := values[|values| - 1];
            if MatchesSome(last, options) then IsChoice(last, options, index) else index == -1
  {
    hide KeyMatch, AssignAll, ParseAll, ValuesOf, FindParam, Distinct, Getter, ReadValue, EnumIndex, MatchesSome,
         IsChoice;
    var s := slots[i];
    var values := ValuesOf(params, s.name);
    ParseAndGetter(scan, slots, params, cells, i);
    TakesLast(scan, s.ty, values, cells[s.out.value]);
    index := EnumIndex(StripQuotes(values[|values| - 1]), s.ty.values);
    EnumIndexIsChoice(values[|values| - 1], s.ty.values);
    SomeChoice(values[|values| - 1], s.ty.values);
  }

  /** If the first text is a known value, the last must have the same choice; if not, get_enum keeps the old
      content `def`, which must be what the last text chooses, or -1 if it chooses nothing. */
  predicate EnumTextsAgree(values: seq<string>, options: seq<Option<string>>, def: int)
    requires values != []
  {
    var first, last := values[0], values[|values| - 1];
    if first != "" && MatchesSome(first, options) then SameChoice(first, last, options)
    else if MatchesSome(last, options) then IsChoice(last, options, def)
    else def == -1
  }

  /** When an enum output and get_enum agree, for a given old content `def` and any number of matching texts. For
      a single text that is not empty: it is a known value, or `def` is -1. */
  lemma EnumAgreesIff(scan: Scan, slots: seq<Slot>, params: seq<Param>, cells: seq<Value>, i: nat, def: int)
    requires Distinct(slots) && InCells(slots, cells) && i < |slots| && slots[i].out.Some? && slots[i].ty.EnumStr?
    requires cells[slots[i].out.value] == IndexValue(def) && ValuesOf(params, slots[i].name) != []
    ensures AgreesOn(scan, slots, params, cells, i)
       <==> EnumTextsAgree(ValuesOf(params, slots[i].name), slots[i].ty.values, def)
    ensures var values, options := ValuesOf(params, slots[i].name), slots[i].ty.values;
            |values| == 1 && values[0] != "" ==>
              (AgreesOn(scan, slots, params, cells, i) <==> MatchesSome(values[0], options) || def == -1)
  {
    hide KeyMatch, AssignAll, ParseAll, ValuesOf, FindParam, Distinct, Getter, EnumIndex, MatchesSome, IsChoice,
         SameChoice, AgreesOn;
    var s := slots[i];
    var values := ValuesOf(params, s.name);
    var first, last := values[0], values[|values| - 1];
    ParseAndGetter(scan, slots, params, cells, i);
    AgreesOnIs(scan, slots, params, cells, i);
    TakesLast(scan, s.ty, values, cells[s.out.value]);
    SomeChoice(first, s.ty.values);
    SomeChoice(last, s.ty.values);
    EnumIndexIsChoice(last, s.ty.values);
    SameIndexIff(first, last, s.ty.values);
    OneChoice(last, s.ty.values, EnumIndex(StripQuotes(last), s.ty.values), def);
    SameChoiceItself(first, s.ty.values);
  }

  lemma OneChoice(v: string, options: seq<Option<string>>, i: int, j: int)
    requires IsChoice(v, options, i) || !MatchesSome(v, options)
    ensures IsChoice(v, options, j) && MatchesSome(v, options) <==> i == j && IsChoice(v, options, i)
  {
    hide Matches;
  }

  lemma SameChoiceItself(v: string, options: seq<Option<string>>)
    ensures SameChoice(v, v, options)
  {
    hide IsChoice;
  }

  /** An unknown value: parse writes -1 over the old content that get_enum returns. */
  lemma EnumUnknownDiffers(scan: Scan)
    ensures var slots := [Slot("mode", EnumStr([Some("fast"), Some("strict")]), Some(0))];
            var params := [Param("mode", "slow")];
            && ParseAll(scan, slots, params, [IndexValue(0)]) == [IndexValue(-1)]
            && Getter(scan, slots[0].ty, params, "mode", IndexValue(0)) == IndexValue(0)
  {
    var options := [Some("fast"), Some("strict")];
    var slots := [Slot("mode", EnumStr(options), Some(0))];
    var params := [Param("mode", "slow")];
    assert KeyMatch("mode", "mode");
    assert params[..0] == [];
    SlowIsUnknown();
  }

  lemma SlowIsUnknown()
    ensures EnumIndex(StripQuotes("slow"), [Some("fast"), Some("strict")]) == -1
  {
    var options := [Some("fast"), Some("strict")];
    assert StripQuotes("slow") == "slow" && "slow"[0] == 's' && "fast"[0] == 'f';
    assert !EqualsCi("slow", "fast") && !EqualsCi("slow", "strict");
    assert options[1..] == [Some("strict")] && options[1..][1..] == [];
  }

  // ---------------------------------------------------------------- validate()

  /** validate is 0 iff every parameter key is bound. */
  lemma {:induction false} ValidIffAllBound(slots: seq<Slot>, params: seq<Param>)
    ensures UnknownKeys(slots, params) == [] <==> forall i | 0 <= i < |params| :: HasBinding(slots, params[i].key)
    decreases |params|
  {
    hide HasBinding;
    if params != [] {
      var n := |params| - 1;
      ValidIffAllBound(slots, params[..n]);
      if UnknownKeys(slots, params) == [] {
        forall i | 0 <= i < |params|
          ensures HasBinding(slots, params[i].key)
        {
          if i < n { assert params[..n][i] == params[i]; }
        }
      } else if UnknownKeys(slots, params[..n]) != [] {
        var i :| 0 <= i < n && !HasBinding(slots, params[..n][i].key);
        assert !HasBinding(slots, params[i].key);
      }
    }
  }

  /** A parameter is bound iff parse has a slot for it. */
  lemma BoundIffParsed(slots: seq<Slot>, key: string)
    ensures HasBinding(slots, key) <==> FirstSlot(slots, key).Some?
  {
    hide KeyMatch, FirstSlot;
    FirstSlotIs(slots, key);
    forall i | 0 <= i < |slots|
      ensures KeyMatch(slots[i].name, key) <==> KeyMatch(key, slots[i].name)
    {
      KeyMatchSymmetric(slots[i].name, key);
    }
  }

  /** Two parameters with the same key: parse leaves the second text, get_str returns the first. */
  lemma RepeatedKeyDiffers(scan: Scan, before: Value)
    ensures var slots := [Slot("a", Str, Some(0))];
            var params := [Param("a", "1"), Param("a", "2")];
            && ParseAll(scan, slots, params, [before]) == [StrValue("2")]
            && Getter(scan, Str, params, "a", before) == StrValue("1")
  {
    var slots := [Slot("a", Str, Some(0))];
    var params := [Param("a", "1"), Param("a", "2")];
    assert KeyMatch("a", "a");
    assert params[..1] == [Param("a", "1")] && params[..1][..0] == [];
    assert ParseAll(scan, slots, params[..1], [before]) == [StrValue("1")];
  }

  // ---------------------------------------------------------------- the parameters of an argument list

  /** for_each_param: the key=value arguments in order. */
  function ParamsOf(args: seq<Option<string>>): seq<Param> {
    if args == [] then []
    else
      var a := Classify(args[|args| - 1]);
      ParamsOf(args[..|args| - 1]) + if a.ParamArg? then [Param(a.key, a.value)] else []
  }

  /** A parameter found by a getter always has a key, so an empty key means "not found". */
  lemma {:induction false} KeysAreNonEmpty(args: seq<Option<string>>)
    ensures forall p | p in ParamsOf(args) :: p.key != "" && NoSpaces(p.key)
  {
    hide IsConstraintPrefix, HasWithoutRowid, EqualsAt, Trim, ParseConstraint, DropSpaces;
    if args != [] {
      KeysAreNonEmpty(args[..|args| - 1]);
      var raw := args[|args| - 1];
      if raw.Some? && Classify(raw).ParamArg? {
        var base := DropSpaces(raw.value);
        BaseFront(raw.value);
        TrimKeepsFront(base[..EqualsAt(base).value]);
      }
    }
  }

  lemma BaseFront(s: string)
    ensures DropSpaces(s) != "" ==> !IsSpace(DropSpaces(s)[0])
  {
    SpacesLenIs(s);
  }

  lemma TrimKeepsFront(s: string)
    requires s != "" && !IsSpace(s[0])
    ensures Trim(s) != ""
  {
    var a, b := TrimSplits(s);
    AllSpacesJoin(a, b);
    assert Trim(s) == "" ==> s == a + b;
  }
}

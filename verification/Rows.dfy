/** Row views and their operators: element access over every backing store, the separately written
    comparison loops, the scalar shortcuts, and the row hash. Values are abstract. */
module Rows {
  import opened Wrappers
  import opened Words
  import opened HashCombine

  const DEFAULT_SEED: U64 := 0

  /** The operators of the value type, and the null value. */
  datatype Values<!V> = Values(lt: (V, V) -> bool, eq: (V, V) -> bool, hash: V -> U64, nil: V)

  /** The hypothesis on values: `<` is a strict order whose incomparable pairs are exactly the equal ones,
      equality is transitive, and equal values hash alike. */
  ghost predicate Lawful<V(!new)>(o: Values<V>) {
    && (forall a :: !o.lt(a, a))
    && (forall a, b, c :: o.lt(a, b) && o.lt(b, c) ==> o.lt(a, c))
    && (forall a, b :: o.eq(a, b) <==> !o.lt(a, b) && !o.lt(b, a))
    && (forall a, b, c :: o.eq(a, b) && o.eq(b, c) ==> o.eq(a, c))
    && (forall a, b :: o.eq(a, b) ==> o.hash(a) == o.hash(b))
  }

  // ---------------------------------------------------------------- element access

  /** SqliteRowView and SqliteRowOwnedView over their stores. A pointer is None when null; `count` is the
      count given to the constructor. */
  datatype View<V> =
    | Stmt(columns: seq<V>)
    | Argv(argv: Option<seq<Option<V>>>, count: int)
    | ViewArray(views: seq<V>, count: int)
    | PtrArray(ptrs: Option<seq<Option<V>>>, count: int)
    | OwnedArray(owned: Option<seq<V>>, count: int)
    | OwnedPtrArray(ownedPtrs: Option<seq<Option<V>>>, count: int)
    | NoColumns

  /** The arrays are as long as the caller says. */
  predicate Backed<V>(v: View<V>) {
    match v
    case Argv(p, n) => p.Some? ==> n <= |p.value|
    case ViewArray(a, n) => n <= |a|
    case PtrArray(p, n) => p.Some? ==> n <= |p.value|
    case OwnedArray(a, n) => a.Some? ==> n <= |a.value|
    case OwnedPtrArray(p, n) => p.Some? ==> n <= |p.value|
    case Stmt(_) => true
    case NoColumns => true
  }

  function Size<V>(v: View<V>): nat {
    match v
    case Stmt(columns) => |columns|
    case Argv(_, n) => if n >= 0 then n else 0
    case ViewArray(_, n) => if n >= 0 then n else 0
    case PtrArray(_, n) => if n >= 0 then n else 0
    case OwnedArray(a, n) => if a.Some? && n > 0 then n else 0
    case OwnedPtrArray(p, n) => if p.Some? && n > 0 then n else 0
    case NoColumns => 0
  }

  function Deref<V>(p: Option<seq<Option<V>>>, col: nat, nil: V): V
    requires p.Some? ==> col < |p.value|
  {
    if p.Some? && p.value[col].Some? then p.value[col].value else nil
  }

  /** operator[]: out of bounds, and behind null pointers, there is the null value. */
  function At<V>(v: View<V>, col: int, nil: V): V
    requires Backed(v)
  {
    if col < 0 || col >= Size(v) then nil
    else match v
      case Stmt(columns) => columns[col]
      case Argv(p, _) => Deref(p, col, nil)
      case ViewArray(a, _) => a[col]
      case PtrArray(p, _) => Deref(p, col, nil)
      case OwnedArray(a, _) => a.value[col]
      case OwnedPtrArray(p, _) => Deref(p, col, nil)
      case NoColumns => nil
  }

  /** The row a view denotes. */
  function Row<V>(v: View<V>, nil: V): (r: seq<V>)
    requires Backed(v)
    ensures |r| == Size(v)
  {
    seq(Size(v), i requires 0 <= i < Size(v) => At(v, i, nil))
  }

  function ValueOr<V>(p: Option<V>, nil: V): V { if p.Some? then p.value else nil }

  /** The same columns kept as an argument vector, as an array of pointers or as a contiguous array, owned or
      not, or in a statement, are one and the same row; a null pointer in them is the null value. */
  lemma StoresAgree<V>(cells: seq<Option<V>>, nil: V)
    ensures var n := |cells|;
            var row := seq(n, i requires 0 <= i < n => ValueOr(cells[i], nil));
            && Row(Argv(Some(cells), n), nil) == row && Row(PtrArray(Some(cells), n), nil) == row
            && Row(OwnedPtrArray(Some(cells), n), nil) == row && Row(ViewArray(row, n), nil) == row
            && Row(OwnedArray(Some(row), n), nil) == row && Row(Stmt(row), nil) == row
  {
  }

  /** A view is as wide as its count; a missing argument vector reads as null values, a missing owned array as
      no columns at all, and every index outside the row as the null value. */
  lemma MissingStores<V>(n: int, col: int, nil: V)
    ensures Row(Argv(None, n), nil) == seq(if n > 0 then n else 0, i => nil) == Row(PtrArray(None, n), nil)
    ensures Row(OwnedArray(None, n), nil) == [] == Row(OwnedPtrArray(None, n), nil)
    ensures forall v: View<V> | Backed(v) && !(0 <= col < Size(v)) :: At(v, col, nil) == nil
  {
  }

  // ---------------------------------------------------------------- the orders

  predicate RowEq<V>(o: Values<V>, a: seq<V>, b: seq<V>)
    decreases |a|
  {
    if a == [] || b == [] then a == [] && b == [] else o.eq(a[0], b[0]) && RowEq(o, a[1..], b[1..])
  }

  /** Lexicographic: a proper prefix comes first, otherwise the first difference decides. */
  predicate RowLess<V>(o: Values<V>, a: seq<V>, b: seq<V>)
    decreases |a|
  {
    if b == [] then false
    else if a == [] then true
    else o.lt(a[0], b[0]) || (o.eq(a[0], b[0]) && RowLess(o, a[1..], b[1..]))
  }

  // ---------------------------------------------------------------- the comparison loops

  lemma Behind<V>(o: Values<V>, a: seq<V>, b: seq<V>, i: nat)
    requires i < |a| && i < |b|
    ensures RowLess(o, a[i..], b[i..]) <==> o.lt(a[i], b[i]) || (o.eq(a[i], b[i]) && RowLess(o, a[i + 1..], b[i + 1..]))
    ensures RowEq(o, a[i..], b[i..]) <==> o.eq(a[i], b[i]) && RowEq(o, a[i + 1..], b[i + 1..])
  {
    assert a[i..][1..] == a[i + 1..] && b[i..][1..] == b[i + 1..];
  }

  lemma AtEnd<V>(o: Values<V>, a: seq<V>, b: seq<V>, i: nat)
    requires i <= |a| && i <= |b| && (i == |a| || i == |b|)
    ensures RowLess(o, a[i..], b[i..]) <==> |a| < |b|
    ensures RowEq(o, a[i..], b[i..]) <==> |a| == |b|
  {
  }

  method Equal<V(==, !new)>(o: Values<V>, a: View<V>, b: View<V>) returns (r: bool)
    requires Backed(a) && Backed(b)
    ensures r <==> RowEq(o, Row(a, o.nil), Row(b, o.nil))
  {
    hide RowEq, RowLess, At;
    ghost var x, y := Row(a, o.nil), Row(b, o.nil);
    assert x[0..] == x && y[0..] == y;
    if Size(a) != Size(b) {
      DifferentWidths(o, x, y);
      return false;
    }
    var sz := Size(a);
    var i := 0;
    while i < sz
      invariant 0 <= i <= sz && (RowEq(o, x, y) <==> RowEq(o, x[i..], y[i..]))
    {
      Behind(o, x, y, i);
      if !o.eq(At(a, i, o.nil), At(b, i, o.nil)) { return false; }
      i := i + 1;
    }
    AtEnd(o, x, y, i);
    return true;
  }

  lemma {:induction false} DifferentWidths<V>(o: Values<V>, a: seq<V>, b: seq<V>)
    requires |a| != |b|
    ensures !RowEq(o, a, b)
    decreases |a|
  {
    if a != [] && b != [] { DifferentWidths(o, a[1..], b[1..]); }
  }

  /** operator< */
  method Less<V(!new)>(o: Values<V>, a: View<V>, b: View<V>) returns (r: bool)
    requires Lawful(o) && Backed(a) && Backed(b)
    ensures r <==> RowLess(o, Row(a, o.nil), Row(b, o.nil))
  {
    hide RowEq, RowLess, At;
    ghost var x, y := Row(a, o.nil), Row(b, o.nil);
    assert x[0..] == x && y[0..] == y;
    var sz1, sz2 := Size(a), Size(b);
    var minSz := if sz1 < sz2 then sz1 else sz2;
    var i := 0;
    while i < minSz
      invariant 0 <= i <= minSz && (RowLess(o, x, y) <==> RowLess(o, x[i..], y[i..]))
    {
      Behind(o, x, y, i);
      if o.lt(At(a, i, o.nil), At(b, i, o.nil)) { return true; }
      if o.lt(At(b, i, o.nil), At(a, i, o.nil)) { return false; }
      i := i + 1;
    }
    AtEnd(o, x, y, i);
    return sz1 < sz2;
  }

  /** operator>, a loop of its own: it is `<` with the rows exchanged. */
  method Greater<V(!new)>(o: Values<V>, a: View<V>, b: View<V>) returns (r: bool)
    requires Lawful(o) && Backed(a) && Backed(b)
    ensures r <==> RowLess(o, Row(b, o.nil), Row(a, o.nil))
  {
    hide RowEq, RowLess, At;
    ghost var x, y := Row(a, o.nil), Row(b, o.nil);
    assert x[0..] == x && y[0..] == y;
    var sz1, sz2 := Size(a), Size(b);
    var minSz := if sz1 < sz2 then sz1 else sz2;
    var i := 0;
    while i < minSz
      invariant 0 <= i <= minSz && (RowLess(o, y, x) <==> RowLess(o, y[i..], x[i..]))
    {
      Behind(o, y, x, i);
      if o.lt(At(b, i, o.nil), At(a, i, o.nil)) { return true; }
      if o.lt(At(a, i, o.nil), At(b, i, o.nil)) { return false; }
      i := i + 1;
    }
    AtEnd(o, y, x, i);
    return sz1 > sz2;
  }

  method NotEqual<V(==, !new)>(o: Values<V>, a: View<V>, b: View<V>) returns (r: bool)
    requires Backed(a) && Backed(b)
    ensures r <==> !RowEq(o, Row(a, o.nil), Row(b, o.nil))
  {
    var eq := Equal(o, a, b);
    return !eq;
  }

  /** operator<= is the negation of >, and means "less or equal". */
  method LessEqual<V(!new)>(o: Values<V>, a: View<V>, b: View<V>) returns (r: bool)
    requires Lawful(o) && Backed(a) && Backed(b)
    ensures r <==> RowLess(o, Row(a, o.nil), Row(b, o.nil)) || RowEq(o, Row(a, o.nil), Row(b, o.nil))
  {
    Trichotomy(o, Row(a, o.nil), Row(b, o.nil));
    var greater := Greater(o, a, b);
    return !greater;
  }

  method GreaterEqual<V(!new)>(o: Values<V>, a: View<V>, b: View<V>) returns (r: bool)
    requires Lawful(o) && Backed(a) && Backed(b)
    ensures r <==> RowLess(o, Row(b, o.nil), Row(a, o.nil)) || RowEq(o, Row(a, o.nil), Row(b, o.nil))
  {
    Trichotomy(o, Row(a, o.nil), Row(b, o.nil));
    var less := Less(o, a, b);
    return !less;
  }

  // ---------------------------------------------------------------- one strict total order

  /** Exactly one of a < b, a == b, b < a. */
  lemma {:induction false} Trichotomy<V(!new)>(o: Values<V>, a: seq<V>, b: seq<V>)
    requires Lawful(o)
    ensures RowLess(o, a, b) ==> !RowEq(o, a, b) && !RowLess(o, b, a)
    ensures RowEq(o, a, b) ==> !RowLess(o, b, a)
    ensures RowLess(o, a, b) || RowEq(o, a, b) || RowLess(o, b, a)
    decreases |a|
  {
    if a != [] && b != [] {
      Trichotomy(o, a[1..], b[1..]);
    }
  }

  /** The first `k` columns are equal, and then the left row ends, or its next column is less. */
  predicate LessFrom<V>(o: Values<V>, a: seq<V>, b: seq<V>, k: nat) {
    && k <= |a| && k < |b| && (forall j | 0 <= j < k :: o.eq(a[j], b[j]))
    && (k == |a| || o.lt(a[k], b[k]))
  }

  lemma LessFromFront<V(!new)>(o: Values<V>, a: seq<V>, b: seq<V>, k: nat)
    requires a != [] && b != []
    ensures LessFrom(o, a, b, k + 1) <==> o.eq(a[0], b[0]) && LessFrom(o, a[1..], b[1..], k)
  {
    if LessFrom(o, a, b, k + 1) {
      forall j | 0 <= j < k
        ensures o.eq(a[1..][j], b[1..][j])
      {
        assert o.eq(a[j + 1], b[j + 1]);
      }
    }
    if o.eq(a[0], b[0]) && LessFrom(o, a[1..], b[1..], k) {
      forall j | 0 <= j < k + 1
        ensures o.eq(a[j], b[j])
      {
        assert j > 0 ==> o.eq(a[1..][j - 1], b[1..][j - 1]);
      }
    }
  }

  /** The order is the lexicographic one: some column decides, all columns before it being equal. */
  lemma {:induction false} LessIsLexicographic<V(!new)>(o: Values<V>, a: seq<V>, b: seq<V>)
    ensures RowLess(o, a, b) <==> exists k: nat :: LessFrom(o, a, b, k)
    decreases |a|
  {
    hide LessFrom;
    FirstDecides(o, a, b);
    if a != [] && b != [] {
      LessIsLexicographic(o, a[1..], b[1..]);
      if k: nat :| LessFrom(o, a[1..], b[1..], k) { LessFromFront(o, a, b, k); }
      if k: nat :| LessFrom(o, a, b, k) {
        if k > 0 { LessFromFront(o, a, b, k - 1); }
      }
    }
  }

  lemma FirstDecides<V(!new)>(o: Values<V>, a: seq<V>, b: seq<V>)
    ensures LessFrom(o, a, b, 0) <==> b != [] && (a == [] || o.lt(a[0], b[0]))
    ensures a == [] || b == [] ==> forall k: nat :: LessFrom(o, a, b, k) ==> k == 0
  {
  }

  lemma EqLaws<V(!new)>(o: Values<V>, a: V, b: V, c: V)
    requires Lawful(o)
    ensures o.eq(a, a) && (o.eq(a, b) ==> o.eq(b, a))
    ensures o.eq(a, b) && o.eq(b, c) ==> o.eq(a, c)
    ensures o.lt(a, b) && o.lt(b, c) ==> o.lt(a, c)
    ensures o.lt(a, b) && o.eq(b, c) ==> o.lt(a, c)
    ensures o.eq(a, b) && o.lt(b, c) ==> o.lt(a, c)
  {
  }

  lemma {:induction false} LessTransitive<V(!new)>(o: Values<V>, a: seq<V>, b: seq<V>, c: seq<V>)
    requires Lawful(o) && RowLess(o, a, b) && RowLess(o, b, c)
    ensures RowLess(o, a, c)
    decreases |a|
  {
    if a != [] {
      hide Lawful;
      EqLaws(o, a[0], b[0], c[0]);
      if o.eq(a[0], b[0]) && o.eq(b[0], c[0]) && RowLess(o, a[1..], b[1..]) && RowLess(o, b[1..], c[1..]) {
        LessTransitive(o, a[1..], b[1..], c[1..]);
      }
    }
  }

  /** Equal rows can replace each other on either side of `<`, and equality is an equivalence. */
  lemma {:induction false} EqualIsCongruence<V(!new)>(o: Values<V>, a: seq<V>, b: seq<V>, c: seq<V>)
    requires Lawful(o) && RowEq(o, a, b)
    ensures RowEq(o, b, a) && RowEq(o, a, a)
    ensures RowEq(o, b, c) ==> RowEq(o, a, c)
    ensures RowLess(o, a, c) <==> RowLess(o, b, c)
    ensures RowLess(o, c, a) <==> RowLess(o, c, b)
    decreases |a|
  {
    if a != [] {
      if c != [] {
        ValueCongruence(o, a[0], b[0], c[0]);
        hide Lawful;
        EqualIsCongruence(o, a[1..], b[1..], c[1..]);
      } else {
        ValueCongruence(o, a[0], b[0], a[0]);
        hide Lawful;
        EqualIsCongruence(o, a[1..], b[1..], []);
      }
    }
  }

  lemma ValueCongruence<V(!new)>(o: Values<V>, a: V, b: V, c: V)
    requires Lawful(o) && o.eq(a, b)
    ensures o.eq(b, a) && o.eq(a, a)
    ensures (o.eq(b, c) <==> o.eq(a, c)) && (o.eq(c, a) <==> o.eq(c, b))
    ensures (o.lt(a, c) <==> o.lt(b, c)) && (o.lt(c, a) <==> o.lt(c, b))
  {
  }

  // ---------------------------------------------------------------- scalars

  /** row == val, row < val, row > val */
  predicate EqScalar<V>(o: Values<V>, v: View<V>, val: V)
    requires Backed(v)
  {
    if Size(v) == 1 then o.eq(At(v, 0, o.nil), val) else false
  }

  predicate LtScalar<V>(o: Values<V>, v: View<V>, val: V)
    requires Backed(v)
  {
    if Size(v) == 0 then true
    else if o.lt(At(v, 0, o.nil), val) then true
    else if o.lt(val, At(v, 0, o.nil)) then false
    else Size(v) < 1
  }

  predicate GtScalar<V>(o: Values<V>, v: View<V>, val: V)
    requires Backed(v)
  {
    if Size(v) == 0 then false
    else if o.lt(val, At(v, 0, o.nil)) then true
    else if o.lt(At(v, 0, o.nil), val) then false
    else Size(v) > 1
  }

  /** The six operators with the row on the left, and on the right (the reverse operators). */
  datatype Op = Eq | Ne | Lt | Le | Gt | Ge

  function Mirror(op: Op): Op {
    match op
    case Eq => Eq
    case Ne => Ne
    case Lt => Gt
    case Le => Ge
    case Gt => Lt
    case Ge => Le
  }

  predicate RowOpScalar<V>(o: Values<V>, op: Op, v: View<V>, val: V)
    requires Backed(v)
  {
    match op
    case Eq => EqScalar(o, v, val)
    case Ne => !EqScalar(o, v, val)
    case Lt => LtScalar(o, v, val)
    case Le => !GtScalar(o, v, val)
    case Gt => GtScalar(o, v, val)
    case Ge => !LtScalar(o, v, val)
  }

  predicate ScalarOpRow<V>(o: Values<V>, op: Op, val: V, v: View<V>)
    requires Backed(v)
  {
    RowOpScalar(o, Mirror(op), v, val)
  }

  /** What an operator means between two rows. */
  predicate Holds<V>(o: Values<V>, op: Op, a: seq<V>, b: seq<V>) {
    match op
    case Eq => RowEq(o, a, b)
    case Ne => !RowEq(o, a, b)
    case Lt => RowLess(o, a, b)
    case Le => RowLess(o, a, b) || RowEq(o, a, b)
    case Gt => RowLess(o, b, a)
    case Ge => RowLess(o, b, a) || RowEq(o, a, b)
  }

  /** Every scalar operator, in both directions, compares with the one-column row of that scalar. */
  lemma ScalarIsOneColumn<V(!new)>(o: Values<V>, op: Op, v: View<V>, val: V)
    requires Lawful(o) && Backed(v)
    ensures RowOpScalar(o, op, v, val) <==> Holds(o, op, Row(v, o.nil), [val])
    ensures ScalarOpRow(o, op, val, v) <==> Holds(o, op, [val], Row(v, o.nil))
  {
    var x := Row(v, o.nil);
    Trichotomy(o, x, [val]);
    OneColumn(o, x, val);
    hide Row, RowEq, RowLess, Lawful, Backed;
  }

  lemma OneColumn<V(!new)>(o: Values<V>, x: seq<V>, val: V)
    requires Lawful(o)
    ensures RowEq(o, x, [val]) <==> |x| == 1 && o.eq(x[0], val)
    ensures RowEq(o, [val], x) <==> |x| == 1 && o.eq(x[0], val)
    ensures RowLess(o, x, [val]) <==> x == [] || o.lt(x[0], val)
    ensures RowLess(o, [val], x) <==> x != [] && (o.lt(val, x[0]) || (!o.lt(x[0], val) && |x| > 1))
  {
    assert [val][1..] == [];
  }

  // ---------------------------------------------------------------- hashing

  function FoldHash<V>(o: Values<V>, row: seq<V>): U64 {
    if row == [] then DEFAULT_SEED else Combine(FoldHash(o, row[..|row| - 1]), o.hash(row[|row| - 1]))
  }

  /** The hash of a row: a one-column row hashes as its value. */
  function RowHash<V>(o: Values<V>, row: seq<V>): U64 {
    if |row| == 1 then o.hash(row[0]) else FoldHash(o, row)
  }

  method Hash<V(!new)>(o: Values<V>, v: View<V>) returns (h: U64)
    requires Backed(v)
    ensures h == RowHash(o, Row(v, o.nil))
  {
    hide Combine, At;
    ghost var row := Row(v, o.nil);
    var sz := Size(v);
    if sz == 0 { return DEFAULT_SEED; }
    if sz == 1 { return o.hash(At(v, 0, o.nil)); }
    h := DEFAULT_SEED;
    var i := 0;
    while i < sz
      invariant 0 <= i <= sz && h == FoldHash(o, row[..i])
    {
      assert row[..i + 1][..i] == row[..i];
      h := Combine(h, o.hash(At(v, i, o.nil)));
      i := i + 1;
    }
    assert row[..sz] == row;
  }

  /** The narrow rows: no column gives the seed 0, one column its own hash, and from two columns on the hashes are
      combined from the left, starting with the seed. */
  lemma NarrowHashes<V(!new)>(o: Values<V>, a: V, b: V, c: V)
    ensures RowHash(o, []) == 0 && RowHash(o, [a]) == o.hash(a)
    ensures RowHash(o, [a, b]) == Combine(Combine(0, o.hash(a)), o.hash(b))
    ensures RowHash(o, [a, b, c]) == Combine(RowHash(o, [a, b]), o.hash(c))
  {
    hide Combine;
    assert [a, b, c][..2] == [a, b] && [a, b][..1] == [a] && [a][..0] == [];
    assert FoldHash(o, [a]) == Combine(0, o.hash(a));
    assert FoldHash(o, [a, b]) == Combine(FoldHash(o, [a]), o.hash(b));
  }

  /** Every further column is combined with the hash of the columns before it. */
  lemma HashAppends<V(!new)>(o: Values<V>, row: seq<V>, last: V)
    requires |row| >= 2
    ensures RowHash(o, row + [last]) == Combine(RowHash(o, row), o.hash(last))
  {
    hide Combine;
    assert (row + [last])[..|row|] == row;
  }

  lemma {:induction false} EqualPointwise<V>(o: Values<V>, a: seq<V>, b: seq<V>)
    ensures RowEq(o, a, b) <==> |a| == |b| && forall i | 0 <= i < |a| :: o.eq(a[i], b[i])
    decreases |a|
  {
    if a != [] && b != [] {
      EqualPointwise(o, a[1..], b[1..]);
      assert |a| == |b| ==> forall i | 0 < i < |a| :: a[i] == a[1..][i - 1] && b[i] == b[1..][i - 1];
    }
  }

  lemma {:induction false} EqualFoldsAlike<V(!new)>(o: Values<V>, a: seq<V>, b: seq<V>)
    requires Lawful(o) && |a| == |b| && forall i | 0 <= i < |a| :: o.eq(a[i], b[i])
    ensures FoldHash(o, a) == FoldHash(o, b)
    decreases |a|
  {
    hide Combine;
    if a != [] {
      EqualFoldsAlike(o, a[..|a| - 1], b[..|b| - 1]);
    }
  }

  /** Rows that compare equal hash alike, even if their values are represented differently. */
  lemma EqualRowsHashAlike<V(!new)>(o: Values<V>, a: seq<V>, b: seq<V>)
    requires Lawful(o) && RowEq(o, a, b)
    ensures RowHash(o, a) == RowHash(o, b)
  {
    hide Combine;
    EqualPointwise(o, a, b);
    EqualFoldsAlike(o, a, b);
  }

  /** Views over whatever stores whose columns are equal one by one, perhaps represented differently, compare
      equal and hash alike. */
  lemma SameColumnsSameHash<V(!new)>(o: Values<V>, a: View<V>, b: View<V>)
    requires Lawful(o) && Backed(a) && Backed(b) && Size(a) == Size(b)
    requires forall i | 0 <= i < Size(a) :: o.eq(At(a, i, o.nil), At(b, i, o.nil))
    ensures RowEq(o, Row(a, o.nil), Row(b, o.nil))
    ensures RowHash(o, Row(a, o.nil)) == RowHash(o, Row(b, o.nil))
  {
    hide At, RowHash, Lawful;
    EqualPointwise(o, Row(a, o.nil), Row(b, o.nil));
    EqualRowsHashAlike(o, Row(a, o.nil), Row(b, o.nil));
  }

  /** Two rows of equal width that agree in all but the last column collide iff the hashes of their last
      columns are equal. */
  lemma LastColumnDecides<V(!new)>(o: Values<V>, a: seq<V>, b: seq<V>)
    requires Lawful(o) && |a| == |b| > 0 && RowEq(o, a[..|a| - 1], b[..|b| - 1])
    ensures RowHash(o, a) == RowHash(o, b) <==> o.hash(a[|a| - 1]) == o.hash(b[|b| - 1])
  {
    hide Combine;
    var n := |a| - 1;
    if n > 0 {
      EqualPointwise(o, a[..n], b[..n]);
      EqualFoldsAlike(o, a[..n], b[..n]);
      CombineInjective(FoldHash(o, a[..n]), o.hash(a[n]), o.hash(b[n]));
    }
  }
}

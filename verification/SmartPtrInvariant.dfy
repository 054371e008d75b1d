/** What every interleaving of the shared and weak pointer operations keeps: the two counters are exact,
    the deleter and the final free run at most once, and nothing is touched after it was freed. */
module SmartPtrInvariant {
  import opened Wrappers
  import opened SmartPtrProtocol

  // ---------------------------------------------------------------- counting handles and threads

  ghost function SharedOf(s: State, c: Block): set<Hid> { set h | h in s.shared && s.shared[h] == c }

  ghost function WeakOf(s: State, c: Block): set<Hid> { set h | h in s.weak && s.weak[h] == c }

  ghost function ThreadsAt(s: State, pc: Pc): set<Tid> { set t | 0 <= t < |s.pcs| && s.pcs[t] == pc }

  /** What is counted for each control block. */
  datatype Kind = SharedHandle | WeakHandle | DeletingThread | ClearingThread | DroppingThread | FreeingThread

  ghost function Count(s: State, c: Block, k: Kind): nat {
    match k
    case SharedHandle => |SharedOf(s, c)|
    case WeakHandle => |WeakOf(s, c)|
    case DeletingThread => |ThreadsAt(s, Deleting(c))|
    case ClearingThread => |ThreadsAt(s, Clearing(c))|
    case DroppingThread => |ThreadsAt(s, Dropping(c))|
    case FreeingThread => |ThreadsAt(s, Freeing(c))|
  }

  /** Threads that tear the object down, between the strong count reaching 0 and the shared share of the
      weak count being dropped. */
  ghost function Ending(s: State, c: Block): nat {
    Count(s, c, DeletingThread) + Count(s, c, ClearingThread) + Count(s, c, DroppingThread)
  }

  /** Both counters are exact: the strong handles together hold one weak reference until it is dropped. */
  ghost predicate CountersExact(s: State, c: Block)
    requires c < |s.cells|
  {
    && s.cells[c].strong == Count(s, c, SharedHandle)
    && s.cells[c].weak == Count(s, c, WeakHandle) + (if s.cells[c].strong > 0 then 1 else Ending(s, c))
    && Ending(s, c) <= (if s.cells[c].strong > 0 then 0 else 1)
  }

  /** The block is freed, or about to be, exactly when the weak count is 0. */
  ghost predicate FreedWithWeak(s: State, c: Block)
    requires c < |s.cells|
  {
    Count(s, c, FreeingThread) + s.cells[c].frees == (if s.cells[c].weak == 0 then 1 else 0)
  }

  /** The object is still there: it has a shared handle, or its deleter has not been called yet. */
  ghost predicate BeforeDeletion(s: State, c: Block)
    requires c < |s.cells|
  {
    s.cells[c].strong > 0 || Count(s, c, DeletingThread) > 0
  }

  ghost predicate PointsToObject(s: State, c: Block)
    requires c < |s.cells|
  {
    s.cells[c].ptr
    == (if BeforeDeletion(s, c) || Count(s, c, ClearingThread) > 0 then To(s.cells[c].obj) else Null)
  }

  ghost predicate DeletedWithStrong(s: State, c: Block)
    requires c < |s.cells|
  {
    Deletions(s, s.cells[c].obj) == (if s.cells[c].hasDeleter && !BeforeDeletion(s, c) then 1 else 0)
  }

  ghost predicate CellInv(s: State, c: Block)
    requires c < |s.cells|
  {
    CountersExact(s, c) && FreedWithWeak(s, c) && PointsToObject(s, c) && DeletedWithStrong(s, c)
  }

  ghost predicate CellsInv(s: State) {
    forall c | 0 <= c < |s.cells| :: CellInv(s, c)
  }

  /** Every control block was made for an object of its own. */
  ghost predicate ObjectsApart(s: State) {
    && (forall c | 0 <= c < |s.cells| :: s.cells[c].obj in s.deletions)
    && (forall c, d | 0 <= c < d < |s.cells| :: s.cells[c].obj != s.cells[d].obj)
  }

  /** A thread inside lock() works on a live weak handle, and has read 0 only from an expired object. */
  ghost predicate LockersInv(s: State) {
    forall t | 0 <= t < |s.pcs| && s.pcs[t].Locking? ::
      && s.pcs[t].w in s.weak && s.weak[s.pcs[t].w] == s.pcs[t].c
      && s.pcs[t].c < |s.cells|
      && (s.pcs[t].current <= 0 ==> s.cells[s.pcs[t].c].strong == 0)
  }

  ghost predicate DeletedAtMostOnce(s: State) {
    forall o | o in s.deletions :: s.deletions[o] <= 1
  }

  ghost predicate Inv(s: State) {
    InRange(s) && CellsInv(s) && ObjectsApart(s) && LockersInv(s) && DeletedAtMostOnce(s)
  }

  // ---------------------------------------------------------------- how the counts move

  function One(b: bool): nat { if b then 1 else 0 }

  lemma PutSharedCount(s: State, h: Hid, c: Block, d: Block)
    requires h !in s.shared
    ensures forall k :: Count(PutShared(s, h, c), d, k) == Count(s, d, k) + One(d == c && k == SharedHandle)
  {
    var s' := PutShared(s, h, c);
    assert SharedOf(s', d) == if d == c then SharedOf(s, d) + {h} else SharedOf(s, d);
    assert WeakOf(s', d) == WeakOf(s, d);
    SamePcs(s, s');
  }

  lemma TakeSharedCount(s: State, h: Hid, d: Block)
    requires h in s.shared
    ensures s.shared[h] == d ==> Count(s, d, SharedHandle) > 0
    ensures forall k :: Count(TakeShared(s, h), d, k) == Count(s, d, k) - One(d == s.shared[h] && k == SharedHandle)
  {
    hide ThreadsAt, SharedOf, WeakOf;
    TakeSharedSets(s, h, d);
    SamePcs(s, TakeShared(s, h));
    assert s.shared[h] != d ==> SharedOf(s, d) - {h} == SharedOf(s, d);
  }

  lemma TakeSharedSets(s: State, h: Hid, d: Block)
    requires h in s.shared
    ensures SharedOf(TakeShared(s, h), d) == SharedOf(s, d) - {h} && WeakOf(TakeShared(s, h), d) == WeakOf(s, d)
    ensures h in SharedOf(s, d) <==> s.shared[h] == d
  {
  }

  lemma PutWeakCount(s: State, h: Hid, c: Block, d: Block)
    requires h !in s.weak
    ensures forall k :: Count(PutWeak(s, h, c), d, k) == Count(s, d, k) + One(d == c && k == WeakHandle)
  {
    var s' := PutWeak(s, h, c);
    assert WeakOf(s', d) == if d == c then WeakOf(s, d) + {h} else WeakOf(s, d);
    assert SharedOf(s', d) == SharedOf(s, d);
    SamePcs(s, s');
  }

  lemma TakeWeakCount(s: State, h: Hid, d: Block)
    requires h in s.weak
    ensures s.weak[h] == d ==> Count(s, d, WeakHandle) > 0
    ensures forall k :: Count(TakeWeak(s, h), d, k) == Count(s, d, k) - One(d == s.weak[h] && k == WeakHandle)
  {
    hide ThreadsAt, SharedOf, WeakOf;
    TakeWeakSets(s, h, d);
    SamePcs(s, TakeWeak(s, h));
    assert s.weak[h] != d ==> WeakOf(s, d) - {h} == WeakOf(s, d);
  }

  lemma TakeWeakSets(s: State, h: Hid, d: Block)
    requires h in s.weak
    ensures WeakOf(TakeWeak(s, h), d) == WeakOf(s, d) - {h} && SharedOf(TakeWeak(s, h), d) == SharedOf(s, d)
    ensures h in WeakOf(s, d) <==> s.weak[h] == d
  {
  }

  lemma SamePcs(s: State, s': State)
    requires s'.pcs == s.pcs
    ensures forall pc :: ThreadsAt(s', pc) == ThreadsAt(s, pc)
  {
  }

  /** The counts depend on the handles and the threads only. */
  lemma SameHandles(s: State, s': State, d: Block)
    requires s'.shared == s.shared && s'.weak == s.weak && s'.pcs == s.pcs
    ensures forall k :: Count(s', d, k) == Count(s, d, k)
  {
    SamePcs(s, s');
    assert SharedOf(s', d) == SharedOf(s, d) && WeakOf(s', d) == WeakOf(s, d);
  }

  lemma SetPcSets(s: State, t: Tid, pc: Pc, q: Pc)
    requires t < |s.pcs|
    ensures t in ThreadsAt(s, q) <==> s.pcs[t] == q
    ensures ThreadsAt(SetPc(s, t, pc), q)
         == if pc == q then (ThreadsAt(s, q) - {t}) + {t} else ThreadsAt(s, q) - {t}
  {
    var s' := SetPc(s, t, pc);
    forall u
      ensures u in ThreadsAt(s', q) <==> (u in ThreadsAt(s, q) && u != t) || (u == t && pc == q)
    {
    }
  }

  lemma SetPcThreads(s: State, t: Tid, pc: Pc, q: Pc)
    requires t < |s.pcs|
    ensures s.pcs[t] == q ==> |ThreadsAt(s, q)| > 0
    ensures |ThreadsAt(SetPc(s, t, pc), q)|
         == |ThreadsAt(s, q)| - (if s.pcs[t] == q then 1 else 0) + (if pc == q then 1 else 0)
  {
    hide ThreadsAt;
    var before, after := ThreadsAt(s, q), ThreadsAt(SetPc(s, t, pc), q);
    SetPcSets(s, t, pc, q);
    if s.pcs[t] == q {
      assert |before - {t}| == |before| - 1;
    } else {
      assert before - {t} == before;
    }
    if pc == q {
      assert |(before - {t}) + {t}| == |before - {t}| + 1;
    }
  }

  /** The count in which a thread at `pc` appears for block `d`. */
  function CountedAs(pc: Pc, d: Block): Option<Kind> {
    if pc == Deleting(d) then Some(DeletingThread)
    else if pc == Clearing(d) then Some(ClearingThread)
    else if pc == Dropping(d) then Some(DroppingThread)
    else if pc == Freeing(d) then Some(FreeingThread)
    else None
  }

  lemma SetPcCount(s: State, t: Tid, pc: Pc, d: Block)
    requires t < |s.pcs|
    ensures forall k :: Count(SetPc(s, t, pc), d, k)
                     == Count(s, d, k) - One(CountedAs(s.pcs[t], d) == Some(k)) + One(CountedAs(pc, d) == Some(k))
  {
    hide ThreadsAt;
    var s' := SetPc(s, t, pc);
    assert SharedOf(s', d) == SharedOf(s, d) && WeakOf(s', d) == WeakOf(s, d);
    SetPcThreads(s, t, pc, Deleting(d));
    SetPcThreads(s, t, pc, Clearing(d));
    SetPcThreads(s, t, pc, Dropping(d));
    SetPcThreads(s, t, pc, Freeing(d));
  }

  /** A thread at a program counter is counted there. */
  lemma AtIsCounted(s: State, t: Tid)
    requires t < |s.pcs|
    ensures forall d :: s.pcs[t] == Deleting(d) ==> Count(s, d, DeletingThread) > 0
    ensures forall d :: s.pcs[t] == Clearing(d) ==> Count(s, d, ClearingThread) > 0
    ensures forall d :: s.pcs[t] == Dropping(d) ==> Count(s, d, DroppingThread) > 0
    ensures forall d :: s.pcs[t] == Freeing(d) ==> Count(s, d, FreeingThread) > 0
  {
    hide SharedOf, WeakOf;
    SetPcThreads(s, t, Idle, s.pcs[t]);
  }

  lemma SubsetSize<T>(a: set<T>, b: set<T>)
    requires a <= b
    ensures |a| <= |b|
  {
    assert b == a + (b - a);
  }

  /** No counter ever exceeds the number of handles by more than one. */
  lemma CountBound(s: State, c: Block)
    ensures Count(s, c, SharedHandle) <= |s.shared| && Count(s, c, WeakHandle) <= |s.weak|
  {
    SubsetSize(SharedOf(s, c), s.shared.Keys);
    SubsetSize(WeakOf(s, c), s.weak.Keys);
  }

  lemma CellAt(s: State, c: Block)
    requires CellsInv(s) && c < |s.cells|
    ensures CellInv(s, c)
  {
  }

  // ---------------------------------------------------------------- one step keeps the counters exact

  lemma CopySharedKeeps(s: State, t: Tid, src: Hid, dst: Hid)
    requires Inv(s) && Enabled(s, CopyShared(t, src, dst))
    ensures CellsInv(Next(s, CopyShared(t, src, dst)))
  {
    hide Count, ObjectsApart, LockersInv;
    var s' := Next(s, CopyShared(t, src, dst));
    var c := s.shared[src];
    var s1 := SetCell(s, c, s'.cells[c]);
    CellAt(s, c);
    CountBound(s, c);
    TakeSharedCount(s, src, c);
    forall d | 0 <= d < |s'.cells|
      ensures CellInv(s', d)
    {
      CellAt(s, d);
      SameHandles(s, SetCell(s, c, s'.cells[c]), d);
      PutSharedCount(s1, dst, c, d);
    }
  }

  lemma MoveSharedKeeps(s: State, t: Tid, src: Hid, dst: Hid)
    requires Inv(s) && Enabled(s, MoveShared(t, src, dst))
    ensures CellsInv(Next(s, MoveShared(t, src, dst)))
  {
    hide Count, ObjectsApart, LockersInv;
    var s' := Next(s, MoveShared(t, src, dst));
    forall d | 0 <= d < |s'.cells|
      ensures CellInv(s', d)
    {
      CellAt(s, d);
      TakeSharedCount(s, src, d);
      PutSharedCount(TakeShared(s, src), dst, s.shared[src], d);
    }
  }

  function AfterSharedRelease(s: State, t: Tid, h: Hid, c: Block, strong: int): State
    requires c < |s.cells| && t < |s.pcs|
  {
    var s1 := TakeShared(SetCell(s, c, s.cells[c].(strong := strong)), h);
    if strong == 0 then SetPc(s1, t, Deleting(c)) else s1
  }

  lemma ReleaseSharedCell(s: State, t: Tid, h: Hid, c: Block, d: Block)
    requires c < |s.cells| && t < |s.pcs| && s.pcs[t] == Idle && h in s.shared && s.shared[h] == c
    requires d < |s.cells| && CellInv(s, d)
    ensures CellInv(AfterSharedRelease(s, t, h, c, s.cells[c].strong - 1), d)
  {
    hide Count;
    var s1 := SetCell(s, c, s.cells[c].(strong := s.cells[c].strong - 1));
    SameHandles(s, s1, d);
    TakeSharedCount(s1, h, d);
    SetPcCount(TakeShared(s1, h), t, Deleting(c), d);
  }

  lemma ReleaseSharedKeeps(s: State, t: Tid, h: Hid)
    requires Inv(s) && Enabled(s, ReleaseShared(t, h))
    ensures CellsInv(Next(s, ReleaseShared(t, h)))
  {
    hide Count, ObjectsApart, LockersInv, DeletedAtMostOnce;
    var s' := Next(s, ReleaseShared(t, h));
    var c := s.shared[h];
    CellAt(s, c);
    TakeSharedCount(s, h, c);
    assert s' == AfterSharedRelease(s, t, h, c, s.cells[c].strong - 1);
    hide Next, Enabled, InRange, CellInv;
    forall d | 0 <= d < |s'.cells|
      ensures CellInv(s', d)
    {
      CellAt(s, d);
      ReleaseSharedCell(s, t, h, c, d);
    }
  }

  lemma TearDownKeeps(s: State, step: Step)
    requires Inv(s) && Enabled(s, step) && (step.ClearPtr? || step.DropShare? || step.FreeBlock?)
    ensures CellsInv(Next(s, step))
  {
    hide Count, ObjectsApart, LockersInv, DeletedAtMostOnce, Pinned, RoomForHandle;
    var s' := Next(s, step);
    var t := step.t;
    var c := s.pcs[t].c;
    CellAt(s, c);
    AtIsCounted(s, t);
    forall d | 0 <= d < |s'.cells|
      ensures CellInv(s', d)
    {
      CellAt(s, d);
      SameHandles(s, SetCell(s, c, s'.cells[c]), d);
      SetPcCount(SetCell(s, c, s'.cells[c]), t, s'.pcs[t], d);
    }
  }

  lemma RunDeleterKeeps(s: State, t: Tid)
    requires Inv(s) && Enabled(s, RunDeleter(t))
    ensures CellsInv(Next(s, RunDeleter(t)))
  {
    hide Count, LockersInv;
    var s' := Next(s, RunDeleter(t));
    var c := s.pcs[t].c;
    var s1 := s.(deletions := s'.deletions);
    CellAt(s, c);
    AtIsCounted(s, t);
    forall d | 0 <= d < |s'.cells|
      ensures CellInv(s', d)
    {
      CellAt(s, d);
      SameHandles(s, s1, d);
      SetPcCount(s1, t, Clearing(c), d);
      assert d != c ==> s.cells[d].obj != s.cells[c].obj;
    }
  }

  lemma AddWeakKeeps(s: State, step: Step)
    requires Inv(s) && Enabled(s, step) && (step.WeakFromShared? || step.CopyWeak?)
    ensures CellsInv(Next(s, step))
  {
    hide Count, ObjectsApart, LockersInv, DeletedAtMostOnce, CellsInv;
    var c := if step.WeakFromShared? then s.shared[step.src] else s.weak[step.src];
    if step.WeakFromShared? { TakeSharedCount(s, step.src, c); } else { TakeWeakCount(s, step.src, c); }
    CellAt(s, c);
    OneMoreWeak(s, c, step.dst);
  }

  lemma OneMoreWeak(s: State, c: Block, dst: Hid)
    requires CellsInv(s) && c < |s.cells| && s.cells[c].weak > 0 && FreshWeak(s, dst)
    ensures CellsInv(PutWeak(SetCell(s, c, s.cells[c].(weak := Inc32(s.cells[c].weak))), dst, c))
  {
    hide Count;
    var s1 := SetCell(s, c, s.cells[c].(weak := Inc32(s.cells[c].weak)));
    CellAt(s, c);
    CountBound(s, c);
    forall d | 0 <= d < |s1.cells|
      ensures CellInv(PutWeak(s1, dst, c), d)
    {
      CellAt(s, d);
      SameHandles(s, s1, d);
      PutWeakCount(s1, dst, c, d);
    }
  }

  lemma MoveWeakKeeps(s: State, t: Tid, src: Hid, dst: Hid)
    requires Inv(s) && Enabled(s, MoveWeak(t, src, dst))
    ensures CellsInv(Next(s, MoveWeak(t, src, dst)))
  {
    hide Count, ObjectsApart, LockersInv;
    var s' := Next(s, MoveWeak(t, src, dst));
    forall d | 0 <= d < |s'.cells|
      ensures CellInv(s', d)
    {
      CellAt(s, d);
      TakeWeakCount(s, src, d);
      PutWeakCount(TakeWeak(s, src), dst, s.weak[src], d);
    }
  }

  function AfterWeakRelease(s: State, t: Tid, h: Hid, c: Block, weak: int): State
    requires c < |s.cells| && t < |s.pcs|
  {
    var s1 := TakeWeak(SetCell(s, c, s.cells[c].(weak := weak)), h);
    if weak == 0 then SetPc(s1, t, Freeing(c)) else s1
  }

  lemma ReleaseWeakCell(s: State, t: Tid, h: Hid, c: Block, d: Block)
    requires c < |s.cells| && t < |s.pcs| && s.pcs[t] == Idle && h in s.weak && s.weak[h] == c
    requires d < |s.cells| && CellInv(s, d)
    ensures CellInv(AfterWeakRelease(s, t, h, c, s.cells[c].weak - 1), d)
  {
    hide Count;
    var s1 := SetCell(s, c, s.cells[c].(weak := s.cells[c].weak - 1));
    SameHandles(s, s1, d);
    TakeWeakCount(s1, h, d);
    SetPcCount(TakeWeak(s1, h), t, Freeing(c), d);
  }

  lemma ReleaseWeakKeeps(s: State, t: Tid, h: Hid)
    requires Inv(s) && Enabled(s, ReleaseWeak(t, h))
    ensures CellsInv(Next(s, ReleaseWeak(t, h)))
  {
    hide Count, ObjectsApart, LockersInv, DeletedAtMostOnce, Pinned;
    var s' := Next(s, ReleaseWeak(t, h));
    var c := s.weak[h];
    CellAt(s, c);
    TakeWeakCount(s, h, c);
    assert s' == AfterWeakRelease(s, t, h, c, s.cells[c].weak - 1);
    hide Next, Enabled, InRange, CellInv;
    forall d | 0 <= d < |s'.cells|
      ensures CellInv(s', d)
    {
      CellAt(s, d);
      ReleaseWeakCell(s, t, h, c, d);
    }
  }

  lemma LockKeeps(s: State, step: Step)
    requires Inv(s) && Enabled(s, step) && (step.LoadStrong? || step.LockCas? || step.LockEmpty?)
    ensures CellsInv(Next(s, step))
  {
    hide Count, ObjectsApart, LockersInv, DeletedAtMostOnce, Pinned, RoomForHandle;
    var s' := Next(s, step);
    var t := step.t;
    if step.LockCas? && s'.shared != s.shared {
      var c := s.pcs[t].c;
      var s1 := SetCell(s, c, s'.cells[c]);
      forall d | 0 <= d < |s'.cells|
        ensures CellInv(s', d)
      {
        CellAt(s, d);
        SameHandles(s, SetCell(s, c, s'.cells[c]), d);
        PutSharedCount(s1, step.dst, c, d);
        SetPcCount(PutShared(s1, step.dst, c), t, Idle, d);
      }
    } else {
      OnlyPcMoved(s, s', t, step);
    }
  }

  lemma OnlyPcMoved(s: State, s': State, t: Tid, step: Step)
    requires Inv(s) && Enabled(s, step) && (step.LoadStrong? || step.LockCas? || step.LockEmpty?)
    requires s' == Next(s, step) && t == step.t && s'.shared == s.shared
    ensures CellsInv(s')
  {
    hide Count, ObjectsApart, LockersInv, DeletedAtMostOnce, Pinned, RoomForHandle;
    assert step.LockCas? ==> step.dst !in s.shared;
    assert s' == SetPc(s, t, s'.pcs[t]);
    forall d | 0 <= d < |s'.cells|
      ensures CellInv(s', d)
    {
      CellAt(s, d);
      SetPcCount(s, t, s'.pcs[t], d);
    }
  }

  lemma ConstructKeeps(s: State, step: Step)
    requires Inv(s) && Enabled(s, step) && step.Construct?
    ensures CellsInv(Next(s, step))
  {
    hide CellInv, LockersInv, DeletedAtMostOnce, Count, InRange, ObjectsApart, Deletions;
    var s' := Next(s, step);
    forall d | 0 <= d < |s'.cells|
      ensures CellInv(s', d)
    {
      if d < |s.cells| {
        OldCellAfterConstruct(s, step, d);
      } else {
        NewCellAfterConstruct(s, step);
      }
    }
  }

  lemma OldCellAfterConstruct(s: State, step: Step, d: Block)
    requires Inv(s) && Enabled(s, step) && step.Construct? && d < |s.cells|
    ensures d < |Next(s, step).cells| && CellInv(Next(s, step), d)
  {
    hide CellsInv, LockersInv, DeletedAtMostOnce, Count, InRange;
    var s' := Next(s, step);
    var s1 := s.(cells := s'.cells, deletions := s'.deletions);
    CellAt(s, d);
    SameHandles(s, s1, d);
    if step.blockAllocated {
      PutSharedCount(s1, step.h, |s.cells|, d);
    }
  }

  lemma NewCellAfterConstruct(s: State, step: Step)
    requires Inv(s) && Enabled(s, step) && step.Construct? && step.blockAllocated
    ensures |s.cells| < |Next(s, step).cells| && CellInv(Next(s, step), |s.cells|)
  {
    hide CellsInv, LockersInv, DeletedAtMostOnce, Count, InRange, ObjectsApart;
    var s', c := Next(s, step), |s.cells|;
    var s1 := s.(cells := s'.cells, deletions := s'.deletions);
    NobodyKnowsNewBlock(s);
    SameHandles(s, s1, c);
    PutSharedCount(s1, step.h, c, c);
  }

  lemma NobodyKnowsNewBlock(s: State)
    requires InRange(s)
    ensures forall k :: Count(s, |s.cells|, k) == 0
  {
    var c := |s.cells|;
    assert SharedOf(s, c) == {} && WeakOf(s, c) == {};
    assert ThreadsAt(s, Deleting(c)) == {} && ThreadsAt(s, Clearing(c)) == {};
    assert ThreadsAt(s, Dropping(c)) == {} && ThreadsAt(s, Freeing(c)) == {};
  }

  // ---------------------------------------------------------------- the rest of the invariant

  predicate OnShared(step: Step) {
    step.Construct? || step.CopyShared? || step.MoveShared? || step.ReleaseShared?
  }

  predicate OnTearDown(step: Step) {
    step.RunDeleter? || step.ClearPtr? || step.DropShare? || step.FreeBlock?
  }

  predicate OnLock(step: Step) {
    step.LoadStrong? || step.LockCas? || step.LockEmpty?
  }

  /** No step changes which object a block was made for, and only a construction adds blocks and objects. */
  ghost predicate KeepsObjects(s: State, s': State) {
    && |s'.cells| >= |s.cells|
    && (forall c | 0 <= c < |s.cells| :: s'.cells[c].obj == s.cells[c].obj)
    && (forall o :: o in s.deletions ==> o in s'.deletions)
    && (|s'.cells| > |s.cells| ==>
          && |s'.cells| == |s.cells| + 1
          && s'.cells[|s.cells|].obj in s'.deletions && s'.cells[|s.cells|].obj !in s.deletions)
  }

  lemma ConstructShape(s: State, step: Step)
    requires InRange(s) && Enabled(s, step) && step.Construct?
    ensures InRange(Next(s, step)) && KeepsObjects(s, Next(s, step))
  {
  }

  lemma SharedStepShape(s: State, step: Step)
    requires InRange(s) && Enabled(s, step) && OnShared(step) && !step.Construct?
    ensures InRange(Next(s, step)) && KeepsObjects(s, Next(s, step))
  {
  }

  lemma TearDownStepShape(s: State, step: Step)
    requires InRange(s) && Enabled(s, step) && OnTearDown(step)
    ensures InRange(Next(s, step)) && KeepsObjects(s, Next(s, step))
  {
  }

  lemma LockStepShape(s: State, step: Step)
    requires InRange(s) && Enabled(s, step) && OnLock(step)
    ensures InRange(Next(s, step)) && KeepsObjects(s, Next(s, step))
  {
  }

  lemma AddWeakShape(s: State, step: Step)
    requires InRange(s) && Enabled(s, step) && (step.WeakFromShared? || step.CopyWeak?)
    ensures InRange(Next(s, step)) && KeepsObjects(s, Next(s, step))
  {
  }

  lemma DropWeakShape(s: State, step: Step)
    requires InRange(s) && Enabled(s, step) && (step.MoveWeak? || step.ReleaseWeak?)
    ensures InRange(Next(s, step)) && KeepsObjects(s, Next(s, step))
  {
  }

  lemma StepShape(s: State, step: Step)
    requires InRange(s) && Enabled(s, step)
    ensures InRange(Next(s, step)) && KeepsObjects(s, Next(s, step))
  {
    hide InRange, Enabled, Next, KeepsObjects;
    if step.Construct? {
      ConstructShape(s, step);
    } else if OnShared(step) {
      SharedStepShape(s, step);
    } else if OnTearDown(step) {
      TearDownStepShape(s, step);
    } else if OnLock(step) {
      LockStepShape(s, step);
    } else if step.WeakFromShared? || step.CopyWeak? {
      AddWeakShape(s, step);
    } else {
      DropWeakShape(s, step);
    }
  }

  lemma StepKeepsObjectsApart(s: State, step: Step)
    requires Inv(s) && Enabled(s, step)
    ensures ObjectsApart(Next(s, step))
  {
    hide CellsInv, LockersInv, Next, Enabled, InRange;
    StepShape(s, step);
  }

  lemma CellFacts(s: State, c: Block)
    requires CellsInv(s) && c < |s.cells|
    ensures s.cells[c].strong >= 0 && s.cells[c].frees <= 1
    ensures forall h | h in s.shared && s.shared[h] == c :: s.cells[c].strong > 0 && s.cells[c].frees == 0
    ensures forall h | h in s.weak && s.weak[h] == c :: s.cells[c].frees == 0
    ensures s.cells[c].strong > 0 ==> s.cells[c].frees == 0
  {
    hide Count;
    CellAt(s, c);
    forall h | h in s.shared && s.shared[h] == c
      ensures s.cells[c].strong > 0
    {
      TakeSharedCount(s, h, c);
    }
    forall h | h in s.weak && s.weak[h] == c
      ensures s.cells[c].frees == 0
    {
      TakeWeakCount(s, h, c);
    }
  }

  lemma StrongUntouchedByWeak(s: State, step: Step, c: Block)
    requires InRange(s) && Enabled(s, step) && c < |s.cells| && !OnShared(step) && !OnTearDown(step)
    requires !step.LockCas?
    ensures c < |Next(s, step).cells| && Next(s, step).cells[c].strong == s.cells[c].strong
  {
    hide FreshShared, FreshWeak, Pinned;
  }

  lemma StrongUntouched(s: State, step: Step, c: Block)
    requires InRange(s) && Enabled(s, step) && c < |s.cells|
    requires !step.CopyShared? && !step.ReleaseShared? && !step.LockCas?
    ensures c < |Next(s, step).cells| && Next(s, step).cells[c].strong == s.cells[c].strong
  {
    hide FreshShared, FreshWeak, Pinned;
    if !OnShared(step) && !OnTearDown(step) {
      hide Enabled, InRange, Next;
      StrongUntouchedByWeak(s, step, c);
    }
  }

  lemma StrongStaysZero(s: State, step: Step, c: Block)
    requires InRange(s) && Enabled(s, step) && c < |s.cells| && s.cells[c].strong == 0
    requires step.CopyShared? ==> s.shared[step.src] != c
    requires step.ReleaseShared? ==> s.shared[step.h] != c
    requires step.CopyShared? || step.ReleaseShared? || step.LockCas?
    ensures c < |Next(s, step).cells| && Next(s, step).cells[c].strong == 0
  {
    hide FreshShared, FreshWeak, Pinned;
  }

  /** Once the strong count of an object has reached zero it is never positive again. */
  lemma ExpiredStaysExpired(s: State, step: Step, c: Block)
    requires Inv(s) && Enabled(s, step) && c < |s.cells| && s.cells[c].strong == 0
    ensures c < |Next(s, step).cells| && Next(s, step).cells[c].strong == 0
  {
    hide CellsInv, ObjectsApart, LockersInv, DeletedAtMostOnce, Next;
    if step.CopyShared? || step.ReleaseShared? || step.LockCas? {
      CellFacts(s, c);
      StrongStaysZero(s, step, c);
    } else {
      StrongUntouched(s, step, c);
    }
  }

  lemma StepKeepsLockers(s: State, step: Step)
    requires Inv(s) && Enabled(s, step)
    ensures LockersInv(Next(s, step))
  {
    hide CellsInv, ObjectsApart, LockersInv, Next, Enabled, DeletedAtMostOnce, LockerInv;
    var s' := Next(s, step);
    forall t | 0 <= t < |s'.pcs| && s'.pcs[t].Locking?
      ensures LockerInv(s', t)
    {
      if t == step.t {
        OwnLocker(s, step);
      } else {
        OtherLocker(s, step, t);
      }
    }
    AllLockers(s');
  }

  ghost predicate LockerInv(s: State, t: Tid) {
    t < |s.pcs| && s.pcs[t].Locking? ==>
      && s.pcs[t].w in s.weak && s.weak[s.pcs[t].w] == s.pcs[t].c
      && s.pcs[t].c < |s.cells|
      && (s.pcs[t].current <= 0 ==> s.cells[s.pcs[t].c].strong == 0)
  }

  lemma AllLockers(s: State)
    requires forall t | 0 <= t < |s.pcs| && s.pcs[t].Locking? :: LockerInv(s, t)
    ensures LockersInv(s)
  {
  }

  lemma OneLocker(s: State, t: Tid)
    requires LockersInv(s)
    ensures LockerInv(s, t)
  {
  }

  lemma OwnLocker(s: State, step: Step)
    requires Inv(s) && Enabled(s, step)
    ensures LockerInv(Next(s, step), step.t)
  {
    hide CellsInv, ObjectsApart, LockersInv, DeletedAtMostOnce;
    OneLocker(s, step.t);
    if step.LoadStrong? {
      CellFacts(s, s.weak[step.w]);
    } else if step.LockCas? {
      CellFacts(s, s.pcs[step.t].c);
    } else {
      NotInLock(s, step);
    }
  }

  lemma NotInLock(s: State, step: Step)
    requires InRange(s) && Enabled(s, step) && !step.LoadStrong? && !step.LockCas?
    ensures step.t < |Next(s, step).pcs| && !Next(s, step).pcs[step.t].Locking?
  {
    hide FreshShared, FreshWeak, Pinned;
  }

  lemma OtherPcs(s: State, step: Step, t: Tid)
    requires InRange(s) && Enabled(s, step) && t != step.t
    ensures |Next(s, step).pcs| == |s.pcs|
    ensures t < |s.pcs| ==> Next(s, step).pcs[t] == s.pcs[t]
  {
    hide FreshShared, FreshWeak, Pinned;
  }

  lemma PinnedStays(s: State, step: Step, w: Hid)
    requires InRange(s) && Enabled(s, step) && w in s.weak && Pinned(s, w)
    ensures w in Next(s, step).weak && Next(s, step).weak[w] == s.weak[w]
  {
    hide FreshShared, RoomForHandle, Pinned;
  }

  lemma OtherLocker(s: State, step: Step, t: Tid)
    requires Inv(s) && Enabled(s, step) && t != step.t
    ensures LockerInv(Next(s, step), t)
  {
    hide CellsInv, ObjectsApart, LockersInv, DeletedAtMostOnce, Next, Enabled, KeepsObjects;
    OtherPcs(s, step, t);
    if t < |s.pcs| && s.pcs[t].Locking? {
      OneLocker(s, t);
      var pc := s.pcs[t];
      PinnedStays(s, step, pc.w);
      StepShape(s, step);
      if pc.current <= 0 {
        ExpiredStaysExpired(s, step, pc.c);
      }
    }
  }

  lemma StepKeepsCells(s: State, step: Step)
    requires Inv(s) && Enabled(s, step)
    ensures CellsInv(Next(s, step))
  {
    hide Next, Enabled, Inv, CellsInv;
    match step
    case Construct(_, _, _, _, _) => ConstructKeeps(s, step);
    case CopyShared(t, src, dst) => CopySharedKeeps(s, t, src, dst);
    case MoveShared(t, src, dst) => MoveSharedKeeps(s, t, src, dst);
    case ReleaseShared(t, h) => ReleaseSharedKeeps(s, t, h);
    case RunDeleter(t) => RunDeleterKeeps(s, t);
    case ClearPtr(_) => TearDownKeeps(s, step);
    case DropShare(_) => TearDownKeeps(s, step);
    case FreeBlock(_) => TearDownKeeps(s, step);
    case WeakFromShared(_, _, _) => AddWeakKeeps(s, step);
    case CopyWeak(_, _, _) => AddWeakKeeps(s, step);
    case MoveWeak(t, src, dst) => MoveWeakKeeps(s, t, src, dst);
    case ReleaseWeak(t, h) => ReleaseWeakKeeps(s, t, h);
    case LoadStrong(_, _) => LockKeeps(s, step);
    case LockCas(_, _, _) => LockKeeps(s, step);
    case LockEmpty(_) => LockKeeps(s, step);
  }

  lemma StepKeepsDeletedOnce(s: State, step: Step)
    requires Inv(s) && Enabled(s, step)
    ensures DeletedAtMostOnce(Next(s, step))
  {
    hide ObjectsApart, LockersInv, Count;
    if step.RunDeleter? {
      CellAt(s, s.pcs[step.t].c);
      AtIsCounted(s, step.t);
    }
  }

  lemma StepKeepsInv(s: State, step: Step)
    requires Inv(s) && Enabled(s, step)
    ensures Inv(Next(s, step))
  {
    hide Next, Enabled, InRange, CellsInv, ObjectsApart, LockersInv, DeletedAtMostOnce;
    StepKeepsDeletedOnce(s, step);
    StepShape(s, step);
    StepKeepsCells(s, step);
    StepKeepsObjectsApart(s, step);
    StepKeepsLockers(s, step);
  }

  lemma InitInv(threads: nat)
    ensures Inv(Init(threads))
  {
  }

  // ---------------------------------------------------------------- whole runs

  /** A scheduled step that is not enabled when its turn comes is skipped. */
  function StepIfEnabled(s: State, step: Step): State {
    if InRange(s) && Enabled(s, step) then Next(s, step) else s
  }

  function Run(s: State, steps: seq<Step>): State
    decreases |steps|
  {
    if steps == [] then s else Run(StepIfEnabled(s, steps[0]), steps[1..])
  }

  lemma {:induction false} RunKeepsInv(s: State, steps: seq<Step>)
    requires Inv(s)
    ensures Inv(Run(s, steps))
    decreases |steps|
  {
    hide Inv, Enabled, Next, InRange;
    if steps != [] {
      if InRange(s) && Enabled(s, steps[0]) {
        StepKeepsInv(s, steps[0]);
      }
      RunKeepsInv(StepIfEnabled(s, steps[0]), steps[1..]);
    }
  }

  /** In every run of any number of threads the strong count is the number of shared handles, and the weak
      count is the number of weak handles plus one until the strong handles' common share is dropped. */
  lemma CountersAreExact(threads: nat, steps: seq<Step>)
    ensures var s := Run(Init(threads), steps);
            forall c | 0 <= c < |s.cells| :: ExactCounts(s, c)
  {
    hide Run, Inv, ExactCounts, CountersExact;
    InitInv(threads);
    RunKeepsInv(Init(threads), steps);
    var s := Run(Init(threads), steps);
    forall c | 0 <= c < |s.cells|
      ensures ExactCounts(s, c)
    {
      CellIsExact(s, c);
    }
  }

  ghost predicate ExactCounts(s: State, c: Block)
    requires c < |s.cells|
  {
    && s.cells[c].strong == |SharedOf(s, c)|
    && s.cells[c].weak == |WeakOf(s, c)| + (if SharedOf(s, c) != {} || Ending(s, c) > 0 then 1 else 0)
  }

  lemma CellIsExact(s: State, c: Block)
    requires Inv(s) && c < |s.cells|
    ensures ExactCounts(s, c)
  {
    hide InRange, ObjectsApart, LockersInv, DeletedAtMostOnce;
    CellAt(s, c);
  }

  /** No step of any run touches a control block that has been freed. */
  lemma NeverTouchesFreed(threads: nat, steps: seq<Step>, step: Step)
    requires InRange(Run(Init(threads), steps)) && Enabled(Run(Init(threads), steps), step)
    ensures var s := Run(Init(threads), steps);
            Touches(s, step).Some? ==>
              Touches(s, step).value < |s.cells| && s.cells[Touches(s, step).value].frees == 0
  {
    hide Run, Count;
    InitInv(threads);
    var s := Run(Init(threads), steps);
    RunKeepsInv(Init(threads), steps);
    if Touches(s, step).Some? {
      CellFacts(s, Touches(s, step).value);
      CellAt(s, Touches(s, step).value);
      AtIsCounted(s, step.t);
    }
  }

  /** The deleter is called for an object only when no shared handle is left, for the first time, and its
      control block still points to it. */
  lemma DeleterRunsOnceAfterLastHandle(threads: nat, steps: seq<Step>, t: Tid)
    requires InRange(Run(Init(threads), steps)) && Enabled(Run(Init(threads), steps), RunDeleter(t))
    ensures var s := Run(Init(threads), steps);
            var c := s.pcs[t].c;
            && SharedOf(s, c) == {} && s.cells[c].ptr == To(s.cells[c].obj)
            && Deletions(s, s.cells[c].obj) == 0
            && Deletions(Next(s, RunDeleter(t)), s.cells[c].obj) == (if s.cells[c].hasDeleter then 1 else 0)
  {
    hide Run;
    InitInv(threads);
    var s := Run(Init(threads), steps);
    RunKeepsInv(Init(threads), steps);
    CellAt(s, s.pcs[t].c);
    AtIsCounted(s, t);
  }

  /** No object, whether its control block could be allocated or not, is ever deleted twice. */
  lemma NoDoubleDelete(threads: nat, steps: seq<Step>, o: Obj)
    ensures Deletions(Run(Init(threads), steps), o) <= 1
  {
    hide Run, CellsInv, ObjectsApart, LockersInv;
    InitInv(threads);
    RunKeepsInv(Init(threads), steps);
  }

  predicate AtRest(s: State) {
    forall t | 0 <= t < |s.pcs| :: s.pcs[t] == Idle
  }

  /** The object has been deleted exactly when no shared handle owns it, its block has been freed exactly when
      no handle of either kind is left, and the block points to the object as long as it is there. */
  ghost predicate NothingLeaks(s: State, c: Block)
    requires c < |s.cells|
  {
    && s.cells[c].frees == (if SharedOf(s, c) == {} && WeakOf(s, c) == {} then 1 else 0)
    && Deletions(s, s.cells[c].obj) == (if s.cells[c].hasDeleter && SharedOf(s, c) == {} then 1 else 0)
    && (s.cells[c].ptr == To(s.cells[c].obj) <==> SharedOf(s, c) != {})
  }

  /** Whenever no thread is inside an operation, no object and no block has leaked or gone too early. */
  lemma AtRestNothingLeaks(threads: nat, steps: seq<Step>)
    ensures var s := Run(Init(threads), steps);
            AtRest(s) ==> forall c | 0 <= c < |s.cells| :: NothingLeaks(s, c)
  {
    hide Run, AtRest, Inv, NothingLeaks;
    InitInv(threads);
    RunKeepsInv(Init(threads), steps);
    var s := Run(Init(threads), steps);
    forall c | 0 <= c < |s.cells| && AtRest(s)
      ensures NothingLeaks(s, c)
    {
      RestingCell(s, c);
    }
  }

  lemma RestingCell(s: State, c: Block)
    requires Inv(s) && c < |s.cells| && AtRest(s)
    ensures NothingLeaks(s, c)
  {
    hide Count, CellsInv, InRange, ObjectsApart, LockersInv, DeletedAtMostOnce, SharedOf, WeakOf, AtRest, Deletions;
    CellAt(s, c);
    RestingCounts(s, c);
  }

  lemma RestingCounts(s: State, c: Block)
    requires AtRest(s)
    ensures Count(s, c, SharedHandle) == 0 <==> SharedOf(s, c) == {}
    ensures Count(s, c, WeakHandle) == 0 <==> WeakOf(s, c) == {}
    ensures forall k :: k == SharedHandle || k == WeakHandle || Count(s, c, k) == 0
  {
    hide ThreadsAt, SharedOf, WeakOf, AtRest;
    NobodyAt(s, Deleting(c));
    NobodyAt(s, Clearing(c));
    NobodyAt(s, Dropping(c));
    NobodyAt(s, Freeing(c));
  }

  lemma NobodyAt(s: State, pc: Pc)
    requires pc != Idle && AtRest(s)
    ensures ThreadsAt(s, pc) == {}
  {
  }

  // ---------------------------------------------------------------- what a step does to the handles

  /** Every step by its effect on the handles; the exact counters then follow from them. A copy and a weak copy
      add one handle to the block of their source, a move renames one, a release removes one, lock() adds one
      only by a successful CAS, and the steps of a teardown leave the handles alone. */
  predicate MovesHandles(s: State, s': State, step: Step)
    requires InRange(s) && Enabled(s, step)
  {
    match step
    case Construct(_, h, _, _, ok) =>
      s'.weak == s.weak && (if ok then AddsTo(s.shared, s'.shared, h, |s.cells|) else s'.shared == s.shared)
    case CopyShared(_, src, dst) => s'.weak == s.weak && AddsTo(s.shared, s'.shared, dst, s.shared[src])
    case MoveShared(_, src, dst) => s'.weak == s.weak && Renames(s.shared, s'.shared, src, dst)
    case ReleaseShared(_, h) => s'.weak == s.weak && Removes(s.shared, s'.shared, h)
    case RunDeleter(_) => s'.shared == s.shared && s'.weak == s.weak
    case ClearPtr(_) => s'.shared == s.shared && s'.weak == s.weak
    case DropShare(_) => s'.shared == s.shared && s'.weak == s.weak
    case FreeBlock(_) => s'.shared == s.shared && s'.weak == s.weak
    case WeakFromShared(_, src, dst) => s'.shared == s.shared && AddsTo(s.weak, s'.weak, dst, s.shared[src])
    case CopyWeak(_, src, dst) => s'.shared == s.shared && AddsTo(s.weak, s'.weak, dst, s.weak[src])
    case MoveWeak(_, src, dst) => s'.shared == s.shared && Renames(s.weak, s'.weak, src, dst)
    case ReleaseWeak(_, h) => s'.shared == s.shared && Removes(s.weak, s'.weak, h)
    case LoadStrong(_, _) => s'.shared == s.shared && s'.weak == s.weak
    case LockCas(t, spurious, dst) =>
      && s'.weak == s.weak
      && (if !spurious && s.cells[s.pcs[t].c].strong == s.pcs[t].current
          then AddsTo(s.shared, s'.shared, dst, s.pcs[t].c) else s'.shared == s.shared)
    case LockEmpty(_) => s'.shared == s.shared && s'.weak == s.weak
  }

  lemma SharedStepMoves(s: State, step: Step)
    requires InRange(s) && Enabled(s, step) && OnShared(step)
    ensures MovesHandles(s, Next(s, step), step)
  {
    hide RoomForHandle, FreshWeak, Pinned;
  }

  lemma WeakStepMoves(s: State, step: Step)
    requires InRange(s) && Enabled(s, step) && !OnShared(step) && !OnTearDown(step) && !OnLock(step)
    ensures MovesHandles(s, Next(s, step), step)
  {
    hide RoomForHandle, FreshShared, Pinned;
  }

  lemma OtherStepMoves(s: State, step: Step)
    requires InRange(s) && Enabled(s, step) && (OnTearDown(step) || OnLock(step))
    ensures MovesHandles(s, Next(s, step), step)
  {
    hide RoomForHandle, FreshWeak, Pinned;
  }

  lemma StepMovesHandles(s: State, step: Step)
    requires InRange(s) && Enabled(s, step)
    ensures MovesHandles(s, Next(s, step), step)
  {
    hide MovesHandles, InRange, Enabled, Next;
    if OnShared(step) {
      SharedStepMoves(s, step);
    } else if OnTearDown(step) || OnLock(step) {
      OtherStepMoves(s, step);
    } else {
      WeakStepMoves(s, step);
    }
  }

  predicate AddsTo(m: map<Hid, Block>, m': map<Hid, Block>, h: Hid, c: Block) {
    h !in m && m'.Keys == m.Keys + {h} && m'[h] == c && forall g | g in m :: m'[g] == m[g]
  }

  predicate Removes(m: map<Hid, Block>, m': map<Hid, Block>, h: Hid) {
    h in m && m'.Keys == m.Keys - {h} && forall g | g in m' :: m'[g] == m[g]
  }

  predicate Renames(m: map<Hid, Block>, m': map<Hid, Block>, src: Hid, dst: Hid) {
    && src in m && dst !in m && m'.Keys == m.Keys - {src} + {dst} && m'[dst] == m[src]
    && forall g | g in m && g != src :: m'[g] == m[g]
  }

  // ---------------------------------------------------------------- lock() and expiry

  predicate IsAlive(s: State, c: Block)
    requires c < |s.cells|
  {
    s.cells[c].strong > 0
  }

  /** An expired object never comes back, whatever the threads do. */
  lemma {:induction false} ExpiryIsForever(s: State, steps: seq<Step>, c: Block)
    requires Inv(s) && c < |s.cells| && !IsAlive(s, c)
    ensures c < |Run(s, steps).cells| && !IsAlive(Run(s, steps), c)
    decreases |steps|
  {
    hide Inv, Enabled, Next, InRange;
    CellFactsOf(s, c);
    if steps != [] {
      if InRange(s) && Enabled(s, steps[0]) {
        StepKeepsInv(s, steps[0]);
        ExpiredStaysExpired(s, steps[0], c);
      }
      ExpiryIsForever(StepIfEnabled(s, steps[0]), steps[1..], c);
    }
  }

  lemma CellFactsOf(s: State, c: Block)
    requires Inv(s) && c < |s.cells|
    ensures s.cells[c].strong >= 0
  {
    CellFacts(s, c);
  }

  /** One step of lock() on an alive/dead flag. */
  ghost predicate TakesEffect(s: State, step: Step)
    requires InRange(s) && Enabled(s, step) && (step.LockCas? || step.LockEmpty?) && s.pcs[step.t].c < |s.cells|
  {
    var s' := Next(s, step);
    var c := s.pcs[step.t].c;
    if s'.pcs[step.t] != Idle then
      step.LockCas? && s'.shared == s.shared && s'.cells == s.cells
    else if step.LockCas? then
      IsAlive(s, c) && IsAlive(s', c) && s'.shared == s.shared[step.dst := c]
    else
      !IsAlive(s, c) && s'.shared == s.shared && s'.cells == s.cells
  }

  lemma LockStepTakesEffect(s: State, step: Step)
    requires Inv(s) && Enabled(s, step) && (step.LockCas? || step.LockEmpty?)
    ensures s.pcs[step.t].c < |s.cells| && TakesEffect(s, step)
  {
    hide CellsInv, ObjectsApart;
    CellFactsOf(s, s.pcs[step.t].c);
  }

  /** lock() is linearizable against an alive/dead flag, in every run: it returns a handle at a successful CAS
      on a living object, or returns empty at a step at which the object is dead; the other steps of its loop
      change nothing. */
  lemma LockIsLinearizable(threads: nat, steps: seq<Step>, step: Step)
    requires InRange(Run(Init(threads), steps)) && Enabled(Run(Init(threads), steps), step)
    requires step.LockCas? || step.LockEmpty?
    ensures var s := Run(Init(threads), steps);
            s.pcs[step.t].c < |s.cells| && TakesEffect(s, step)
  {
    hide Run, Inv, TakesEffect, Enabled;
    InitInv(threads);
    RunKeepsInv(Init(threads), steps);
    var s := Run(Init(threads), steps);
    LockStepTakesEffect(s, step);
  }
}

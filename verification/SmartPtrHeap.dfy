/** The operations of SqliteSharedPtr and SqliteWeakPtr as they update the control blocks and the handles
    in place, one atomic operation at a time, with the other threads' steps in the gaps between them. */
module SmartPtr {
  import opened SmartPtrProtocol
  import opened SmartPtrInvariant

  predicate OthersOnly(t: Tid, steps: seq<Step>) {
    forall i | 0 <= i < |steps| :: steps[i].t != t
  }

  lemma {:induction false} OthersKeepPc(s: State, t: Tid, steps: seq<Step>)
    requires OthersOnly(t, steps) && t < |s.pcs|
    ensures |Run(s, steps).pcs| == |s.pcs| && Run(s, steps).pcs[t] == s.pcs[t]
    decreases |steps|
  {
    hide Enabled, Next, InRange;
    if steps != [] {
      if InRange(s) && Enabled(s, steps[0]) {
        OtherPcs(s, steps[0], t);
      }
      OthersKeepPc(StepIfEnabled(s, steps[0]), t, steps[1..]);
    }
  }

  // ---------------------------------------------------------------- release()

  predicate InTearDown(pc: Pc) { pc.Deleting? || pc.Clearing? || pc.Dropping? || pc.Freeing? }

  /** The next step of a thread that is tearing an object or a block down. */
  function TearDownStep(pc: Pc, t: Tid): Step
    requires InTearDown(pc)
  {
    match pc
    case Deleting(_) => RunDeleter(t)
    case Clearing(_) => ClearPtr(t)
    case Dropping(_) => DropShare(t)
    case Freeing(_) => FreeBlock(t)
  }

  /** The rest of release() by thread `t`: `gaps[i]` holds the other threads' steps before its i-th step. */
  function TearDown(s: State, t: Tid, gaps: seq<seq<Step>>): State
    decreases |gaps|
  {
    if gaps == [] || t >= |s.pcs| || !InTearDown(s.pcs[t]) then s
    else TearDown(StepIfEnabled(Run(s, gaps[0]), TearDownStep(s.pcs[t], t)), t, gaps[1..])
  }

  ghost predicate Quiet(t: Tid, gaps: seq<seq<Step>>) {
    forall i | 0 <= i < |gaps| :: OthersOnly(t, gaps[i])
  }

  function StepsLeft(pc: Pc): nat {
    match pc
    case Deleting(_) => 4
    case Clearing(_) => 3
    case Dropping(_) => 2
    case Freeing(_) => 1
    case Idle => 0
    case Locking(_, _, _) => 0
  }

  /** release() always finishes: after at most five operations of its own the thread is out of it. */
  lemma {:induction false} TearDownFinishes(s: State, t: Tid, gaps: seq<seq<Step>>)
    requires Inv(s) && t < |s.pcs| && !s.pcs[t].Locking? && Quiet(t, gaps) && StepsLeft(s.pcs[t]) <= |gaps|
    ensures Inv(TearDown(s, t, gaps))
    ensures |TearDown(s, t, gaps).pcs| == |s.pcs| && TearDown(s, t, gaps).pcs[t] == Idle
    decreases |gaps|
  {
    hide Inv, Enabled, Next;
    if InTearDown(s.pcs[t]) {
      var mid := Run(s, gaps[0]);
      RunKeepsInv(s, gaps[0]);
      OthersKeepPc(s, t, gaps[0]);
      OwnTearDown(mid, t);
      StepKeepsInv(mid, TearDownStep(s.pcs[t], t));
      TearDownFinishes(StepIfEnabled(mid, TearDownStep(s.pcs[t], t)), t, gaps[1..]);
    }
  }

  lemma OwnTearDown(s: State, t: Tid)
    requires Inv(s) && t < |s.pcs| && InTearDown(s.pcs[t])
    ensures InRange(s) && Enabled(s, TearDownStep(s.pcs[t], t))
    ensures var s' := Next(s, TearDownStep(s.pcs[t], t));
            |s'.pcs| == |s.pcs| && !s'.pcs[t].Locking? && StepsLeft(s'.pcs[t]) < StepsLeft(s.pcs[t])
  {
    hide CellsInv, ObjectsApart, LockersInv, DeletedAtMostOnce;
  }

  // ---------------------------------------------------------------- lock()

  /** What happens around one CAS of lock(): the steps other threads get in first, and whether the weak
      CAS fails spuriously. */
  datatype Slice = Slice(others: seq<Step>, spurious: bool)

  /** lock() by thread `t` after its first load: it ends with the loop, or when the schedule is used up. */
  function LockRun(s: State, t: Tid, dst: Hid, schedule: seq<Slice>): State
    decreases |schedule|
  {
    if schedule == [] || t >= |s.pcs| || !s.pcs[t].Locking? then s
    else
      var mid := Run(s, schedule[0].others);
      LockRun(StepIfEnabled(mid, OwnLockStep(s.pcs[t], t, dst, schedule[0].spurious)), t, dst, schedule[1..])
  }

  function OwnLockStep(pc: Pc, t: Tid, dst: Hid, spurious: bool): Step
    requires pc.Locking?
  {
    if pc.current > 0 then LockCas(t, spurious, dst) else LockEmpty(t)
  }

  /** The handle lock() returns is new, and there is room for it, whenever the CAS may succeed. */
  ghost predicate RoomToLock(s: State, t: Tid, dst: Hid, schedule: seq<Slice>)
    decreases |schedule|
  {
    schedule != [] && t < |s.pcs| && s.pcs[t].Locking? ==>
      var mid := Run(s, schedule[0].others);
      && OthersOnly(t, schedule[0].others) && FreshShared(mid, dst)
      && RoomToLock(StepIfEnabled(mid, OwnLockStep(s.pcs[t], t, dst, schedule[0].spurious)), t, dst, schedule[1..])
  }

  /** One slice of the schedule: the others' steps, then the thread's own operation. */
  lemma LockRunStep(s: State, t: Tid, dst: Hid, schedule: seq<Slice>, k: nat)
    requires k < |schedule| && t < |s.pcs| && s.pcs[t].Locking? && RoomToLock(s, t, dst, schedule[k..])
    ensures var mid := Run(s, schedule[k].others);
            var s' := StepIfEnabled(mid, OwnLockStep(s.pcs[t], t, dst, schedule[k].spurious));
            && OthersOnly(t, schedule[k].others) && FreshShared(mid, dst)
            && LockRun(s, t, dst, schedule[k..]) == LockRun(s', t, dst, schedule[k + 1..])
            && RoomToLock(s', t, dst, schedule[k + 1..])
  {
    hide Run, StepIfEnabled, FreshShared;
    assert schedule[k..][0] == schedule[k] && schedule[k..][1..] == schedule[k + 1..];
  }

  // ---------------------------------------------------------------- lock() comes to its end

  /** Two turns of the loop without other threads and without spurious failure. */
  const UNDISTURBED: seq<Slice> := [Slice([], false), Slice([], false)]

  /** One undisturbed turn with the right expected value: the handle is there. */
  lemma CasSucceeds(s: State, t: Tid, dst: Hid)
    requires Inv(s) && t < |s.pcs| && s.pcs[t].Locking? && FreshShared(s, dst)
    requires s.pcs[t].c < |s.cells| && s.cells[s.pcs[t].c].strong == s.pcs[t].current > 0
    ensures var s' := StepIfEnabled(s, OwnLockStep(s.pcs[t], t, dst, false));
            GotHandle(s, s', t, dst, s.pcs[t].c)
  {
    hide CellsInv, ObjectsApart, LockersInv, DeletedAtMostOnce;
    var c := s.pcs[t].c;
    var s' := StepIfEnabled(s, OwnLockStep(s.pcs[t], t, dst, false));
    assert SharedOf(s', c) == SharedOf(s, c) + {dst};
  }

  /** The call is over and `dst` is one more shared handle of block `c`. */
  ghost predicate GotHandle(s: State, s': State, t: Tid, dst: Hid, c: Block) {
    && t < |s'.pcs| && s'.pcs[t] == Idle && dst in s'.shared && s'.shared[dst] == c
    && SharedOf(s', c) == SharedOf(s, c) + {dst} && dst !in SharedOf(s, c)
  }

  /** The call is over and nothing was handed out. */
  ghost predicate GotNothing(s: State, s': State, t: Tid) {
    t < |s'.pcs| && s'.pcs[t] == Idle && s'.shared == s.shared && s'.cells == s.cells
  }

  /** An undisturbed turn with a stale expected value only reads the new one. */
  lemma StaleCasReloads(s: State, t: Tid, dst: Hid)
    requires Inv(s) && t < |s.pcs| && s.pcs[t].Locking? && FreshShared(s, dst)
    requires s.pcs[t].c < |s.cells| && s.pcs[t].current > 0 && s.cells[s.pcs[t].c].strong != s.pcs[t].current
    ensures var s' := StepIfEnabled(s, OwnLockStep(s.pcs[t], t, dst, false));
            s' == SetPc(s, t, Locking(s.pcs[t].w, s.pcs[t].c, s.cells[s.pcs[t].c].strong))
  {
    hide CellsInv, ObjectsApart, LockersInv, DeletedAtMostOnce;
  }

  lemma EmptyTurn(s: State, t: Tid, dst: Hid)
    requires Inv(s) && t < |s.pcs| && s.pcs[t].Locking? && s.pcs[t].current <= 0
    ensures GotNothing(s, StepIfEnabled(s, OwnLockStep(s.pcs[t], t, dst, false)), t)
  {
    hide CellsInv, ObjectsApart, LockersInv, DeletedAtMostOnce;
  }

  lemma UndisturbedTurn(s: State, t: Tid, dst: Hid, k: nat)
    requires k < 2 && t < |s.pcs| && s.pcs[t].Locking?
    ensures LockRun(s, t, dst, UNDISTURBED[k..])
         == LockRun(StepIfEnabled(s, OwnLockStep(s.pcs[t], t, dst, false)), t, dst, UNDISTURBED[k + 1..])
  {
    hide StepIfEnabled;
    assert UNDISTURBED[k..][0] == Slice([], false) && UNDISTURBED[k..][1..] == UNDISTURBED[k + 1..];
    assert Run(s, []) == s;
  }

  lemma AliveIffOwned(s: State, c: Block)
    requires Inv(s) && c < |s.cells|
    ensures s.cells[c].strong > 0 <==> SharedOf(s, c) != {}
    ensures s.cells[c].strong >= 0
  {
    hide InRange, ObjectsApart, LockersInv, DeletedAtMostOnce;
    CellAt(s, c);
  }

  /** lock() never hangs by itself: wherever a thread is in its loop, two undisturbed turns end the call, with a
      handle if some shared handle owns the object, and empty otherwise. */
  lemma LockCompletes(s: State, t: Tid, dst: Hid)
    requires Inv(s) && t < |s.pcs| && s.pcs[t].Locking? && FreshShared(s, dst)
    ensures s.pcs[t].c < |s.cells|
    ensures var s' := LockRun(s, t, dst, UNDISTURBED);
            if SharedOf(s, s.pcs[t].c) != {} then GotHandle(s, s', t, dst, s.pcs[t].c) else GotNothing(s, s', t)
  {
    hide LockRun, StepIfEnabled, Inv, SharedOf, GotHandle, GotNothing, FreshShared;
    var c, current := s.pcs[t].c, s.pcs[t].current;
    ReadZeroIsExpired(s, t);
    AliveIffOwned(s, c);
    assert UNDISTURBED[0..] == UNDISTURBED;
    UndisturbedTurn(s, t, dst, 0);
    var s1 := StepIfEnabled(s, OwnLockStep(s.pcs[t], t, dst, false));
    if current <= 0 {
      EmptyTurn(s, t, dst);
      LockOver(s, s1, t, dst, c, UNDISTURBED[1..]);
    } else if s.cells[c].strong == current {
      CasSucceeds(s, t, dst);
      LockOver(s, s1, t, dst, c, UNDISTURBED[1..]);
    } else {
      StaleCasReloads(s, t, dst);
      SecondTurn(s, s1, t, dst);
    }
  }

  /** The second turn, with the value just read. */
  lemma SecondTurn(s: State, s1: State, t: Tid, dst: Hid)
    requires Inv(s) && t < |s.pcs| && s.pcs[t].Locking? && FreshShared(s, dst) && s.pcs[t].c < |s.cells|
    requires s.pcs[t].current > 0 && s.cells[s.pcs[t].c].strong != s.pcs[t].current
    requires s1 == StepIfEnabled(s, OwnLockStep(s.pcs[t], t, dst, false))
    requires s1 == SetPc(s, t, Locking(s.pcs[t].w, s.pcs[t].c, s.cells[s.pcs[t].c].strong))
    ensures var s' := LockRun(s1, t, dst, UNDISTURBED[1..]);
            if SharedOf(s, s.pcs[t].c) != {} then GotHandle(s, s', t, dst, s.pcs[t].c) else GotNothing(s, s', t)
  {
    hide LockRun, StepIfEnabled, Inv;
    var c := s.pcs[t].c;
    ReloadKeepsInv(s, t, dst);
    AliveIffOwned(s, c);
    UndisturbedTurn(s1, t, dst, 1);
    var s2 := StepIfEnabled(s1, OwnLockStep(s1.pcs[t], t, dst, false));
    if s.cells[c].strong > 0 {
      CasSucceeds(s1, t, dst);
      assert SharedOf(s1, c) == SharedOf(s, c);
    } else {
      EmptyTurn(s1, t, dst);
    }
    LockRunDone(s2, t, dst, UNDISTURBED[2..]);
  }

  lemma ReloadKeepsInv(s: State, t: Tid, dst: Hid)
    requires Inv(s) && t < |s.pcs| && s.pcs[t].Locking? && FreshShared(s, dst) && s.pcs[t].current > 0
    ensures Inv(StepIfEnabled(s, OwnLockStep(s.pcs[t], t, dst, false)))
  {
    hide Inv, Next, FreshShared;
    InvInRange(s);
    StepKeepsInv(s, OwnLockStep(s.pcs[t], t, dst, false));
  }

  lemma LockOver(s: State, s1: State, t: Tid, dst: Hid, c: Block, schedule: seq<Slice>)
    requires GotHandle(s, s1, t, dst, c) || GotNothing(s, s1, t)
    ensures LockRun(s1, t, dst, schedule) == s1
  {
    LockRunDone(s1, t, dst, schedule);
  }

  /** A whole call of lock() that nobody disturbs returns a handle iff the object is alive. */
  lemma LockAlone(s: State, t: Tid, w: Hid, dst: Hid)
    requires Inv(s) && t < |s.pcs| && s.pcs[t] == Idle && w in s.weak && FreshShared(s, dst)
    ensures s.weak[w] < |s.cells|
    ensures var s' := LockRun(StepIfEnabled(s, LoadStrong(t, w)), t, dst, UNDISTURBED);
            if SharedOf(s, s.weak[w]) != {} then GotHandle(s, s', t, dst, s.weak[w]) else GotNothing(s, s', t)
  {
    hide LockRun, UNDISTURBED, CellsInv, ObjectsApart, LockersInv, DeletedAtMostOnce;
    var s1 := StepIfEnabled(s, LoadStrong(t, w));
    LoadKeepsInv(s, t, w);
    LockCompletes(s1, t, dst);
    assert SharedOf(s1, s.weak[w]) == SharedOf(s, s.weak[w]);
  }

  lemma LoadKeepsInv(s: State, t: Tid, w: Hid)
    requires Inv(s) && t < |s.pcs| && s.pcs[t] == Idle && w in s.weak
    ensures Inv(StepIfEnabled(s, LoadStrong(t, w)))
  {
    hide Inv, Next;
    InvInRange(s);
    StepKeepsInv(s, LoadStrong(t, w));
  }

  class Heap {
    var cells: seq<Cell>
    var shared: map<Hid, Block>
    var weak: map<Hid, Block>
    var pcs: seq<Pc>
    var deletions: map<Obj, nat>

    constructor (threads: nat)
      ensures Abs() == Init(threads) && Inv(Abs())
    {
      cells, shared, weak, deletions := [], map[], map[], map[];
      pcs := seq(threads, i => Idle);
      InitInv(threads);
    }

    function Abs(): State
      reads this
    {
      State(cells, shared, weak, pcs, deletions)
    }

    method Set(s: State)
      modifies this
      ensures Abs() == s
    {
      cells, shared, weak, pcs, deletions := s.cells, s.shared, s.weak, s.pcs, s.deletions;
    }

    /** The steps other threads get in between two operations of thread `t`. */
    method Interfere(ghost t: Tid, others: seq<Step>)
      requires Inv(Abs()) && OthersOnly(t, others) && t < |pcs|
      modifies this
      ensures Abs() == Run(old(Abs()), others) && Inv(Abs())
      ensures |pcs| == |old(pcs)| && pcs[t] == old(pcs)[t]
    {
      hide Inv, Enabled, Next, InRange, StepIfEnabled;
      ghost var s0 := Abs();
      var k := 0;
      while k < |others|
        invariant 0 <= k <= |others|
        invariant Run(Abs(), others[k..]) == Run(s0, others)
      {
        assert others[k..][1..] == others[k + 1..] && others[k..][0] == others[k];
        Set(StepIfEnabled(Abs(), others[k]));
        k := k + 1;
      }
      RunKeepsInv(s0, others);
      OthersKeepPc(s0, t, others);
    }

    /** SqliteSharedPtr(ptr, deleter): a null pointer makes an empty handle; when the block cannot be
        allocated the object is deleted at once. */
    method Construct(t: Tid, h: Hid, ptr: Ptr, hasDeleter: bool, blockAllocated: bool)
      requires Inv(Abs()) && t < |pcs| && pcs[t] == Idle && FreshShared(Abs(), h)
      requires ptr.To? ==> ptr.obj !in deletions
      modifies this
      ensures Inv(Abs())
      ensures ptr.Null? ==> Abs() == old(Abs())
      ensures ptr.To? ==> Abs() == Next(old(Abs()), Step.Construct(t, h, ptr.obj, hasDeleter, blockAllocated))
      ensures ptr.To? && blockAllocated ==> h in shared && SharedOf(Abs(), shared[h]) == {h}
      ensures ptr.To? && !blockAllocated ==>
                h !in shared && Deletions(Abs(), ptr.obj) == if hasDeleter then 1 else 0
    {
      hide Inv;
      InvInRange(Abs());
      if ptr.Null? { return; }
      StepKeepsInv(Abs(), Step.Construct(t, h, ptr.obj, hasDeleter, blockAllocated));
      if !blockAllocated {
        deletions := deletions[ptr.obj := if hasDeleter then 1 else 0];
        return;
      }
      deletions := deletions[ptr.obj := 0];
      shared := shared[h := |cells|];
      cells := cells + [Cell(ptr.obj, hasDeleter, ptr, 1, 1, 0)];
    }

    /** Copy construction; copying an empty handle makes an empty handle. */
    method Copy(t: Tid, src: Hid, dst: Hid)
      requires Inv(Abs()) && t < |pcs| && pcs[t] == Idle && FreshShared(Abs(), dst)
      modifies this
      ensures Inv(Abs())
      ensures Abs() == if src in old(shared) then Next(old(Abs()), CopyShared(t, src, dst)) else old(Abs())
    {
      hide Inv;
      if src in shared {
        StepKeepsInv(Abs(), CopyShared(t, src, dst));
        InvInRange(Abs());
        var c := shared[src];
        cells := cells[c := cells[c].(strong := Inc32(cells[c].strong))];
        shared := shared[dst := c];
      }
    }

    /** Move construction: the reference changes hands, no counter moves. */
    method Move(t: Tid, src: Hid, dst: Hid)
      requires Inv(Abs()) && t < |pcs| && pcs[t] == Idle && dst !in shared
      modifies this
      ensures Inv(Abs())
      ensures Abs() == if src in old(shared) then Next(old(Abs()), MoveShared(t, src, dst)) else old(Abs())
    {
      hide Inv;
      if src in shared {
        StepKeepsInv(Abs(), MoveShared(t, src, dst));
        shared := (shared - {src})[dst := shared[src]];
      }
    }

    /** `if (m_cb->ptr && m_cb->deleter) m_cb->deleter(m_cb->ptr)` */
    method CallDeleter(t: Tid)
      requires Inv(Abs()) && t < |pcs| && pcs[t].Deleting?
      modifies this
      ensures Inv(Abs()) && Abs() == Next(old(Abs()), RunDeleter(t))
      ensures |pcs| == |old(pcs)| && pcs[t] == Clearing(old(pcs)[t].c)
    {
      hide Inv;
      StepKeepsInv(Abs(), RunDeleter(t));
      InvInRange(Abs());
      var c := pcs[t].c;
      if cells[c].ptr.To? && cells[c].hasDeleter {
        var obj := cells[c].ptr.obj;
        deletions := deletions[obj := Deletions(Abs(), obj) + 1];
      }
      pcs := pcs[t := Clearing(c)];
    }

    /** `m_cb->ptr = nullptr` */
    method ClearObject(t: Tid)
      requires Inv(Abs()) && t < |pcs| && pcs[t].Clearing?
      modifies this
      ensures Inv(Abs()) && Abs() == Next(old(Abs()), ClearPtr(t))
      ensures |pcs| == |old(pcs)| && pcs[t] == Dropping(old(pcs)[t].c)
    {
      hide Inv;
      StepKeepsInv(Abs(), ClearPtr(t));
      InvInRange(Abs());
      var c := pcs[t].c;
      cells := cells[c := cells[c].(ptr := Null)];
      pcs := pcs[t := Dropping(c)];
    }

    /** The decrement of SqliteWeakPtr::release on the common weak reference of the shared handles. */
    method DropCommonShare(t: Tid) returns (last: bool)
      requires Inv(Abs()) && t < |pcs| && pcs[t].Dropping?
      modifies this
      ensures Inv(Abs()) && Abs() == Next(old(Abs()), DropShare(t))
      ensures |pcs| == |old(pcs)| && pcs[t] == if last then Freeing(old(pcs)[t].c) else Idle
    {
      hide Inv;
      StepKeepsInv(Abs(), DropShare(t));
      InvInRange(Abs());
      var c := pcs[t].c;
      var weakCount := Dec32(cells[c].weak);
      last := weakCount == 0;
      cells := cells[c := cells[c].(weak := weakCount)];
      pcs := pcs[t := if last then Freeing(c) else Idle];
    }

    /** `sqlite3_free(m_cb)` */
    method Free(t: Tid)
      requires Inv(Abs()) && t < |pcs| && pcs[t].Freeing?
      modifies this
      ensures Inv(Abs()) && Abs() == Next(old(Abs()), FreeBlock(t))
      ensures |pcs| == |old(pcs)| && pcs[t] == Idle
    {
      hide Inv;
      StepKeepsInv(Abs(), FreeBlock(t));
      InvInRange(Abs());
      var c := pcs[t].c;
      cells := cells[c := cells[c].(frees := cells[c].frees + 1)];
      pcs := pcs[t := Idle];
    }

    /** `wp.release()` inside SqliteSharedPtr::release. */
    method ReleaseCommonShare(t: Tid, gaps: seq<seq<Step>>)
      requires Inv(Abs()) && t < |pcs| && pcs[t].Dropping? && Quiet(t, gaps) && |gaps| == 4
      modifies this
      ensures Inv(Abs()) && |pcs| == |old(pcs)| && pcs[t] == Idle
      ensures Abs() == TearDown(old(Abs()), t, gaps[2..])
    {
      hide Inv, TearDown, Run, Next, Quiet, Enabled, InRange, OthersOnly;
      TearDownUnfolds(Abs(), t, gaps, 2);
      Interfere(t, gaps[2]);
      var last := DropCommonShare(t);
      if last {
        TearDownUnfolds(Abs(), t, gaps, 3);
        Interfere(t, gaps[3]);
        Free(t);
        TearDownIdle(Abs(), t, gaps[4..]);
      } else {
        TearDownIdle(Abs(), t, gaps[3..]);
      }
    }

    /** The body of release() once the strong count is 0. */
    method DestroyObject(t: Tid, gaps: seq<seq<Step>>)
      requires Inv(Abs()) && t < |pcs| && pcs[t].Deleting? && Quiet(t, gaps) && |gaps| == 4
      modifies this
      ensures Inv(Abs()) && |pcs| == |old(pcs)| && pcs[t] == Idle
      ensures Abs() == TearDown(old(Abs()), t, gaps)
    {
      hide Inv, TearDown, Run, Next, Quiet, Enabled, InRange, OthersOnly;
      assert gaps[0..] == gaps;
      TearDownUnfolds(Abs(), t, gaps, 0);
      Interfere(t, gaps[0]);
      CallDeleter(t);
      TearDownUnfolds(Abs(), t, gaps, 1);
      Interfere(t, gaps[1]);
      ClearObject(t);
      ReleaseCommonShare(t, gaps);
    }

    /** SqliteSharedPtr::release: the last handle deletes the object, empties the block and drops the
        weak reference the shared handles held together. */
    method Release(t: Tid, h: Hid, gaps: seq<seq<Step>>)
      requires Inv(Abs()) && t < |pcs| && pcs[t] == Idle && Quiet(t, gaps) && |gaps| == 4
      modifies this
      ensures Inv(Abs()) && |pcs| == |old(pcs)| && pcs[t] == Idle
      ensures Abs() == if h in old(shared) then TearDown(Next(old(Abs()), ReleaseShared(t, h)), t, gaps)
                       else old(Abs())
    {
      hide Inv, TearDown, Run, Quiet;
      if h !in shared { return; }
      var c := shared[h];
      StepKeepsInv(Abs(), ReleaseShared(t, h));
      InvInRange(Abs());
      var strong := Dec32(cells[c].strong);
      cells := cells[c := cells[c].(strong := strong)];
      shared := shared - {h};
      if strong == 0 {
        pcs := pcs[t := Deleting(c)];
        assert Abs() == Next(old(Abs()), ReleaseShared(t, h));
        DestroyObject(t, gaps);
      } else {
        TearDownIdle(Abs(), t, gaps);
      }
    }

    /** Copy assignment: nothing happens on self-assignment; otherwise the old reference is released first.
        `dst` must still be free for the copy after the gaps. */
    method CopyAssign(t: Tid, src: Hid, dst: Hid, gaps: seq<seq<Step>>)
      requires Inv(Abs()) && t < |pcs| && pcs[t] == Idle && Quiet(t, gaps) && |gaps| == 4
      requires FreshShared(Released(Abs(), t, dst, gaps), dst)
      modifies this
      ensures Inv(Abs())
      ensures Abs() ==
        var mid := Released(old(Abs()), t, dst, gaps);
        if src == dst then old(Abs())
        else if src in mid.shared && InRange(mid) && Enabled(mid, CopyShared(t, src, dst))
          then Next(mid, CopyShared(t, src, dst))
        else mid
    {
      hide Inv, TearDown, Run, Quiet;
      if src != dst {
        Release(t, dst, gaps);
        InvInRange(Abs());
        Copy(t, src, dst);
      }
    }

    /** Move assignment, again with the check for self-assignment. */
    method MoveAssign(t: Tid, src: Hid, dst: Hid, gaps: seq<seq<Step>>)
      requires Inv(Abs()) && t < |pcs| && pcs[t] == Idle && Quiet(t, gaps) && |gaps| == 4
      requires dst !in Released(Abs(), t, dst, gaps).shared
      modifies this
      ensures Inv(Abs())
      ensures Abs() ==
        var mid := Released(old(Abs()), t, dst, gaps);
        if src == dst then old(Abs())
        else if src in mid.shared && InRange(mid) && Enabled(mid, MoveShared(t, src, dst))
          then Next(mid, MoveShared(t, src, dst))
        else mid
    {
      hide Inv, TearDown, Run, Quiet;
      if src != dst {
        Release(t, dst, gaps);
        InvInRange(Abs());
        Move(t, src, dst);
      }
    }

    /** A weak handle made from a shared handle. */
    method WeakCreate(t: Tid, src: Hid, dst: Hid)
      requires Inv(Abs()) && t < |pcs| && pcs[t] == Idle && FreshWeak(Abs(), dst)
      modifies this
      ensures Inv(Abs())
      ensures Abs() == if src in old(shared) then Next(old(Abs()), WeakFromShared(t, src, dst)) else old(Abs())
    {
      hide Inv;
      if src in shared {
        StepKeepsInv(Abs(), WeakFromShared(t, src, dst));
        InvInRange(Abs());
        var c := shared[src];
        cells := cells[c := cells[c].(weak := Inc32(cells[c].weak))];
        weak := weak[dst := c];
      }
    }

    /** A weak handle copied from a weak handle. */
    method WeakCopy(t: Tid, src: Hid, dst: Hid)
      requires Inv(Abs()) && t < |pcs| && pcs[t] == Idle && FreshWeak(Abs(), dst)
      modifies this
      ensures Inv(Abs())
      ensures Abs() == if src in old(weak) then Next(old(Abs()), CopyWeak(t, src, dst)) else old(Abs())
    {
      hide Inv;
      if src in weak {
        StepKeepsInv(Abs(), CopyWeak(t, src, dst));
        InvInRange(Abs());
        var c := weak[src];
        cells := cells[c := cells[c].(weak := Inc32(cells[c].weak))];
        weak := weak[dst := c];
      }
    }

    /** SqliteWeakPtr::release: whoever takes the weak count to 0 frees the block. */
    method WeakRelease(t: Tid, h: Hid, others: seq<Step>)
      requires Inv(Abs()) && t < |pcs| && pcs[t] == Idle && OthersOnly(t, others) && !Pinned(Abs(), h)
      modifies this
      ensures Inv(Abs()) && |pcs| == |old(pcs)| && pcs[t] == Idle
      ensures h !in old(weak) ==> Abs() == old(Abs())
      ensures h in old(weak) ==>
        var s1 := Next(old(Abs()), ReleaseWeak(t, h));
        if s1.pcs[t] == Idle then Abs() == s1
        else InRange(Run(s1, others)) && Enabled(Run(s1, others), FreeBlock(t))
             && Abs() == Next(Run(s1, others), FreeBlock(t))
    {
      hide Inv, Run, Pinned;
      if h !in weak { return; }
      var c := weak[h];
      StepKeepsInv(Abs(), ReleaseWeak(t, h));
      InvInRange(Abs());
      var weakCount := Dec32(cells[c].weak);
      cells := cells[c := cells[c].(weak := weakCount)];
      weak := weak - {h};
      if weakCount == 0 {
        pcs := pcs[t := Freeing(c)];
        assert Abs() == Next(old(Abs()), ReleaseWeak(t, h));
        Interfere(t, others);
        InvInRange(Abs());
        Free(t);
      }
    }

    /** SqliteWeakPtr::expired: no block, or a strong count of 0. */
    method Expired(h: Hid) returns (r: bool)
      requires Inv(Abs())
      ensures !r <==> h in weak && weak[h] < |cells| && SharedOf(Abs(), weak[h]) != {}
    {
      if h !in weak { return true; }
      CellAt(Abs(), weak[h]);
      r := cells[weak[h]].strong == 0;
    }

    /** SqliteWeakPtr::lock: the CAS loop. `locked` tells whether the returned handle `dst` owns the object. */
    method LockWeak(t: Tid, w: Hid, dst: Hid, schedule: seq<Slice>) returns (locked: bool, finished: bool)
      requires Inv(Abs()) && t < |pcs| && pcs[t] == Idle
      requires w in weak ==> RoomToLock(StepIfEnabled(Abs(), LoadStrong(t, w)), t, dst, schedule)
      modifies this
      ensures Inv(Abs()) && |pcs| == |old(pcs)|
      ensures w !in old(weak) ==> Abs() == old(Abs()) && finished && !locked
      ensures w in old(weak) ==> Abs() == LockRun(StepIfEnabled(old(Abs()), LoadStrong(t, w)), t, dst, schedule)
      ensures if finished then pcs[t] == Idle else pcs[t].Locking?
      ensures locked ==> finished && w in old(weak) && dst in shared && shared[dst] == old(weak)[w]
      ensures finished && w in old(weak) ==>
                old(weak)[w] < |cells| && (locked <==> cells[old(weak)[w]].strong > 0)
    {
      hide Inv, Run, LockRun, RoomToLock;
      locked, finished := false, true;
      if w !in weak { return; }
      ghost var s0 := StepIfEnabled(Abs(), LoadStrong(t, w));
      StepKeepsInv(Abs(), LoadStrong(t, w));
      InvInRange(Abs());
      var c := weak[w];
      pcs := pcs[t := Locking(w, c, cells[c].strong)];
      assert schedule[0..] == schedule;
      var k := 0;
      finished := false;
      while k < |schedule| && !finished
        invariant 0 <= k <= |schedule| && Inv(Abs()) && |pcs| == |old(pcs)|
        invariant if finished then pcs[t] == Idle else pcs[t].Locking? && pcs[t].c == c && pcs[t].w == w
        invariant LockRun(Abs(), t, dst, schedule[k..]) == LockRun(s0, t, dst, schedule)
        invariant !finished ==> RoomToLock(Abs(), t, dst, schedule[k..])
        invariant locked ==> finished && dst in shared && shared[dst] == c
        invariant finished ==> c < |cells| && (locked <==> cells[c].strong > 0)
        decreases |schedule| - k
      {
        LockRunStep(Abs(), t, dst, schedule, k);
        Interfere(t, schedule[k].others);
        locked, finished := TryUpgrade(t, dst, schedule[k].spurious);
        k := k + 1;
      }
      LockRunDone(Abs(), t, dst, schedule[k..]);
    }

    /** One turn of the loop of lock(): the test `current > 0`, then the weak CAS. */
    method TryUpgrade(t: Tid, dst: Hid, spurious: bool) returns (locked: bool, finished: bool)
      requires Inv(Abs()) && t < |pcs| && pcs[t].Locking? && FreshShared(Abs(), dst)
      modifies this
      ensures Inv(Abs()) && |pcs| == |old(pcs)|
      ensures Abs() == StepIfEnabled(old(Abs()), OwnLockStep(old(pcs)[t], t, dst, spurious))
      ensures if finished then pcs[t] == Idle
              else pcs[t].Locking? && pcs[t].c == old(pcs)[t].c && pcs[t].w == old(pcs)[t].w
      ensures locked ==> finished && dst in shared && shared[dst] == old(pcs)[t].c
      ensures finished ==> (locked <==> old(pcs)[t].current > 0)
      ensures finished ==> old(pcs)[t].c < |cells| && (locked <==> cells[old(pcs)[t].c].strong > 0)
    {
      hide Inv;
      StepKeepsInv(Abs(), OwnLockStep(pcs[t], t, dst, spurious));
      InvInRange(Abs());
      ReadZeroIsExpired(Abs(), t);
      var Locking(w, c, current) := pcs[t];
      if current <= 0 {
        pcs := pcs[t := Idle];
        return false, true;
      }
      if cells[c].strong == current && !spurious {
        cells := cells[c := cells[c].(strong := current + 1)];
        shared := shared[dst := c];
        pcs := pcs[t := Idle];
        return true, true;
      }
      pcs := pcs[t := Locking(w, c, cells[c].strong)];
      return false, false;
    }
  }

  /** A thread inside lock() that has read 0 or less works on an expired object. */
  lemma ReadZeroIsExpired(s: State, t: Tid)
    requires Inv(s) && t < |s.pcs| && s.pcs[t].Locking?
    ensures s.pcs[t].c < |s.cells| && (s.pcs[t].current <= 0 ==> s.cells[s.pcs[t].c].strong == 0)
  {
    hide CellsInv, ObjectsApart, DeletedAtMostOnce;
    OneLocker(s, t);
  }

  lemma LockRunDone(s: State, t: Tid, dst: Hid, schedule: seq<Slice>)
    requires schedule == [] || (t < |s.pcs| && !s.pcs[t].Locking?)
    ensures LockRun(s, t, dst, schedule) == s
  {
  }

  /** The state after release() of a handle that may be empty. */
  function Released(s: State, t: Tid, h: Hid, gaps: seq<seq<Step>>): State {
    if InRange(s) && Enabled(s, ReleaseShared(t, h)) then TearDown(Next(s, ReleaseShared(t, h)), t, gaps) else s
  }

  lemma InvInRange(s: State)
    requires Inv(s)
    ensures InRange(s)
  {
  }

  lemma TearDownIdle(s: State, t: Tid, gaps: seq<seq<Step>>)
    requires t < |s.pcs| && s.pcs[t] == Idle
    ensures TearDown(s, t, gaps) == s
  {
  }

  lemma TearDownUnfolds(s: State, t: Tid, gaps: seq<seq<Step>>, k: nat)
    requires Inv(s) && k < |gaps| && t < |s.pcs| && InTearDown(s.pcs[t]) && Quiet(t, gaps)
    ensures OthersOnly(t, gaps[k])
    ensures var mid := Run(s, gaps[k]);
            && InRange(mid) && Enabled(mid, TearDownStep(s.pcs[t], t))
            && TearDown(s, t, gaps[k..]) == TearDown(Next(mid, TearDownStep(s.pcs[t], t)), t, gaps[k + 1..])
  {
    hide Inv, Enabled, Next, Run, InRange;
    RunKeepsInv(s, gaps[k]);
    OthersKeepPc(s, t, gaps[k]);
    OwnTearDown(Run(s, gaps[k]), t);
    assert gaps[k..][0] == gaps[k] && gaps[k..][1..] == gaps[k + 1..];
  }
}

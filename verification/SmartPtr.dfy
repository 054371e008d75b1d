/** SqliteSharedPtr and SqliteWeakPtr as a protocol. Threads copy, move, release, weaken and lock handles;
    every atomic operation, every call of the deleter and every free is one step, and the steps of
    different threads interleave in any order. */
module SmartPtrProtocol {
  import opened Wrappers

  type Tid = nat
  type Hid = nat     // a handle, i.e. one SqliteSharedPtr or SqliteWeakPtr object
  type Block = nat   // a control block
  type Obj = nat     // a managed object

  const INT32_MAX := 0x7fff_ffff

  /** sqlite_atomic_increment_32 and sqlite_atomic_decrement_32 on an `int` wrap around. */
  function Inc32(x: int): int { if x == INT32_MAX then -INT32_MAX - 1 else x + 1 }

  function Dec32(x: int): int { if x == -INT32_MAX - 1 then INT32_MAX else x - 1 }

  /** `T *ptr` of the control block. */
  datatype Ptr = Null | To(obj: Obj)

  /** SqlitePtrControlBlock, with the object it was made for and how often it has been freed. */
  datatype Cell = Cell(obj: Obj, hasDeleter: bool, ptr: Ptr, strong: int, weak: int, frees: nat)

  /** What a thread is in the middle of. */
  datatype Pc =
    | Idle
    | Deleting(c: Block)   // strong reached 0, the deleter is still to be called
    | Clearing(c: Block)   // m_cb->ptr = nullptr is still to be done
    | Dropping(c: Block)   // the weak share of the strong handles is still to be dropped
    | Freeing(c: Block)    // weak reached 0, sqlite3_free is still to be called
    | Locking(w: Hid, c: Block, current: int)  // in the CAS loop of lock()

  datatype State = State(
    cells: seq<Cell>,
    shared: map<Hid, Block>,     // the non-empty shared handles
    weak: map<Hid, Block>,       // the non-empty weak handles
    pcs: seq<Pc>,
    deletions: map<Obj, nat>)    // every object ever handed to a constructor: how often it was deleted

  datatype Step =
    | Construct(t: Tid, h: Hid, obj: Obj, hasDeleter: bool, blockAllocated: bool)
    | CopyShared(t: Tid, src: Hid, dst: Hid)
    | MoveShared(t: Tid, src: Hid, dst: Hid)
    | ReleaseShared(t: Tid, h: Hid)
    | RunDeleter(t: Tid)
    | ClearPtr(t: Tid)
    | DropShare(t: Tid)
    | FreeBlock(t: Tid)
    | WeakFromShared(t: Tid, src: Hid, dst: Hid)
    | CopyWeak(t: Tid, src: Hid, dst: Hid)
    | MoveWeak(t: Tid, src: Hid, dst: Hid)
    | ReleaseWeak(t: Tid, h: Hid)
    | LoadStrong(t: Tid, w: Hid)
    | LockCas(t: Tid, spurious: bool, dst: Hid)
    | LockEmpty(t: Tid)

  function Init(threads: nat): State {
    State([], map[], map[], seq(threads, i => Idle), map[])
  }

  // ---------------------------------------------------------------- the steps

  function SetCell(s: State, c: Block, cell: Cell): State
    requires c < |s.cells|
  {
    s.(cells := s.cells[c := cell])
  }

  function SetPc(s: State, t: Tid, pc: Pc): State
    requires t < |s.pcs|
  {
    s.(pcs := s.pcs[t := pc])
  }

  function PutShared(s: State, h: Hid, c: Block): State { s.(shared := s.shared[h := c]) }

  function TakeShared(s: State, h: Hid): State { s.(shared := s.shared - {h}) }

  function PutWeak(s: State, h: Hid, c: Block): State { s.(weak := s.weak[h := c]) }

  function TakeWeak(s: State, h: Hid): State { s.(weak := s.weak - {h}) }

  function Deletions(s: State, obj: Obj): nat { if obj in s.deletions then s.deletions[obj] else 0 }

  function CountDeletion(s: State, obj: Obj): State {
    s.(deletions := s.deletions[obj := Deletions(s, obj) + 1])
  }

  /** A weak handle is not destroyed or moved from while a thread is inside lock() on it. */
  predicate Pinned(s: State, h: Hid) {
    exists t | 0 <= t < |s.pcs| :: s.pcs[t].Locking? && s.pcs[t].w == h
  }

  /** The run hypothesis on the width of the counters. */
  predicate RoomForHandle(s: State) {
    |s.shared| + |s.weak| < INT32_MAX - 1
  }

  predicate FreshShared(s: State, h: Hid) { h !in s.shared && RoomForHandle(s) }

  predicate FreshWeak(s: State, h: Hid) { h !in s.weak && RoomForHandle(s) }

  /** Handles are used by one thread at a time, and a new object is managed at most once. */
  predicate Enabled(s: State, step: Step) {
    step.t < |s.pcs| &&
    match step
    case Construct(t, h, obj, _, _) => s.pcs[t] == Idle && FreshShared(s, h) && obj !in s.deletions
    case CopyShared(t, src, dst) => s.pcs[t] == Idle && src in s.shared && FreshShared(s, dst)
    case MoveShared(t, src, dst) => s.pcs[t] == Idle && src in s.shared && dst !in s.shared
    case ReleaseShared(t, h) => s.pcs[t] == Idle && h in s.shared
    case RunDeleter(t) => s.pcs[t].Deleting?
    case ClearPtr(t) => s.pcs[t].Clearing?
    case DropShare(t) => s.pcs[t].Dropping?
    case FreeBlock(t) => s.pcs[t].Freeing?
    case WeakFromShared(t, src, dst) => s.pcs[t] == Idle && src in s.shared && FreshWeak(s, dst)
    case CopyWeak(t, src, dst) => s.pcs[t] == Idle && src in s.weak && FreshWeak(s, dst)
    case MoveWeak(t, src, dst) => s.pcs[t] == Idle && src in s.weak && dst !in s.weak && !Pinned(s, src)
    case ReleaseWeak(t, h) => s.pcs[t] == Idle && h in s.weak && !Pinned(s, h)
    case LoadStrong(t, w) => s.pcs[t] == Idle && w in s.weak
    case LockCas(t, _, dst) => s.pcs[t].Locking? && s.pcs[t].current > 0 && FreshShared(s, dst)
    case LockEmpty(t) => s.pcs[t].Locking? && s.pcs[t].current <= 0
  }

  /** The control block a step reads or writes, if there is one. */
  function Touches(s: State, step: Step): Option<Block>
    requires Enabled(s, step)
  {
    match step
    case Construct(_, _, _, _, _) => None
    case CopyShared(_, src, _) => Some(s.shared[src])
    case MoveShared(_, src, _) => None
    case ReleaseShared(_, h) => Some(s.shared[h])
    case RunDeleter(t) => Some(s.pcs[t].c)
    case ClearPtr(t) => Some(s.pcs[t].c)
    case DropShare(t) => Some(s.pcs[t].c)
    case FreeBlock(t) => Some(s.pcs[t].c)
    case WeakFromShared(_, src, _) => Some(s.shared[src])
    case CopyWeak(_, src, _) => Some(s.weak[src])
    case MoveWeak(_, src, _) => None
    case ReleaseWeak(_, h) => Some(s.weak[h])
    case LoadStrong(_, w) => Some(s.weak[w])
    case LockCas(t, _, _) => Some(s.pcs[t].c)
    case LockEmpty(t) => None
  }

  predicate InRange(s: State) {
    && (forall h | h in s.shared :: s.shared[h] < |s.cells|)
    && (forall h | h in s.weak :: s.weak[h] < |s.cells|)
    && (forall t | 0 <= t < |s.pcs| && s.pcs[t] != Idle :: s.pcs[t].c < |s.cells|)
  }

  function Next(s: State, step: Step): State
    requires InRange(s) && Enabled(s, step)
  {
    match step
    case Construct(t, h, obj, hasDeleter, blockAllocated) =>
      if blockAllocated then
        var c := |s.cells|;
        PutShared(s.(cells := s.cells + [Cell(obj, hasDeleter, To(obj), 1, 1, 0)],
                     deletions := s.deletions[obj := 0]), h, c)
      else
        s.(deletions := s.deletions[obj := if hasDeleter then 1 else 0])
    case CopyShared(t, src, dst) =>
      var c := s.shared[src];
      PutShared(SetCell(s, c, s.cells[c].(strong := Inc32(s.cells[c].strong))), dst, c)
    case MoveShared(t, src, dst) =>
      PutShared(TakeShared(s, src), dst, s.shared[src])
    case ReleaseShared(t, h) =>
      var c := s.shared[h];
      var strong := Dec32(s.cells[c].strong);
      var s1 := TakeShared(SetCell(s, c, s.cells[c].(strong := strong)), h);
      if strong == 0 then SetPc(s1, t, Deleting(c)) else s1
    case RunDeleter(t) =>
      var c := s.pcs[t].c;
      var cell := s.cells[c];
      var s1 := if cell.ptr.To? && cell.hasDeleter then CountDeletion(s, cell.ptr.obj) else s;
      SetPc(s1, t, Clearing(c))
    case ClearPtr(t) =>
      var c := s.pcs[t].c;
      SetPc(SetCell(s, c, s.cells[c].(ptr := Null)), t, Dropping(c))
    case DropShare(t) =>
      var c := s.pcs[t].c;
      var weak := Dec32(s.cells[c].weak);
      SetPc(SetCell(s, c, s.cells[c].(weak := weak)), t, if weak == 0 then Freeing(c) else Idle)
    case FreeBlock(t) =>
      var c := s.pcs[t].c;
      SetPc(SetCell(s, c, s.cells[c].(frees := s.cells[c].frees + 1)), t, Idle)
    case WeakFromShared(t, src, dst) =>
      var c := s.shared[src];
      PutWeak(SetCell(s, c, s.cells[c].(weak := Inc32(s.cells[c].weak))), dst, c)
    case CopyWeak(t, src, dst) =>
      var c := s.weak[src];
      PutWeak(SetCell(s, c, s.cells[c].(weak := Inc32(s.cells[c].weak))), dst, c)
    case MoveWeak(t, src, dst) =>
      PutWeak(TakeWeak(s, src), dst, s.weak[src])
    case ReleaseWeak(t, h) =>
      var c := s.weak[h];
      var weak := Dec32(s.cells[c].weak);
      var s1 := TakeWeak(SetCell(s, c, s.cells[c].(weak := weak)), h);
      if weak == 0 then SetPc(s1, t, Freeing(c)) else s1
    case LoadStrong(t, w) =>
      var c := s.weak[w];
      SetPc(s, t, Locking(w, c, s.cells[c].strong))
    case LockCas(t, spurious, dst) =>
      var Locking(w, c, current) := s.pcs[t];
      var strong := s.cells[c].strong;
      if strong == current && !spurious then
        SetPc(PutShared(SetCell(s, c, s.cells[c].(strong := current + 1)), dst, c), t, Idle)
      else
        SetPc(s, t, Locking(w, c, strong))
    case LockEmpty(t) =>
      SetPc(s, t, Idle)
  }
}

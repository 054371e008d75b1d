/** sqlite3_tiny_lock as a protocol: any number of threads, one atomic operation at a time, in any order.
    `Native` is the test-and-test-and-set spinlock, `Wasm` the lock whose contenders sleep in wait32 and
    are woken one at a time by notify. */
module TinyLockProtocol {
  import opened Wrappers

  type Tid = nat

  datatype Platform = Native | Wasm

  /** Where a thread is in lock, try_lock or unlock. */
  datatype Pc =
    | Idle
    | Acquiring   // in lock(), about to execute the weak CAS
    | Pausing     // the CAS failed: in the inner read loop (native) or about to call wait32 (wasm)
    | Asleep      // inside wait32
    | Critical    // holds the lock
    | Notifying   // has stored 0, has not notified yet

  datatype State = State(word: int, pcs: seq<Pc>)

  datatype Step =
    | StartLock(t: Tid)
    | CasWeak(t: Tid, spurious: bool)
    | Relax(t: Tid)
    | TryLock(t: Tid)
    | Unlock(t: Tid)
    | Notify(t: Tid, woken: Option<Tid>)

  function Init(threads: nat): State {
    State(0, seq(threads, i => Idle))
  }

  predicate At(s: State, t: Tid, pc: Pc) {
    t < |s.pcs| && s.pcs[t] == pc
  }

  function Goto(s: State, t: Tid, pc: Pc): State
    requires t < |s.pcs|
  {
    s.(pcs := s.pcs[t := pc])
  }

  predicate Enabled(p: Platform, s: State, step: Step) {
    match step
    case StartLock(t) => At(s, t, Idle)
    case CasWeak(t, _) => At(s, t, Acquiring)
    case Relax(t) => At(s, t, Pausing)
    case TryLock(t) => At(s, t, Idle)
    case Unlock(t) => At(s, t, Critical)
    case Notify(t, None) => At(s, t, Notifying) && forall u | 0 <= u < |s.pcs| :: s.pcs[u] != Asleep
    case Notify(t, Some(u)) => At(s, t, Notifying) && At(s, u, Asleep)
  }

  function Next(p: Platform, s: State, step: Step): State
    requires step.t < |s.pcs| && (step.Notify? && step.woken.Some? ==> step.woken.value < |s.pcs|)
  {
    match step
    case StartLock(t) => Goto(s, t, Acquiring)
    case CasWeak(t, spurious) =>
      if s.word == 0 && !spurious then Goto(s.(word := 1), t, Critical) else Goto(s, t, Pausing)
    case Relax(t) =>
      if s.word != 1 then Goto(s, t, Acquiring)
      else if p == Wasm then Goto(s, t, Asleep)
      else s
    case TryLock(t) =>
      if s.word == 0 then Goto(s.(word := 1), t, Critical) else s
    case Unlock(t) =>
      Goto(s.(word := 0), t, if p == Wasm then Notifying else Idle)
    case Notify(t, None) => Goto(s, t, Idle)
    case Notify(t, Some(u)) => Goto(Goto(s, u, Acquiring), t, Idle)
  }

  /** A scheduled step that is not enabled when its turn comes is skipped. */
  function StepIfEnabled(p: Platform, s: State, step: Step): State {
    if Enabled(p, s, step) then Next(p, s, step) else s
  }

  function Run(p: Platform, s: State, steps: seq<Step>): State
    decreases |steps|
  {
    if steps == [] then s else Run(p, StepIfEnabled(p, s, steps[0]), steps[1..])
  }

  // ---------------------------------------------------------------- the invariant

  /** At most one thread is in the critical section, and the word is 1 exactly while one is. */
  ghost predicate Exclusive(s: State) {
    && (s.word == 0 || s.word == 1)
    && (forall t, u :: At(s, t, Critical) && At(s, u, Critical) ==> t == u)
    && (s.word == 1 <==> exists t :: At(s, t, Critical))
  }

  ghost predicate SomeoneAt(s: State, pc: Pc) {
    exists t :: At(s, t, pc)
  }

  /** Whenever a thread sleeps, somebody is on the way to waking it: the lock is held, an unlocker has yet
      to notify, or another contender is awake in the acquire loop. */
  ghost predicate NoLostWakeup(s: State) {
    SomeoneAt(s, Asleep) ==>
      s.word == 1 || SomeoneAt(s, Notifying) || SomeoneAt(s, Acquiring) || SomeoneAt(s, Pausing)
  }

  ghost predicate NativeNeverSleeps(p: Platform, s: State) {
    p == Native ==> !SomeoneAt(s, Asleep) && !SomeoneAt(s, Notifying)
  }

  ghost predicate Inv(p: Platform, s: State) {
    Exclusive(s) && NoLostWakeup(s) && NativeNeverSleeps(p, s)
  }

  lemma StepKeepsExclusive(p: Platform, s: State, step: Step)
    requires Inv(p, s) && Enabled(p, s, step)
    ensures Exclusive(Next(p, s, step))
  {
    hide NoLostWakeup, NativeNeverSleeps;
    var s' := Next(p, s, step);
    forall u, q | step.t != u && (step.Notify? && step.woken.Some? ==> step.woken.value != u)
      ensures At(s', u, q) <==> At(s, u, q)
    {
    }
    match step
    case CasWeak(t, spurious) =>
      if s.word == 0 && !spurious { assert At(s', t, Critical); }
      else { SameCritical(s, s', t); }
    case TryLock(t) =>
      if s.word == 0 { assert At(s', t, Critical); }
    case Unlock(t) =>
    case StartLock(t) => SameCritical(s, s', t);
    case Relax(t) => SameCritical(s, s', t);
    case Notify(t, None) => SameCritical(s, s', t);
    case Notify(t, Some(v)) =>
      SameCritical(s, Goto(s, v, Acquiring), v);
      SameCritical(Goto(s, v, Acquiring), s', t);
  }

  lemma SameCritical(s: State, s': State, t: Tid)
    requires s'.word == s.word && !At(s, t, Critical) && !At(s', t, Critical)
    requires forall u, q :: u != t ==> (At(s', u, q) <==> At(s, u, q))
    requires Exclusive(s)
    ensures Exclusive(s')
  {
    if s.word == 1 {
      var w :| At(s, w, Critical);
      assert At(s', w, Critical);
    }
  }

  lemma StepKeepsWakeups(p: Platform, s: State, step: Step)
    requires Inv(p, s) && Enabled(p, s, step)
    ensures NoLostWakeup(Next(p, s, step))
  {
    hide NativeNeverSleeps;
    var s' := Next(p, s, step);
    match step
    case StartLock(t) => assert At(s', t, Acquiring);
    case CasWeak(t, spurious) =>
      if s.word != 0 || spurious { assert At(s', t, Pausing); }
    case Relax(t) =>
      if s.word != 1 { assert At(s', t, Acquiring); }
    case TryLock(t) =>
    case Unlock(t) =>
      if p == Wasm { assert At(s', t, Notifying); }
      else { NativeStaysAwake(p, s, step); }
    case Notify(t, None) =>
      assert forall u :: At(s', u, Asleep) ==> At(s, u, Asleep);
      assert forall u :: !At(s, u, Asleep);
    case Notify(t, Some(u)) => assert At(s', u, Acquiring);
  }

  lemma NativeStaysAwake(p: Platform, s: State, step: Step)
    requires NativeNeverSleeps(p, s) && Enabled(p, s, step)
    ensures NativeNeverSleeps(p, Next(p, s, step))
  {
    var s' := Next(p, s, step);
    if p == Native {
      assert forall u, q | q == Asleep || q == Notifying :: At(s', u, q) ==> At(s, u, q);
    }
  }

  lemma StepKeepsInv(p: Platform, s: State, step: Step)
    requires Inv(p, s)
    ensures Inv(p, StepIfEnabled(p, s, step))
  {
    hide Exclusive, NoLostWakeup, NativeNeverSleeps, Next, Enabled;
    if Enabled(p, s, step) {
      StepKeepsExclusive(p, s, step);
      StepKeepsWakeups(p, s, step);
      NativeStaysAwake(p, s, step);
    }
  }

  lemma {:induction false} RunKeepsInv(p: Platform, s: State, steps: seq<Step>)
    requires Inv(p, s)
    ensures Inv(p, Run(p, s, steps))
    decreases |steps|
  {
    hide Inv, StepIfEnabled;
    if steps != [] {
      StepKeepsInv(p, s, steps[0]);
      RunKeepsInv(p, StepIfEnabled(p, s, steps[0]), steps[1..]);
    }
  }

  lemma InitInv(p: Platform, threads: nat)
    ensures Inv(p, Init(threads))
  {
    assert forall t, q :: At(Init(threads), t, q) ==> q == Idle;
  }

  /** Every schedule of every number of threads, with spurious CAS failures and barging try_locks:
      mutual exclusion holds and no wakeup is lost. */
  lemma LockIsSafe(p: Platform, threads: nat, steps: seq<Step>)
    ensures Exclusive(Run(p, Init(threads), steps))
    ensures NoLostWakeup(Run(p, Init(threads), steps))
  {
    hide Exclusive, NoLostWakeup, NativeNeverSleeps;
    InitInv(p, threads);
    RunKeepsInv(p, Init(threads), steps);
  }

  // ---------------------------------------------------------------- every waiter can still get the lock

  predicate Waiting(s: State, t: Tid) {
    At(s, t, Acquiring) || At(s, t, Pausing) || At(s, t, Asleep)
  }

  /** No thread outside the lock calls lock or try_lock. */
  predicate NoNewcomers(steps: seq<Step>) {
    forall i | 0 <= i < |steps| :: !steps[i].StartLock? && !steps[i].TryLock?
  }

  /** `steps` is what remains to be done after `step`. */
  lemma Prepend(p: Platform, s: State, step: Step, rest: seq<Step>)
    ensures Run(p, s, [step] + rest) == Run(p, StepIfEnabled(p, s, step), rest)
  {
    assert ([step] + rest)[1..] == rest;
  }

  lemma AwakeAcquiresFree(p: Platform, s: State, t: Tid) returns (steps: seq<Step>)
    requires s.word == 0 && (At(s, t, Acquiring) || At(s, t, Pausing))
    ensures At(Run(p, s, steps), t, Critical)
    ensures NoNewcomers(steps)
  {
    var cas := CasWeak(t, false);
    if At(s, t, Acquiring) {
      steps := [cas];
      Prepend(p, s, cas, []);
    } else {
      var s' := StepIfEnabled(p, s, Relax(t));
      Prepend(p, s, Relax(t), [cas]);
      Prepend(p, s', cas, []);
      steps := [Relax(t)] + [cas];
    }
  }

  lemma SleeperAcquiresByNotify(p: Platform, s: State, t: Tid, u: Tid) returns (steps: seq<Step>)
    requires s.word == 0 && At(s, t, Asleep) && At(s, u, Notifying)
    ensures At(Run(p, s, steps), t, Critical)
    ensures NoNewcomers(steps)
  {
    var wake := Notify(u, Some(t));
    var rest := AwakeAcquiresFree(p, StepIfEnabled(p, s, wake), t);
    Prepend(p, s, wake, rest);
    steps := [wake] + rest;
  }

  lemma SleeperAcquiresAfterUnlock(s: State, t: Tid, u: Tid) returns (steps: seq<Step>)
    requires At(s, t, Asleep) && At(s, u, Critical)
    ensures At(Run(Wasm, s, steps), t, Critical)
    ensures NoNewcomers(steps)
  {
    var s' := StepIfEnabled(Wasm, s, Unlock(u));
    var rest := SleeperAcquiresByNotify(Wasm, s', t, u);
    Prepend(Wasm, s, Unlock(u), rest);
    steps := [Unlock(u)] + rest;
  }

  lemma SleeperAcquiresAfterContender(s: State, t: Tid, c: Tid) returns (steps: seq<Step>)
    requires s.word == 0 && At(s, t, Asleep) && At(s, c, Acquiring)
    ensures At(Run(Wasm, s, steps), t, Critical)
    ensures NoNewcomers(steps)
  {
    var cas := CasWeak(c, false);
    var rest := SleeperAcquiresAfterUnlock(StepIfEnabled(Wasm, s, cas), t, c);
    Prepend(Wasm, s, cas, rest);
    steps := [cas] + rest;
  }

  /** From every reachable state, every thread that waits for the lock, asleep or not, has a schedule in
      which it gets the lock: nobody is ever stranded. */
  lemma WaiterCanAcquire(p: Platform, s: State, t: Tid) returns (steps: seq<Step>)
    requires Inv(p, s) && Waiting(s, t)
    ensures At(Run(p, s, steps), t, Critical)
    ensures NoNewcomers(steps)
  {
    hide Run;
    if At(s, t, Asleep) {
      assert SomeoneAt(s, Asleep) && p == Wasm;
      if s.word == 1 {
        var w :| At(s, w, Critical);
        steps := SleeperAcquiresAfterUnlock(s, t, w);
      } else if SomeoneAt(s, Notifying) {
        var u :| At(s, u, Notifying);
        steps := SleeperAcquiresByNotify(p, s, t, u);
      } else if SomeoneAt(s, Acquiring) {
        var c :| At(s, c, Acquiring);
        steps := SleeperAcquiresAfterContender(s, t, c);
      } else {
        var c :| At(s, c, Pausing);
        var rest := SleeperAcquiresAfterContender(StepIfEnabled(p, s, Relax(c)), t, c);
        Prepend(p, s, Relax(c), rest);
        steps := [Relax(c)] + rest;
      }
    } else if s.word == 1 {
      var w :| At(s, w, Critical);
      var rest := AwakeAcquiresFree(p, StepIfEnabled(p, s, Unlock(w)), t);
      Prepend(p, s, Unlock(w), rest);
      steps := [Unlock(w)] + rest;
    } else {
      steps := AwakeAcquiresFree(p, s, t);
    }
  }

  /** Without a witness of `NoLostWakeup` nothing can happen any more, unless a newcomer arrives. */
  lemma {:induction false} StrandedForever(s: State, steps: seq<Step>)
    requires Exclusive(s) && !NoLostWakeup(s) && NoNewcomers(steps)
    ensures Run(Wasm, s, steps) == s
    decreases |steps|
  {
    if steps != [] {
      assert s.word == 0 && !At(s, steps[0].t, Critical);
      assert !Enabled(Wasm, s, steps[0]);
      StrandedForever(s, steps[1..]);
    }
  }

  /** `NoLostWakeup` is exactly the condition under which the threads already inside the protocol can
      still bring a sleeper into the critical section. */
  lemma SleeperIsRescuedIffNoLostWakeup(s: State, t: Tid)
    requires Exclusive(s) && At(s, t, Asleep)
    ensures NoLostWakeup(s) <==> exists steps :: NoNewcomers(steps) && At(Run(Wasm, s, steps), t, Critical)
  {
    if NoLostWakeup(s) {
      var steps := WaiterCanAcquire(Wasm, s, t);
    } else {
      forall steps | NoNewcomers(steps)
        ensures !At(Run(Wasm, s, steps), t, Critical)
      {
        StrandedForever(s, steps);
      }
    }
  }

  // ---------------------------------------------------------------- one call of lock()

  /** What happens around one operation of a thread: the steps other threads get in first, and whether
      the thread's own weak CAS fails spuriously. */
  datatype Slice = Slice(others: seq<Step>, spurious: bool)

  predicate OthersOnly(t: Tid, steps: seq<Step>) {
    forall i | 0 <= i < |steps| :: steps[i].t != t
  }

  /** Other threads' steps leave a thread where it is, unless it sleeps and is woken. */
  lemma {:induction false} OthersKeepPc(p: Platform, s: State, t: Tid, steps: seq<Step>)
    requires t < |s.pcs| && OthersOnly(t, steps)
    ensures |Run(p, s, steps).pcs| == |s.pcs|
    ensures Run(p, s, steps).pcs[t] == s.pcs[t]
            || (s.pcs[t] == Asleep && Run(p, s, steps).pcs[t] == Acquiring)
    decreases |steps|
  {
    if steps != [] {
      var s' := StepIfEnabled(p, s, steps[0]);
      assert s'.pcs[t] == s.pcs[t] || (s.pcs[t] == Asleep && s'.pcs[t] == Acquiring);
      OthersKeepPc(p, s', t, steps[1..]);
    }
  }

  /** The operation of lock() a thread performs at its current program counter. */
  function OwnStep(p: Platform, before: State, s: State, t: Tid, spurious: bool): State {
    if At(before, t, Acquiring) then StepIfEnabled(p, s, CasWeak(t, spurious))
    else if At(before, t, Pausing) then StepIfEnabled(p, s, Relax(t))
    else s
  }

  /** lock() by thread `t` under a schedule: it ends when the lock is acquired or the schedule is used up. */
  function LockRun(p: Platform, s: State, t: Tid, schedule: seq<Slice>): State
    decreases |schedule|
  {
    if schedule == [] || At(s, t, Critical) then s
    else LockRun(p, OwnStep(p, s, Run(p, s, schedule[0].others), t, schedule[0].spurious), t, schedule[1..])
  }

  /** The call, cut off anywhere, is a run of the protocol; it ends holding the lock or still waiting for it. */
  lemma {:induction false} LockRunIsSafe(p: Platform, s: State, t: Tid, schedule: seq<Slice>)
    requires Inv(p, s) && (Waiting(s, t) || At(s, t, Critical))
    requires forall i | 0 <= i < |schedule| :: OthersOnly(t, schedule[i].others)
    ensures Inv(p, LockRun(p, s, t, schedule))
    ensures Waiting(LockRun(p, s, t, schedule), t) || At(LockRun(p, s, t, schedule), t, Critical)
    decreases |schedule|
  {
    hide Inv;
    if schedule != [] && !At(s, t, Critical) {
      var mid := Run(p, s, schedule[0].others);
      RunKeepsInv(p, s, schedule[0].others);
      OthersKeepPc(p, s, t, schedule[0].others);
      StepKeepsInv(p, mid, CasWeak(t, schedule[0].spurious));
      StepKeepsInv(p, mid, Relax(t));
      LockRunIsSafe(p, OwnStep(p, s, mid, t, schedule[0].spurious), t, schedule[1..]);
    }
  }
}

/** The lock word and the threads around it, updated in place by the atomic operations of
    sqlite3_tiny_lock.h. */
module TinyLock {
  import opened Wrappers
  import opened TinyLockProtocol

  class Lock {
    const platform: Platform
    var word: int
    var pcs: seq<Pc>

    constructor (platform: Platform, threads: nat)
      ensures this.platform == platform && Abs() == Init(threads)
      ensures Inv(platform, Abs())
    {
      this.platform := platform;
      word := 0;
      pcs := seq(threads, i => Idle);
      InitInv(platform, threads);
    }

    function Abs(): State
      reads this
    {
      State(word, pcs)
    }

    method Set(s: State)
      modifies this
      ensures Abs() == s
    {
      word, pcs := s.word, s.pcs;
    }

    /** The steps other threads get in between two operations of thread `t`. */
    method Interfere(ghost t: Tid, others: seq<Step>)
      requires Inv(platform, Abs()) && OthersOnly(t, others)
      modifies this
      ensures Abs() == Run(platform, old(Abs()), others) && Inv(platform, Abs())
      ensures t < |old(pcs)| ==>
                |pcs| == |old(pcs)|
                && (pcs[t] == old(pcs)[t] || (old(pcs)[t] == Asleep && pcs[t] == Acquiring))
    {
      ghost var s0 := Abs();
      var k := 0;
      while k < |others|
        invariant 0 <= k <= |others|
        invariant Run(platform, Abs(), others[k..]) == Run(platform, s0, others)
      {
        assert others[k..][1..] == others[k + 1..] && others[k..][0] == others[k];
        Set(StepIfEnabled(platform, Abs(), others[k]));
        k := k + 1;
      }
      RunKeepsInv(platform, s0, others);
      if t < |s0.pcs| {
        OthersKeepPc(platform, s0, t, others);
      }
    }

    /** compare_exchange(&state, 0, 1); the weak form may fail spuriously. */
    method CompareExchange(t: Tid, spurious: bool) returns (ok: bool)
      requires Inv(platform, Abs()) && At(Abs(), t, Acquiring)
      modifies this
      ensures Abs() == StepIfEnabled(platform, old(Abs()), CasWeak(t, spurious)) && Inv(platform, Abs())
      ensures ok <==> At(Abs(), t, Critical)
      ensures !ok ==> At(Abs(), t, Pausing)
    {
      StepKeepsInv(platform, Abs(), CasWeak(t, spurious));
      if word == 0 && !spurious {
        word := 1;
        pcs := pcs[t := Critical];
        return true;
      }
      pcs := pcs[t := Pausing];
      return false;
    }

    /** SQLITE_CPU_RELAX on wasm: wait32(&state, 1, -1) sleeps only if the word still is 1. */
    method Wait32(t: Tid)
      requires platform == Wasm && Inv(platform, Abs()) && At(Abs(), t, Pausing)
      modifies this
      ensures Abs() == StepIfEnabled(platform, old(Abs()), Relax(t)) && Inv(platform, Abs())
    {
      StepKeepsInv(platform, Abs(), Relax(t));
      pcs := pcs[t := if word == 1 then Asleep else Acquiring];
    }

    /** One LOAD of the native read loop. */
    method SpinRead(t: Tid) returns (w: int)
      requires platform == Native && Inv(platform, Abs()) && At(Abs(), t, Pausing)
      modifies this
      ensures Abs() == StepIfEnabled(platform, old(Abs()), Relax(t)) && Inv(platform, Abs())
      ensures w == word && (w == 1 <==> At(Abs(), t, Pausing))
    {
      StepKeepsInv(platform, Abs(), Relax(t));
      w := word;
      if w != 1 {
        pcs := pcs[t := Acquiring];
      }
    }

    /** sqlite3_tiny_lock_lock: the outer CAS loop around the wait (wasm) or the read loop (native). */
    method Acquire(t: Tid, schedule: seq<Slice>) returns (acquired: bool)
      requires Inv(platform, Abs()) && At(Abs(), t, Idle)
      requires forall i | 0 <= i < |schedule| :: OthersOnly(t, schedule[i].others)
      modifies this
      ensures Abs() == LockRun(platform, StepIfEnabled(platform, old(Abs()), StartLock(t)), t, schedule)
      ensures Inv(platform, Abs())
      ensures acquired <==> At(Abs(), t, Critical)
      ensures !acquired ==> Waiting(Abs(), t)
    {
      StepKeepsInv(platform, Abs(), StartLock(t));
      pcs := pcs[t := Acquiring];
      ghost var s0 := Abs();
      LockRunIsSafe(platform, s0, t, schedule);
      var k := 0;
      acquired := false;
      while k < |schedule| && !acquired
        invariant 0 <= k <= |schedule| && Inv(platform, Abs())
        invariant LockRun(platform, Abs(), t, schedule[k..]) == LockRun(platform, s0, t, schedule)
        invariant acquired <==> At(Abs(), t, Critical)
        invariant !acquired && k < |schedule| ==> At(Abs(), t, Acquiring)
        decreases |schedule| - k
      {
        LockRunStep(platform, Abs(), t, schedule, k);
        Interfere(t, schedule[k].others);
        acquired := CompareExchange(t, schedule[k].spurious);
        k := k + 1;
        if !acquired {
          if platform == Wasm {
            k := WaitUntilWoken(t, schedule, k);
          } else {
            k := SpinUntilFree(t, schedule, k);
          }
        }
      }
    }

    /** The wait of the wasm branch: wait32, then sleep until woken. */
    method WaitUntilWoken(t: Tid, schedule: seq<Slice>, k0: nat) returns (k: nat)
      requires platform == Wasm && k0 <= |schedule| && Inv(platform, Abs()) && At(Abs(), t, Pausing)
      requires forall i | 0 <= i < |schedule| :: OthersOnly(t, schedule[i].others)
      modifies this
      ensures k0 <= k <= |schedule| && Inv(platform, Abs())
      ensures LockRun(platform, Abs(), t, schedule[k..]) == LockRun(platform, old(Abs()), t, schedule[k0..])
      ensures t < |pcs| && pcs[t] != Critical
      ensures k < |schedule| ==> At(Abs(), t, Acquiring)
    {
      hide Inv, LockRun;
      k := k0;
      ghost var s0 := Abs();
      if k == |schedule| { return; }
      LockRunStep(platform, s0, t, schedule, k);
      Interfere(t, schedule[k].others);
      Wait32(t);
      k := k + 1;
      while k < |schedule| && pcs[t] == Asleep
        invariant k0 <= k <= |schedule| && Inv(platform, Abs()) && t < |pcs|
        invariant pcs[t] == Asleep || pcs[t] == Acquiring
        invariant LockRun(platform, Abs(), t, schedule[k..]) == LockRun(platform, s0, t, schedule[k0..])
      {
        LockRunStep(platform, Abs(), t, schedule, k);
        Interfere(t, schedule[k].others);
        k := k + 1;
      }
    }

    /** The wait of the native branch: the pure read loop. */
    method SpinUntilFree(t: Tid, schedule: seq<Slice>, k0: nat) returns (k: nat)
      requires platform == Native && k0 <= |schedule| && Inv(platform, Abs()) && At(Abs(), t, Pausing)
      requires forall i | 0 <= i < |schedule| :: OthersOnly(t, schedule[i].others)
      modifies this
      ensures k0 <= k <= |schedule| && Inv(platform, Abs())
      ensures LockRun(platform, Abs(), t, schedule[k..]) == LockRun(platform, old(Abs()), t, schedule[k0..])
      ensures t < |pcs| && pcs[t] != Critical
      ensures k < |schedule| ==> At(Abs(), t, Acquiring)
    {
      hide Inv, LockRun;
      k := k0;
      ghost var s0 := Abs();
      var w := 1;
      while k < |schedule| && w == 1
        invariant k0 <= k <= |schedule| && Inv(platform, Abs()) && t < |pcs|
        invariant pcs[t] == if w == 1 then Pausing else Acquiring
        invariant LockRun(platform, Abs(), t, schedule[k..]) == LockRun(platform, s0, t, schedule[k0..])
      {
        LockRunStep(platform, Abs(), t, schedule, k);
        Interfere(t, schedule[k].others);
        w := SpinRead(t);
        k := k + 1;
      }
    }

    /** sqlite3_tiny_lock_try_lock: one strong CAS. */
    method TryAcquire(t: Tid) returns (ok: bool)
      requires Inv(platform, Abs()) && At(Abs(), t, Idle)
      modifies this
      ensures Abs() == StepIfEnabled(platform, old(Abs()), TryLock(t)) && Inv(platform, Abs())
      ensures ok <==> forall u :: !At(old(Abs()), u, Critical)
      ensures ok <==> At(Abs(), t, Critical)
    {
      StepKeepsInv(platform, Abs(), TryLock(t));
      if word == 0 {
        word := 1;
        pcs := pcs[t := Critical];
        return true;
      }
      return false;
    }

    /** sqlite3_tiny_lock_unlock: store 0, then (wasm) notify one waiter, if there is one. */
    method Release(t: Tid, others: seq<Step>) returns (woken: Option<Tid>)
      requires Inv(platform, Abs()) && At(Abs(), t, Critical) && OthersOnly(t, others)
      modifies this
      ensures Inv(platform, Abs()) && At(Abs(), t, Idle)
      ensures platform == Native ==> Abs() == StepIfEnabled(platform, old(Abs()), Unlock(t))
      ensures platform == Wasm ==>
                var stored := Run(platform, StepIfEnabled(platform, old(Abs()), Unlock(t)), others);
                Enabled(platform, stored, Notify(t, woken)) && Abs() == Next(platform, stored, Notify(t, woken))
    {
      StepKeepsInv(platform, Abs(), Unlock(t));
      word := 0;
      woken := None;
      if platform == Native {
        pcs := pcs[t := Idle];
        return;
      }
      pcs := pcs[t := Notifying];
      Interfere(t, others);
      if exists u | 0 <= u < |pcs| :: pcs[u] == Asleep {
        var u: nat :| u < |pcs| && pcs[u] == Asleep;
        woken := Some(u);
      }
      StepKeepsInv(platform, Abs(), Notify(t, woken));
      Set(Next(platform, Abs(), Notify(t, woken)));
    }
  }

  /** One slice of the schedule: the others' steps, then the thread's own operation. */
  lemma LockRunStep(p: Platform, s: State, t: Tid, schedule: seq<Slice>, k: nat)
    requires k < |schedule| && !At(s, t, Critical)
    ensures LockRun(p, s, t, schedule[k..])
         == LockRun(p, OwnStep(p, s, Run(p, s, schedule[k].others), t, schedule[k].spurious), t, schedule[k + 1..])
  {
    assert schedule[k..][0] == schedule[k] && schedule[k..][1..] == schedule[k + 1..];
  }
}

/** The registries behind SqliteExtState and SqliteConnState as one protocol: a map from a key (a database
    path or a connection) to a counted entry, a lock around the map, and reference counts that are
    decremented outside the lock. Atomic operations and critical sections are single steps, except that
    the teardown section is split between its re-check and its erase. */
module RegistryProtocol {
  import opened Wrappers

  type Tid = nat
  type Key = nat
  type Eid = nat   // an entry
  type Rid = nat   // a registration: one reference given to SQLite together with `destructor`

  /** A registry entry, with whether it was ever in the map and how often it has been deleted. */
  datatype Entry = Entry(key: Key, refcount: int, published: bool, deletes: nat)

  datatype Pc =
    | Idle
    | Missing(k: Key)      // SqliteConnState::init found nothing and has left the lock
    | Built(e: Eid)        // ... has built an entry of its own, not yet in the map
    | Discarding(e: Eid)   // ... is about to delete its own entry again
    | Closing(e: Eid)      // entry_release took the count to 0, the lock is not taken yet
    | Erasing(e: Eid)      // holds the lock, has re-checked the count, is about to unlink
    | Deleting(e: Eid)     // has unlinked, is about to delete

  datatype State = State(
    entries: seq<Entry>,
    registry: map<Key, Eid>,
    held: map<Rid, Eid>,
    pcs: seq<Pc>,
    lock: Option<Tid>)

  datatype Step =
    | InitShared(t: Tid, k: Key, r: Rid, allocOk: bool)   // SqliteExtState::init
    | Get(t: Tid, k: Key, r: Rid)                           // entry_get of either class
    | Lookup(t: Tid, k: Key, r: Rid)                        // SqliteConnState::init, fast path
    | Build(t: Tid, allocOk: bool)                        // ... optimistic construction
    | Publish(t: Tid, r: Rid, inserted: bool)               // ... second critical section
    | Discard(t: Tid)                                       // ... sqlite_delete(new_entry)
    | Release(t: Tid, r: Rid)                               // the decrement of entry_release
    | Check(t: Tid)                                         // entry_free: lock and re-check
    | Erase(t: Tid)                                         // entry_free: unlink and unlock
    | Delete(t: Tid)                                        // entry_free: sqlite_delete(entry)

  function Init(threads: nat): State {
    State([], map[], map[], seq(threads, i => Idle), None)
  }

  function SetPc(s: State, t: Tid, pc: Pc): State
    requires t < |s.pcs|
  {
    s.(pcs := s.pcs[t := pc])
  }

  /** entry_retain, and the new registration. */
  function Retain(s: State, e: Eid, r: Rid): State
    requires e < |s.entries|
  {
    s.(entries := s.entries[e := s.entries[e].(refcount := s.entries[e].refcount + 1)], held := s.held[r := e])
  }

  predicate Mapped(s: State, e: Eid) {
    e < |s.entries| && s.entries[e].key in s.registry && s.registry[s.entries[e].key] == e
  }

  /** The entry a thread is working on outside the map, or on the way out of it. */
  function Target(pc: Pc): Option<Eid> {
    match pc
    case Idle => None
    case Missing(_) => None
    case Built(e) => Some(e)
    case Discarding(e) => Some(e)
    case Closing(e) => Some(e)
    case Erasing(e) => Some(e)
    case Deleting(e) => Some(e)
  }

  predicate InRange(s: State) {
    && (forall k | k in s.registry :: s.registry[k] < |s.entries|)
    && (forall r | r in s.held :: s.held[r] < |s.entries|)
    && (forall t | 0 <= t < |s.pcs| && Target(s.pcs[t]).Some? :: Target(s.pcs[t]).value < |s.entries|)
  }

  predicate Enabled(s: State, step: Step) {
    step.t < |s.pcs| &&
    match step
    case InitShared(t, _, r, _) => s.pcs[t] == Idle && s.lock == None && r !in s.held
    case Get(t, _, r) => s.pcs[t] == Idle && s.lock == None && r !in s.held
    case Lookup(t, _, r) => s.pcs[t] == Idle && s.lock == None && r !in s.held
    case Build(t, _) => s.pcs[t].Missing?
    case Publish(t, r, _) => s.pcs[t].Built? && s.lock == None && r !in s.held
    case Discard(t) => s.pcs[t].Discarding?
    case Release(t, r) => s.pcs[t] == Idle && r in s.held
    case Check(t) => s.pcs[t].Closing? && s.lock == None
    case Erase(t) => s.pcs[t].Erasing?
    case Delete(t) => s.pcs[t].Deleting?
  }

  function Next(s: State, step: Step): State
    requires InRange(s) && Enabled(s, step)
  {
    match step
    case InitShared(t, k, r, allocOk) =>
      if k in s.registry then Retain(s, s.registry[k], r)
      else if allocOk then
        var e := |s.entries|;
        Retain(s.(entries := s.entries + [Entry(k, 0, true, 0)], registry := s.registry[k := e]), e, r)
      else s
    case Get(t, k, r) =>
      if k in s.registry then Retain(s, s.registry[k], r) else s
    case Lookup(t, k, r) =>
      if k in s.registry then Retain(s, s.registry[k], r) else SetPc(s, t, Missing(k))
    case Build(t, allocOk) =>
      if allocOk then
        SetPc(s.(entries := s.entries + [Entry(s.pcs[t].k, 1, false, 0)]), t, Built(|s.entries|))
      else SetPc(s, t, Idle)
    case Publish(t, r, inserted) =>
      var e := s.pcs[t].e;
      var k := s.entries[e].key;
      if k in s.registry then SetPc(Retain(s, s.registry[k], r), t, Discarding(e))
      else if inserted then
        SetPc(s.(entries := s.entries[e := s.entries[e].(published := true)],
                 registry := s.registry[k := e], held := s.held[r := e]), t, Idle)
      else SetPc(s, t, Discarding(e))
    case Discard(t) =>
      var e := s.pcs[t].e;
      SetPc(s.(entries := s.entries[e := s.entries[e].(deletes := s.entries[e].deletes + 1)]), t, Idle)
    case Release(t, r) =>
      var e := s.held[r];
      var n := s.entries[e].refcount - 1;
      var s1 := s.(entries := s.entries[e := s.entries[e].(refcount := n)], held := s.held - {r});
      if n == 0 then SetPc(s1, t, Closing(e)) else s1
    case Check(t) =>
      var e := s.pcs[t].e;
      if s.entries[e].refcount > 0 then SetPc(s, t, Idle) else SetPc(s.(lock := Some(t)), t, Erasing(e))
    case Erase(t) =>
      var e := s.pcs[t].e;
      SetPc(s.(registry := s.registry - {s.entries[e].key}, lock := None), t, Deleting(e))
    case Delete(t) =>
      var e := s.pcs[t].e;
      SetPc(s.(entries := s.entries[e := s.entries[e].(deletes := s.entries[e].deletes + 1)]), t, Idle)
  }

  predicate UsesMap(step: Step) {
    step.InitShared? || step.Get? || step.Lookup? || step.Publish? || step.Erase?
  }

  /** A step reads or writes entry `e`. A lookup compares keys that live inside the mapped entries. */
  predicate Touches(s: State, step: Step, e: Eid)
    requires Enabled(s, step)
  {
    || (UsesMap(step) && Mapped(s, e))
    || (step.Release? && s.held[step.r] == e)
    || Target(s.pcs[step.t]) == Some(e)
  }

  // ---------------------------------------------------------------- the run hypothesis

  predicate TearingDown(s: State, t: Tid, e: Eid) {
    t < |s.pcs| && (s.pcs[t] == Closing(e) || s.pcs[t] == Erasing(e))
  }

  /** At most one thread per entry is between "the decrement returned zero" and the erase. */
  predicate Disciplined(s: State, step: Step) {
    step.Release? && step.r in s.held && s.held[step.r] < |s.entries| && s.entries[s.held[step.r]].refcount == 1 ==>
      !exists t | 0 <= t < |s.pcs| :: TearingDown(s, t, s.held[step.r])
  }

  /** A scheduled step that is not enabled when its turn comes is skipped. */
  function StepIfEnabled(s: State, step: Step): State {
    if InRange(s) && Enabled(s, step) then Next(s, step) else s
  }

  function Run(s: State, steps: seq<Step>): State
    decreases |steps|
  {
    if steps == [] then s else Run(StepIfEnabled(s, steps[0]), steps[1..])
  }

  predicate DisciplinedRun(s: State, steps: seq<Step>)
    decreases |steps|
  {
    steps != [] ==>
      && (Enabled(s, steps[0]) ==> Disciplined(s, steps[0]))
      && DisciplinedRun(StepIfEnabled(s, steps[0]), steps[1..])
  }
}

/** What every disciplined run of the registry protocol keeps, and what an undisciplined step breaks. */
module RegistryInvariant {
  import opened Wrappers
  import opened RegistryProtocol

  ghost function Holders(s: State, e: Eid): set<Rid> { set r | r in s.held && s.held[r] == e }

  predicate At(s: State, t: Tid, e: Eid) { t < |s.pcs| && Target(s.pcs[t]) == Some(e) }

  ghost predicate SomeoneAt(s: State, e: Eid) { exists t :: At(s, t, e) }

  /** The count is exact; only an entry that is not referenced can be outside the map; and an entry that is
      neither mapped nor deleted, or mapped without a reference, is in the hands of a thread. */
  ghost predicate EntryInv(s: State, e: Eid)
    requires e < |s.entries|
  {
    var en := s.entries[e];
    && en.refcount == |Holders(s, e)| + (if en.published then 0 else 1)
    && en.deletes <= 1
    && (en.published && en.refcount > 0 ==> Mapped(s, e))
    && (Mapped(s, e) ==> en.published && en.deletes == 0)
    && (!en.published ==> Holders(s, e) == {})
    && (if Mapped(s, e) then en.refcount == 0 ==> SomeoneAt(s, e) else en.deletes == 0 ==> SomeoneAt(s, e))
  }

  ghost predicate ThreadInv(s: State, t: Tid)
    requires t < |s.pcs|
  {
    match s.pcs[t]
    case Idle => true
    case Missing(_) => true
    case Built(e) => e < |s.entries| && !s.entries[e].published && s.entries[e].deletes == 0
    case Discarding(e) => e < |s.entries| && !s.entries[e].published && s.entries[e].deletes == 0
    case Closing(e) => Mapped(s, e)
    case Erasing(e) => Mapped(s, e) && s.entries[e].refcount == 0 && s.lock == Some(t)
    case Deleting(e) =>
      && e < |s.entries| && s.entries[e].published && !Mapped(s, e)
      && s.entries[e].deletes == 0 && s.entries[e].refcount == 0
  }

  ghost predicate EntriesInv(s: State) {
    forall e | 0 <= e < |s.entries| :: EntryInv(s, e)
  }

  ghost predicate ThreadsInv(s: State) {
    forall t | 0 <= t < |s.pcs| :: ThreadInv(s, t)
  }

  /** No two threads are at the same entry. */
  ghost predicate Alone(s: State) {
    forall t, u, e :: At(s, t, e) && At(s, u, e) ==> t == u
  }

  ghost predicate MapInv(s: State) {
    && (forall k | k in s.registry :: s.registry[k] < |s.entries| && s.entries[s.registry[k]].key == k)
    && (s.lock.Some? ==> s.lock.value < |s.pcs| && s.pcs[s.lock.value].Erasing?)
  }

  ghost predicate Inv(s: State) {
    InRange(s) && EntriesInv(s) && ThreadsInv(s) && Alone(s) && MapInv(s)
  }

  // ---------------------------------------------------------------- how the counts move

  lemma HoldersPut(s: State, s': State, r: Rid, f: Eid, e: Eid)
    requires r !in s.held && s'.held == s.held[r := f]
    ensures |Holders(s', e)| == |Holders(s, e)| + (if e == f then 1 else 0)
    ensures e != f ==> Holders(s', e) == Holders(s, e)
  {
    assert Holders(s', e) == if e == f then Holders(s, e) + {r} else Holders(s, e);
  }

  lemma HoldersDrop(s: State, s': State, r: Rid, e: Eid)
    requires r in s.held && s'.held == s.held - {r}
    ensures |Holders(s', e)| == |Holders(s, e)| - (if s.held[r] == e then 1 else 0)
    ensures r in Holders(s, e) <==> s.held[r] == e
    ensures Holders(s', e) <= Holders(s, e)
  {
    assert Holders(s', e) == Holders(s, e) - {r};
    if s.held[r] == e { assert r in Holders(s, e); } else { assert Holders(s, e) - {r} == Holders(s, e); }
  }

  lemma HoldersSame(s: State, s': State, e: Eid)
    requires s'.held == s.held
    ensures Holders(s', e) == Holders(s, e)
  {
  }

  lemma EntryAt(s: State, e: Eid)
    requires EntriesInv(s) && e < |s.entries|
    ensures EntryInv(s, e)
  {
  }

  lemma ThreadAt(s: State, t: Tid)
    requires ThreadsInv(s) && t < |s.pcs|
    ensures ThreadInv(s, t)
  {
  }

  /** Only the thread that moved can have left an entry. */
  lemma StillAt(s: State, s': State, t: Tid, e: Eid)
    requires |s'.pcs| == |s.pcs| && (forall u | 0 <= u < |s.pcs| && u != t :: s'.pcs[u] == s.pcs[u])
    requires SomeoneAt(s, e) && !At(s, t, e)
    ensures SomeoneAt(s', e)
  {
    var u :| At(s, u, e);
    assert At(s', u, e);
  }

  /** An entry that a step leaves alone. */
  lemma EntryUntouched(s: State, s': State, t: Tid, e: Eid)
    requires |s'.pcs| == |s.pcs| && (forall u | 0 <= u < |s.pcs| && u != t :: s'.pcs[u] == s.pcs[u])
    requires e < |s.entries| && EntryInv(s, e)
    requires e < |s'.entries| && s'.entries[e] == s.entries[e] && (Mapped(s', e) <==> Mapped(s, e))
    requires Holders(s', e) == Holders(s, e) && !At(s, t, e)
    ensures EntryInv(s', e)
  {
    hide SomeoneAt, At, Holders, Mapped;
    if SomeoneAt(s, e) { StillAt(s, s', t, e); }
  }

  lemma AloneAfter(s: State, s': State, t: Tid)
    requires Alone(s) && |s'.pcs| == |s.pcs|
    requires forall u | 0 <= u < |s.pcs| && u != t :: s'.pcs[u] == s.pcs[u]
    requires t < |s.pcs| && (Target(s'.pcs[t]).Some? ==>
               Target(s'.pcs[t]) == Target(s.pcs[t]) || !SomeoneAt(s, Target(s'.pcs[t]).value))
    ensures Alone(s')
  {
    hide Target;
    forall v, e | v != t && At(s', v, e)
      ensures !At(s', t, e)
    {
      assert At(s, v, e);
      assert !At(s, t, e);
      SomeoneIsAt(s, v, e);
    }
    forall u, v, e | At(s', u, e) && At(s', v, e)
      ensures u == v
    {
      assert u != t && v != t ==> At(s, u, e) && At(s, v, e);
    }
  }

  // ---------------------------------------------------------------- one step keeps the invariant

  /** A registration is added to a mapped entry while nobody holds the lock. */
  lemma RetainKeeps(s: State, f: Eid, r: Rid)
    requires Inv(s) && Mapped(s, f) && r !in s.held && s.lock == None
    ensures Inv(Retain(s, f, r))
  {
    hide Holders, SomeoneAt;
    var s' := Retain(s, f, r);
    EntryAt(s, f);
    forall e | 0 <= e < |s'.entries|
      ensures EntryInv(s', e)
    {
      EntryAt(s, e);
      HoldersPut(s, s', r, f, e);
      assert Mapped(s', e) <==> Mapped(s, e);
      SamePcsSameAt(s, s', e);
    }
    forall t | 0 <= t < |s'.pcs|
      ensures ThreadInv(s', t)
    {
      ThreadAt(s, t);
    }
    assert forall t, e :: At(s', t, e) <==> At(s, t, e);
  }

  lemma SamePcsSameAt(s: State, s': State, e: Eid)
    requires s'.pcs == s.pcs
    ensures SomeoneAt(s', e) <==> SomeoneAt(s, e)
  {
    assert forall t :: At(s', t, e) <==> At(s, t, e);
  }

  /** A thread that is nowhere, or leaves `Built` for `Discarding`, moves; nothing else changes. */
  lemma PcMoveKeeps(s: State, t: Tid, pc: Pc)
    requires Inv(s) && t < |s.pcs|
    requires (Target(s.pcs[t]).None? && Target(pc).None?) || (s.pcs[t].Built? && pc == Discarding(s.pcs[t].e))
    ensures Inv(SetPc(s, t, pc))
  {
    hide Holders, SomeoneAt;
    var s' := SetPc(s, t, pc);
    ThreadAt(s, t);
    forall u, e
      ensures At(s', u, e) <==> At(s, u, e)
    {
    }
    forall e | 0 <= e < |s'.entries|
      ensures EntryInv(s', e)
    {
      EntryAt(s, e);
      HoldersSame(s, s', e);
      SameAtSameSomeone(s, s', e);
    }
    forall u | 0 <= u < |s'.pcs|
      ensures ThreadInv(s', u)
    {
      ThreadAt(s, u);
    }
  }

  lemma SameAtSameSomeone(s: State, s': State, e: Eid)
    requires forall u :: At(s', u, e) <==> At(s, u, e)
    ensures SomeoneAt(s', e) <==> SomeoneAt(s, e)
  {
  }

  lemma NewEntryIsUnknown(s: State)
    requires InRange(s)
    ensures Holders(s, |s.entries|) == {} && !SomeoneAt(s, |s.entries|) && !Mapped(s, |s.entries|)
  {
  }

  /** SqliteExtState::init without an entry for the path: allocate, insert, retain. */
  lemma InsertNewKeeps(s: State, k: Key, r: Rid)
    requires Inv(s) && k !in s.registry && r !in s.held && s.lock == None
    ensures var e := |s.entries|;
            Inv(Retain(s.(entries := s.entries + [Entry(k, 0, true, 0)], registry := s.registry[k := e]), e, r))
  {
    hide Holders, SomeoneAt;
    var e0 := |s.entries|;
    var s' := Retain(s.(entries := s.entries + [Entry(k, 0, true, 0)], registry := s.registry[k := e0]), e0, r);
    NewEntryIsUnknown(s);
    forall e | 0 <= e < |s'.entries|
      ensures EntryInv(s', e)
    {
      HoldersPut(s, s', r, e0, e);
      SamePcsSameAt(s, s', e);
      if e < e0 {
        EntryAt(s, e);
        assert Mapped(s', e) <==> Mapped(s, e);
      }
    }
    forall t | 0 <= t < |s'.pcs|
      ensures ThreadInv(s', t)
    {
      ThreadAt(s, t);
    }
    assert forall t, e :: At(s', t, e) <==> At(s, t, e);
  }

  lemma BuildKeeps(s: State, t: Tid)
    requires Inv(s) && t < |s.pcs| && s.pcs[t].Missing?
    ensures Inv(SetPc(s.(entries := s.entries + [Entry(s.pcs[t].k, 1, false, 0)]), t, Built(|s.entries|)))
  {
    hide Holders, SomeoneAt;
    var e0 := |s.entries|;
    var s' := SetPc(s.(entries := s.entries + [Entry(s.pcs[t].k, 1, false, 0)]), t, Built(e0));
    NewEntryIsUnknown(s);
    AloneAfter(s, s', t);
    SomeoneIsAt(s', t, e0);
    forall e | 0 <= e < |s'.entries|
      ensures EntryInv(s', e)
    {
      HoldersSame(s, s', e);
      if e < e0 {
        EntryAt(s, e);
        EntryUntouched(s, s', t, e);
      }
    }
    forall u | 0 <= u < |s'.pcs|
      ensures ThreadInv(s', u)
    {
      ThreadAt(s, u);
    }
  }

  lemma SomeoneIsAt(s: State, t: Tid, e: Eid)
    requires At(s, t, e)
    ensures SomeoneAt(s, e)
  {
  }

  /** The second critical section of SqliteConnState::init puts the thread's own entry into the map. */
  lemma PublishKeeps(s: State, t: Tid, r: Rid)
    requires Inv(s) && t < |s.pcs| && s.pcs[t].Built? && r !in s.held && s.lock == None
    requires s.pcs[t].e < |s.entries| && s.entries[s.pcs[t].e].key !in s.registry
    ensures Inv(Next(s, Publish(t, r, true)))
  {
    hide Holders, SomeoneAt;
    var s' := Next(s, Publish(t, r, true));
    var e0 := s.pcs[t].e;
    ThreadAt(s, t);
    EntryAt(s, e0);
    AloneAfter(s, s', t);
    forall e | 0 <= e < |s'.entries|
      ensures EntryInv(s', e)
    {
      HoldersPut(s, s', r, e0, e);
      if e != e0 {
        EntryAt(s, e);
        EntryUntouched(s, s', t, e);
      }
    }
    forall u | 0 <= u < |s'.pcs|
      ensures ThreadInv(s', u)
    {
      ThreadAt(s, u);
      assert At(s, t, e0);
      assert u != t ==> !At(s, u, e0);
    }
  }

  lemma DeletingKeeps(s: State, t: Tid, step: Step)
    requires Inv(s) && Enabled(s, step) && t == step.t && (step.Discard? || step.Delete?)
    ensures Inv(Next(s, step))
  {
    hide Holders, SomeoneAt;
    var s' := Next(s, step);
    var e0 := s.pcs[t].e;
    ThreadAt(s, t);
    EntryAt(s, e0);
    AloneAfter(s, s', t);
    forall e | 0 <= e < |s'.entries|
      ensures EntryInv(s', e)
    {
      HoldersSame(s, s', e);
      assert Mapped(s', e) <==> Mapped(s, e);
      if e != e0 {
        EntryAt(s, e);
        EntryUntouched(s, s', t, e);
      }
    }
    forall u | 0 <= u < |s'.pcs|
      ensures ThreadInv(s', u)
    {
      ThreadAt(s, u);
      assert u != t ==> !At(s, u, e0) by { assert At(s, t, e0); }
    }
  }

  lemma ReleaseKeeps(s: State, t: Tid, r: Rid)
    requires Inv(s) && Enabled(s, Release(t, r)) && Disciplined(s, Release(t, r))
    ensures Inv(Next(s, Release(t, r)))
  {
    hide Holders, SomeoneAt;
    var s' := Next(s, Release(t, r));
    var e0 := s.held[r];
    EntryAt(s, e0);
    HoldersDrop(s, s', r, e0);
    assert s.entries[e0].published && Mapped(s, e0);
    if s.entries[e0].refcount == 1 {
      NobodyAtLast(s, e0);
      SomeoneIsAt(s', t, e0);
    }
    AloneAfter(s, s', t);
    forall e | 0 <= e < |s'.entries|
      ensures EntryInv(s', e)
    {
      HoldersDrop(s, s', r, e);
      EntryAt(s, e);
      assert Mapped(s', e) <==> Mapped(s, e);
      if e != e0 {
        OtherHolders(s, s', r, e);
        EntryUntouched(s, s', t, e);
      }
    }
    forall u | 0 <= u < |s'.pcs|
      ensures ThreadInv(s', u)
    {
      ThreadAt(s, u);
    }
  }

  lemma OtherHolders(s: State, s': State, r: Rid, e: Eid)
    requires r in s.held && s'.held == s.held - {r} && s.held[r] != e
    ensures Holders(s', e) == Holders(s, e)
  {
  }

  /** With one reference left and no teardown pending, no thread is at the entry. */
  lemma NobodyAtLast(s: State, e: Eid)
    requires Inv(s) && Mapped(s, e) && !exists t | 0 <= t < |s.pcs| :: TearingDown(s, t, e)
    ensures !SomeoneAt(s, e)
  {
    hide Holders;
    EntryAt(s, e);
    forall t: Tid
      ensures !At(s, t, e)
    {
      if t < |s.pcs| {
        ThreadAt(s, t);
        assert !TearingDown(s, t, e);
      }
    }
  }

  lemma CheckKeeps(s: State, t: Tid)
    requires Inv(s) && Enabled(s, Check(t))
    ensures Inv(Next(s, Check(t)))
  {
    hide Holders, SomeoneAt;
    var s' := Next(s, Check(t));
    var e0 := s.pcs[t].e;
    ThreadAt(s, t);
    EntryAt(s, e0);
    AloneAfter(s, s', t);
    if s'.pcs[t].Erasing? { SomeoneIsAt(s', t, e0); }
    forall e | 0 <= e < |s'.entries|
      ensures EntryInv(s', e)
    {
      HoldersSame(s, s', e);
      EntryAt(s, e);
      if e != e0 {
        EntryUntouched(s, s', t, e);
      }
    }
    forall u | 0 <= u < |s'.pcs|
      ensures ThreadInv(s', u)
    {
      ThreadAt(s, u);
    }
  }

  lemma EraseKeeps(s: State, t: Tid)
    requires Inv(s) && Enabled(s, Erase(t))
    ensures Inv(Next(s, Erase(t)))
  {
    hide Holders, SomeoneAt;
    var s' := Next(s, Erase(t));
    var e0 := s.pcs[t].e;
    ThreadAt(s, t);
    EntryAt(s, e0);
    AloneAfter(s, s', t);
    SomeoneIsAt(s', t, e0);
    forall e | 0 <= e < |s'.entries|
      ensures EntryInv(s', e)
    {
      HoldersSame(s, s', e);
      EntryAt(s, e);
      if e != e0 {
        assert Mapped(s', e) <==> Mapped(s, e);
        EntryUntouched(s, s', t, e);
      }
    }
    forall u | 0 <= u < |s'.pcs|
      ensures ThreadInv(s', u)
    {
      ThreadAt(s, u);
      assert At(s, t, e0);
      assert u != t ==> !At(s, u, e0);
    }
  }

  lemma StepKeepsInv(s: State, step: Step)
    requires Inv(s) && Enabled(s, step) && Disciplined(s, step)
    ensures Inv(Next(s, step))
  {
    hide EntriesInv, ThreadsInv, Alone, Disciplined;
    match step
    case InitShared(t, k, r, allocOk) =>
      if k in s.registry { RetainKeeps(s, s.registry[k], r); } else if allocOk { InsertNewKeeps(s, k, r); }
    case Get(t, k, r) =>
      if k in s.registry { RetainKeeps(s, s.registry[k], r); }
    case Lookup(t, k, r) =>
      if k in s.registry { RetainKeeps(s, s.registry[k], r); } else { PcMoveKeeps(s, t, Missing(k)); }
    case Build(t, allocOk) =>
      if allocOk { BuildKeeps(s, t); } else { PcMoveKeeps(s, t, Idle); }
    case Publish(t, r, inserted) =>
      var e := s.pcs[t].e;
      var k := s.entries[e].key;
      if k in s.registry {
        RetainKeeps(s, s.registry[k], r);
        PcMoveKeeps(Retain(s, s.registry[k], r), t, Discarding(e));
      } else if inserted {
        PublishKeeps(s, t, r);
      } else {
        PcMoveKeeps(s, t, Discarding(e));
      }
    case Discard(t) => DeletingKeeps(s, t, step);
    case Delete(t) => DeletingKeeps(s, t, step);
    case Release(t, r) => ReleaseKeeps(s, t, r);
    case Check(t) => CheckKeeps(s, t);
    case Erase(t) => EraseKeeps(s, t);
  }
}

/** Whole runs of the registry protocol. */
module RegistryRuns {
  import opened Wrappers
  import opened RegistryProtocol
  import opened RegistryInvariant

  lemma InitInv(threads: nat)
    ensures Inv(Init(threads))
  {
  }

  lemma {:induction false} RunKeepsInv(s: State, steps: seq<Step>)
    requires Inv(s) && DisciplinedRun(s, steps)
    ensures Inv(Run(s, steps))
    decreases |steps|
  {
    hide Inv, Enabled, Next, InRange, Disciplined;
    if steps != [] {
      if InRange(s) && Enabled(s, steps[0]) {
        StepKeepsInv(s, steps[0]);
      }
      RunKeepsInv(StepIfEnabled(s, steps[0]), steps[1..]);
    }
  }

  /** A step at an entry still has that entry. */
  lemma TouchedIsAlive(s: State, step: Step, e: Eid)
    requires Inv(s) && Enabled(s, step) && Touches(s, step, e)
    ensures e < |s.entries| && s.entries[e].deletes == 0
  {
    hide Holders, SomeoneAt, Alone;
    ThreadAt(s, step.t);
    if step.Release? && s.held[step.r] == e {
      EntryAt(s, e);
      HoldersDrop(s, s.(held := s.held - {step.r}), step.r, e);
    } else {
      if e < |s.entries| { EntryAt(s, e); }
    }
  }

  /** In a disciplined run no step reads or writes an entry that has been deleted. */
  lemma NeverTouchesDeleted(threads: nat, steps: seq<Step>, step: Step, e: Eid)
    requires DisciplinedRun(Init(threads), steps)
    requires Enabled(Run(Init(threads), steps), step) && Touches(Run(Init(threads), steps), step, e)
    ensures var s := Run(Init(threads), steps);
            e < |s.entries| && s.entries[e].deletes == 0
  {
    hide Run, Inv, Enabled, Touches, DisciplinedRun;
    InitInv(threads);
    RunKeepsInv(Init(threads), steps);
    TouchedIsAlive(Run(Init(threads), steps), step, e);
  }

  /** In a disciplined run an entry is unlinked only when no registration holds it, and the erase takes
      exactly that entry out of the map; it is deleted after that, for the first and only time. */
  lemma TeardownIsSafe(threads: nat, steps: seq<Step>, t: Tid)
    requires DisciplinedRun(Init(threads), steps) && t < |Run(Init(threads), steps).pcs|
    ensures var s := Run(Init(threads), steps);
            && (s.pcs[t].Erasing? ==> ErasesItself(s, t))
            && (s.pcs[t].Deleting? ==> DeletesOnce(s, t))
    ensures forall e | 0 <= e < |Run(Init(threads), steps).entries| :: Run(Init(threads), steps).entries[e].deletes <= 1
  {
    hide Run, DisciplinedRun, ErasesItself, DeletesOnce;
    var s := Run(Init(threads), steps);
    InitInv(threads);
    RunKeepsInv(Init(threads), steps);
    if s.pcs[t].Erasing? { EraseIsSafe(s, t); }
    if s.pcs[t].Deleting? { DeleteIsSafe(s, t); }
    forall e | 0 <= e < |s.entries|
      ensures s.entries[e].deletes <= 1
    {
      EntryAt(s, e);
    }
  }

  ghost predicate ErasesItself(s: State, t: Tid)
    requires t < |s.pcs| && s.pcs[t].Erasing?
  {
    var e := s.pcs[t].e;
    && InRange(s) && e < |s.entries| && Holders(s, e) == {} && Mapped(s, e)
    && (forall f :: Mapped(Next(s, Erase(t)), f) <==> Mapped(s, f) && f != e)
  }

  ghost predicate DeletesOnce(s: State, t: Tid)
    requires t < |s.pcs| && s.pcs[t].Deleting?
  {
    var e := s.pcs[t].e;
    && InRange(s) && e < |s.entries| && Holders(s, e) == {} && !Mapped(s, e)
    && s.entries[e].deletes == 0 && Next(s, Delete(t)).entries[e].deletes == 1
  }

  lemma EraseIsSafe(s: State, t: Tid)
    requires Inv(s) && t < |s.pcs| && s.pcs[t].Erasing?
    ensures ErasesItself(s, t)
  {
    hide Holders, Alone;
    ThreadAt(s, t);
    EntryAt(s, s.pcs[t].e);
  }

  lemma DeleteIsSafe(s: State, t: Tid)
    requires Inv(s) && t < |s.pcs| && s.pcs[t].Deleting?
    ensures DeletesOnce(s, t)
  {
    hide Holders, Alone;
    ThreadAt(s, t);
    EntryAt(s, s.pcs[t].e);
  }

  // ---------------------------------------------------------------- what a step does to the registrations

  /** Entry `e` is given out under registration `r`: it is in the map and its count includes `r`. */
  predicate GivesOut(s: State, s': State, r: Rid, e: Eid) {
    && r !in s.held && s'.held == s.held[r := e] && Mapped(s', e)
    && s'.entries[e].refcount == if Mapped(s, e) then s.entries[e].refcount + 1 else 1
  }

  /** Every step by its effect on the map and the registrations. An init or a lookup gives out the mapped entry
      if there is one, also when the thread has built its own meanwhile; otherwise a new entry, or nothing if
      memory or insertion fails. */
  predicate MovesRegistrations(s: State, s': State, step: Step)
    requires InRange(s) && Enabled(s, step) && |s'.entries| >= |s.entries|
  {
    match step
    case InitShared(_, k, r, ok) =>
      if k in s.registry then GivesOut(s, s', r, s.registry[k]) && s'.registry == s.registry
      else if ok then GivesOut(s, s', r, |s.entries|) && s'.registry == s.registry[k := |s.entries|]
      else s' == s
    case Get(_, k, r) =>
      if k in s.registry then GivesOut(s, s', r, s.registry[k]) && s'.registry == s.registry else s' == s
    case Lookup(t, k, r) =>
      && s'.registry == s.registry
      && (if k in s.registry then GivesOut(s, s', r, s.registry[k]) && s'.pcs == s.pcs
          else s'.held == s.held && s'.entries == s.entries && s'.pcs == s.pcs[t := Missing(k)])
    case Build(t, ok) =>
      && s'.registry == s.registry && s'.held == s.held
      && (if ok then |s'.entries| == |s.entries| + 1 && s'.pcs == s.pcs[t := Built(|s.entries|)]
          else s'.entries == s.entries && s'.pcs == s.pcs[t := Idle])
    case Publish(t, r, inserted) =>
      var own := s.pcs[t].e;
      var k := s.entries[own].key;
      if k in s.registry then
        GivesOut(s, s', r, s.registry[k]) && s'.registry == s.registry && s'.pcs == s.pcs[t := Discarding(own)]
      else if inserted then
        GivesOut(s, s', r, own) && s'.registry == s.registry[k := own] && s'.pcs == s.pcs[t := Idle]
      else s'.held == s.held && s'.registry == s.registry && s'.pcs == s.pcs[t := Discarding(own)]
    case Release(_, r) =>
      && s'.held == s.held - {r} && s'.registry == s.registry
      && s'.entries[s.held[r]].refcount == s.entries[s.held[r]].refcount - 1
    case Discard(t) => s'.held == s.held && s'.registry == s.registry && s'.pcs == s.pcs[t := Idle]
    case Check(_) => s'.held == s.held && s'.registry == s.registry && s'.entries == s.entries
    case Erase(t) => s'.held == s.held && s'.registry == s.registry - {s.entries[s.pcs[t].e].key}
    case Delete(t) => s'.held == s.held && s'.registry == s.registry && s'.pcs == s.pcs[t := Idle]
  }

  lemma StepMovesRegistrations(s: State, step: Step)
    requires Inv(s) && Enabled(s, step)
    ensures |Next(s, step).entries| >= |s.entries|
    ensures MovesRegistrations(s, Next(s, step), step)
  {
    hide Holders, SomeoneAt, Alone;
    ThreadAt(s, step.t);
    if step.Publish? { EntryAt(s, s.pcs[step.t].e); OwnCountIsOne(s, s.pcs[step.t].e); }
  }

  /** The count of an entry that has not been published is 1. */
  lemma OwnCountIsOne(s: State, e: Eid)
    requires Inv(s) && e < |s.entries| && !s.entries[e].published
    ensures s.entries[e].refcount == 1 && !Mapped(s, e)
  {
    EntryAt(s, e);
  }

  lemma StepKeepsKey(s: State, step: Step, e: Eid)
    requires InRange(s) && Enabled(s, step) && e < |s.entries|
    ensures e < |Next(s, step).entries| && Next(s, step).entries[e].key == s.entries[e].key
  {
  }

  lemma {:induction false} RunKeepsKeys(s: State, steps: seq<Step>, e: Eid)
    requires e < |s.entries|
    ensures e < |Run(s, steps).entries| && Run(s, steps).entries[e].key == s.entries[e].key
    decreases |steps|
  {
    hide Enabled, InRange, Next;
    if steps != [] {
      if InRange(s) && Enabled(s, steps[0]) { StepKeepsKey(s, steps[0], e); }
      RunKeepsKeys(StepIfEnabled(s, steps[0]), steps[1..], e);
    }
  }

  // ---------------------------------------------------------------- conservation

  predicate AtRest(s: State) {
    forall t | 0 <= t < |s.pcs| :: s.pcs[t] == Idle
  }

  /** The registrations of a key, whichever entry they were given. */
  ghost function Registrations(s: State, k: Key): set<Rid> {
    set r | r in s.held && s.held[r] < |s.entries| && s.entries[s.held[r]].key == k
  }

  /** With no thread inside the registry a key is mapped iff it has an outstanding registration, the count
      of its entry is their number, and every other entry ever made has been deleted exactly once. */
  lemma Conservation(threads: nat, steps: seq<Step>, k: Key)
    requires DisciplinedRun(Init(threads), steps) && AtRest(Run(Init(threads), steps))
    ensures var s := Run(Init(threads), steps);
            && (k in s.registry <==> Registrations(s, k) != {})
            && (k in s.registry ==>
                  s.registry[k] < |s.entries| && s.entries[s.registry[k]].refcount == |Registrations(s, k)|)
            && (forall e | 0 <= e < |s.entries| :: s.entries[e].deletes == if Mapped(s, e) then 0 else 1)
  {
    hide Run, DisciplinedRun, Registrations, Mapped;
    InitInv(threads);
    RunKeepsInv(Init(threads), steps);
    RestingKey(Run(Init(threads), steps), k);
    RestingEntries(Run(Init(threads), steps));
  }

  lemma RestingEntries(s: State)
    requires Inv(s) && AtRest(s)
    ensures forall e | 0 <= e < |s.entries| :: s.entries[e].deletes == if Mapped(s, e) then 0 else 1
  {
    hide Holders;
    forall e | 0 <= e < |s.entries|
      ensures s.entries[e].deletes == if Mapped(s, e) then 0 else 1
    {
      EntryAt(s, e);
      assert !SomeoneAt(s, e);
    }
  }

  /** Every registration of a mapped key holds the mapped entry. */
  lemma RegistrationsHoldMapped(s: State, k: Key)
    requires Inv(s)
    ensures Registrations(s, k) != {} ==> k in s.registry
    ensures k in s.registry ==> Registrations(s, k) == Holders(s, s.registry[k])
  {
    hide SomeoneAt, Alone;
    forall r | r in Registrations(s, k)
      ensures Mapped(s, s.held[r])
    {
      EntryAt(s, s.held[r]);
      assert r in Holders(s, s.held[r]);
    }
  }

  lemma RestingKey(s: State, k: Key)
    requires Inv(s) && AtRest(s)
    ensures k in s.registry <==> Registrations(s, k) != {}
    ensures k in s.registry ==>
              s.registry[k] < |s.entries| && s.entries[s.registry[k]].refcount == |Registrations(s, k)|
  {
    hide Holders, Registrations, Alone;
    RegistrationsHoldMapped(s, k);
    if k in s.registry {
      EntryAt(s, s.registry[k]);
      assert !SomeoneAt(s, s.registry[k]);
    }
  }

  // ---------------------------------------------------------------- how far the hypothesis is needed

  /** Among all steps, the invariant survives exactly the disciplined ones. */
  lemma DisciplineIsExact(s: State, step: Step)
    requires Inv(s) && Enabled(s, step)
    ensures Inv(Next(s, step)) <==> Disciplined(s, step)
  {
    hide EntriesInv, ThreadsInv;
    if Disciplined(s, step) {
      StepKeepsInv(s, step);
    } else {
      var e := s.held[step.r];
      var u :| 0 <= u < |s.pcs| && TearingDown(s, u, e);
      assert At(Next(s, step), u, e) && At(Next(s, step), step.t, e);
    }
  }

  /** From the moment a second teardown of an entry is pending, the threads involved can run into deleted
      memory: there is a continuation after which the next step touches the deleted entry. */
  lemma UndisciplinedIsFatal(s: State, t: Tid, r: Rid)
      returns (steps: seq<Step>, last: Step, e: Eid)
    requires Inv(s) && Enabled(s, Release(t, r)) && !Disciplined(s, Release(t, r))
    ensures DisciplinedRun(Next(s, Release(t, r)), steps)
    ensures var s' := Run(Next(s, Release(t, r)), steps);
            && Enabled(s', last) && Touches(s', last, e)
            && e < |s'.entries| && s'.entries[e].deletes > 0
  {
    hide Alone, Holders, Run, StepIfEnabled, DisciplinedRun;
    e := s.held[r];
    var u: Tid :| u < |s.pcs| && TearingDown(s, u, e);
    ThreadAt(s, u);
    EntryAt(s, e);
    var s0 := Next(s, Release(t, r));
    last := Check(t);
    if s.lock == None {
      steps := [Check(u), Erase(u), Delete(u)];
      SecondTeardown(s0, t, u, e);
    } else {
      var w := s.lock.value;
      ThreadAt(s, w);
      var s1 := Next(s0, Erase(w));
      steps := [Erase(w)] + [Check(u), Erase(u), Delete(u)];
      RunOne(s0, Erase(w), [Check(u), Erase(u), Delete(u)]);
      SecondTeardown(s1, t, u, e);
    }
    NoReleaseIsDisciplined(s0, steps);
  }

  /** Only releases can break the discipline. */
  lemma {:induction false} NoReleaseIsDisciplined(s: State, steps: seq<Step>)
    requires forall i | 0 <= i < |steps| :: !steps[i].Release?
    ensures DisciplinedRun(s, steps)
    decreases |steps|
  {
    hide Enabled, StepIfEnabled;
    if steps != [] { NoReleaseIsDisciplined(StepIfEnabled(s, steps[0]), steps[1..]); }
  }

  /** After this run the next step touches an entry that has been deleted. */
  ghost predicate TouchesDeleted(s: State, steps: seq<Step>, last: Step, e: Eid) {
    var s' := Run(s, steps);
    && DisciplinedRun(s, steps) && Enabled(s', last) && Touches(s', last, e)
    && !(e < |s'.entries| && s'.entries[e].deletes == 0)
  }

  /** The hypothesis is exactly what use after free depends on: a release is disciplined iff every disciplined
      continuation, of any length, touches only entries that have not been deleted. */
  lemma DisciplineIsSafety(s: State, t: Tid, r: Rid)
    requires Inv(s) && Enabled(s, Release(t, r))
    ensures Disciplined(s, Release(t, r))
       <==> forall steps, last, e :: !TouchesDeleted(Next(s, Release(t, r)), steps, last, e)
  {
    hide Inv, Enabled, Next, Disciplined, DisciplinedRun, Run, Touches;
    InvInRange(s);
    var s' := Next(s, Release(t, r));
    if Disciplined(s, Release(t, r)) {
      StepKeepsInv(s, Release(t, r));
      forall steps, last, e
        ensures !TouchesDeleted(s', steps, last, e)
      {
        NothingDeletedTouched(s', steps, last, e);
      }
    } else {
      var steps, last, e := UndisciplinedIsFatal(s, t, r);
      assert TouchesDeleted(s', steps, last, e);
    }
  }

  lemma NothingDeletedTouched(s: State, steps: seq<Step>, last: Step, e: Eid)
    requires Inv(s)
    ensures !TouchesDeleted(s, steps, last, e)
  {
    hide Inv, Enabled, DisciplinedRun, Run, Touches;
    if DisciplinedRun(s, steps) && Enabled(Run(s, steps), last) && Touches(Run(s, steps), last, e) {
      RunKeepsInv(s, steps);
      TouchedIsAlive(Run(s, steps), last, e);
    }
  }

  lemma InvInRange(s: State)
    requires Inv(s)
    ensures InRange(s)
  {
  }

  /** The lock is never held for good: its holder has one step to make, which is always enabled and frees it. */
  lemma LockComesFree(s: State)
    requires Inv(s) && s.lock.Some?
    ensures Enabled(s, Erase(s.lock.value)) && Disciplined(s, Erase(s.lock.value))
    ensures InRange(s) && Next(s, Erase(s.lock.value)).lock == None
  {
    hide EntriesInv, ThreadsInv, Alone;
  }

  lemma RunOne(s: State, step: Step, steps: seq<Step>)
    requires InRange(s) && Enabled(s, step)
    ensures Run(s, [step] + steps) == Run(Next(s, step), steps)
  {
    hide Next, Enabled;
    assert ([step] + steps)[1..] == steps;
  }

  /** Entry `e` unlinked and deleted. */
  function TornDown(s: State, e: Eid): State
    requires e < |s.entries|
  {
    s.(registry := s.registry - {s.entries[e].key},
       entries := s.entries[e := s.entries[e].(deletes := s.entries[e].deletes + 1)])
  }

  /** The three steps of a teardown that nobody interferes with. */
  lemma TeardownAlone(s: State, u: Tid, e: Eid)
    requires InRange(s) && u < |s.pcs| && e < |s.entries|
    requires s.pcs[u] == Closing(e) && s.lock == None && s.entries[e].refcount == 0
    ensures InRange(Next(s, Check(u))) && Enabled(Next(s, Check(u)), Erase(u))
    ensures var s2 := Next(Next(s, Check(u)), Erase(u));
            InRange(s2) && Enabled(s2, Delete(u)) && Next(s2, Delete(u)) == TornDown(s, e).(pcs := s.pcs[u := Idle])
  {
  }

  /** Two teardowns of an unreferenced entry, the lock free: one deletes it, the other then looks at it. */
  lemma SecondTeardown(s: State, t: Tid, u: Tid, e: Eid)
    requires InRange(s) && t < |s.pcs| && u < |s.pcs| && t != u && e < |s.entries|
    requires s.pcs[t] == Closing(e) && s.pcs[u] == Closing(e) && s.lock == None && s.entries[e].refcount == 0
    ensures var s' := Run(s, [Check(u), Erase(u), Delete(u)]);
            && Enabled(s', Check(t)) && Touches(s', Check(t), e)
            && e < |s'.entries| && s'.entries[e].deletes > 0
  {
    hide Run, StepIfEnabled, Next, InRange;
    TeardownAlone(s, u, e);
    var s1 := Next(s, Check(u));
    var s2 := Next(s1, Erase(u));
    RunOne(s, Check(u), [Erase(u), Delete(u)]);
    RunOne(s1, Erase(u), [Delete(u)]);
    RunOne(s2, Delete(u), []);
    RunNone(Next(s2, Delete(u)));
    assert [Check(u)] + [Erase(u), Delete(u)] == [Check(u), Erase(u), Delete(u)];
    assert [Erase(u)] + [Delete(u)] == [Erase(u), Delete(u)];
    assert [Delete(u)] + [] == [Delete(u)];
  }

  lemma RunNone(s: State)
    ensures Run(s, []) == s
  {
  }

  /** Two threads, one key: thread 0 registers and unregisters, thread 1 gets the entry again before
      thread 0 takes the lock. */
  function Resurrection(k: Key): seq<Step> {
    [InitShared(0, k, 0, true), Release(0, 0), Get(1, k, 1)]
  }

  function Resurrected(k: Key): State {
    State([Entry(k, 1, true, 0)], map[k := 0], map[1 := 0], [Closing(0), Idle], None)
  }

  lemma ResurrectionRun(k: Key)
    ensures Run(Init(2), Resurrection(k)) == Resurrected(k)
    ensures DisciplinedRun(Init(2), Resurrection(k))
  {
    hide Run, DisciplinedRun, StepIfEnabled;
    var s0 := Init(2);
    var s1 := Next(s0, InitShared(0, k, 0, true));
    var s2 := Next(s1, Release(0, 0));
    var s3 := Next(s2, Get(1, k, 1));
    assert s0.pcs == [Idle, Idle];
    assert s1 == State([Entry(k, 1, true, 0)], map[k := 0], map[0 := 0], [Idle, Idle], None);
    assert s2 == State([Entry(k, 0, true, 0)], map[k := 0], map[], [Closing(0), Idle], None);
    assert s3 == Resurrected(k);
    DisciplinedOne(s0, InitShared(0, k, 0, true), [Release(0, 0), Get(1, k, 1)]);
    DisciplinedOne(s1, Release(0, 0), [Get(1, k, 1)]);
    DisciplinedOne(s2, Get(1, k, 1), []);
    assert [InitShared(0, k, 0, true)] + [Release(0, 0), Get(1, k, 1)] == Resurrection(k);
    assert [Release(0, 0)] + [Get(1, k, 1)] == [Release(0, 0), Get(1, k, 1)];
    assert [Get(1, k, 1)] + [] == [Get(1, k, 1)];
    RunNone(s3);
    DisciplinedNone(s3);
  }

  lemma DisciplinedOne(s: State, step: Step, steps: seq<Step>)
    requires InRange(s) && Enabled(s, step) && Disciplined(s, step)
    ensures Run(s, [step] + steps) == Run(Next(s, step), steps)
    ensures DisciplinedRun(s, [step] + steps) <==> DisciplinedRun(Next(s, step), steps)
  {
    hide Next, Enabled, Disciplined, InRange;
    assert ([step] + steps)[1..] == steps;
  }

  lemma DisciplinedNone(s: State)
    ensures DisciplinedRun(s, [])
  {
  }

  /** The resurrected entry survives the pending teardown, which finds the count at 1 and gives up. */
  lemma OneResurrectionIsFine(k: Key)
    ensures DisciplinedRun(Init(2), Resurrection(k))
    ensures var s := Run(Init(2), Resurrection(k));
            && InRange(s) && Enabled(s, Check(0))
            && Mapped(Next(s, Check(0)), 0) && AtRest(Next(s, Check(0)))
  {
    hide Run, DisciplinedRun;
    ResurrectionRun(k);
  }

  /** If the second registration is dropped before the first teardown has re-checked, the registry as
      written lets a step touch the deleted entry. */
  lemma SecondReleaseIsNot(k: Key) returns (steps: seq<Step>, last: Step)
    ensures var s := Run(Init(2), Resurrection(k));
            && InRange(s) && Enabled(s, Release(1, 1)) && !Disciplined(s, Release(1, 1))
            && var s' := Run(Next(s, Release(1, 1)), steps);
               && Enabled(s', last) && Touches(s', last, 0)
               && |s'.entries| > 0 && s'.entries[0].deletes > 0
  {
    hide Run, DisciplinedRun;
    ResurrectionRun(k);
    var s := Resurrected(k);
    steps := [Check(0), Erase(0), Delete(0)];
    last := Check(1);
    assert TearingDown(s, 0, 0);
    SecondTeardown(Next(s, Release(1, 1)), 1, 0, 0);
  }
}

/** The race of SqliteConnState::init: many threads building entries for one connection, none releasing. */
module ConnStateRace {
  import opened Wrappers
  import opened RegistryProtocol
  import opened RegistryInvariant
  import opened RegistryRuns

  /** No registration of connection `k` is dropped; anything may happen to other connections. */
  predicate NoReleaseOf(s: State, steps: seq<Step>, k: Key)
    decreases |steps|
  {
    steps != [] ==>
      && (InRange(s) && Enabled(s, steps[0]) && steps[0].Release? ==> s.entries[s.held[steps[0].r]].key != k)
      && NoReleaseOf(StepIfEnabled(s, steps[0]), steps[1..], k)
  }

  /** Every entry of `k` that was ever published is still mapped, and nobody is tearing it down. */
  ghost predicate Settled(s: State, k: Key) {
    && (forall e | 0 <= e < |s.entries| && s.entries[e].key == k && s.entries[e].published :: Mapped(s, e))
    && (forall t: Tid, e: Eid :: TearingDown(s, t, e) && e < |s.entries| ==> s.entries[e].key != k)
  }

  lemma StillMapped(s: State, step: Step, k: Key, e: Eid)
    requires Inv(s) && Enabled(s, step) && Settled(s, k) && e < |Next(s, step).entries|
    requires Next(s, step).entries[e].key == k && Next(s, step).entries[e].published
    ensures Mapped(Next(s, step), e)
  {
    hide Holders, SomeoneAt, Alone, EntriesInv, ThreadsInv;
    if step.Erase? { assert TearingDown(s, step.t, s.pcs[step.t].e); }
    assert e < |s.entries| && s.entries[e].published ==> Mapped(s, e);
  }

  lemma StillNotTornDown(s: State, step: Step, k: Key, t: Tid, e: Eid)
    requires Inv(s) && Enabled(s, step) && Settled(s, k)
    requires step.Release? ==> s.entries[s.held[step.r]].key != k
    requires TearingDown(Next(s, step), t, e) && e < |Next(s, step).entries|
    ensures Next(s, step).entries[e].key != k
  {
    hide Holders, SomeoneAt, Alone, EntriesInv, ThreadsInv, MapInv;
    if step.Check? { assert TearingDown(s, step.t, s.pcs[step.t].e); }
    if t != step.t { assert TearingDown(s, t, e); assert Target(s.pcs[t]) == Some(e); }
  }

  lemma StepKeepsSettled(s: State, step: Step, k: Key)
    requires Inv(s) && Enabled(s, step) && Settled(s, k)
    requires step.Release? ==> s.entries[s.held[step.r]].key != k
    ensures Settled(Next(s, step), k)
  {
    hide EntriesInv, ThreadsInv, Alone, MapInv, Next, Enabled, Mapped, TearingDown;
    var s' := Next(s, step);
    forall e | 0 <= e < |s'.entries| && s'.entries[e].key == k && s'.entries[e].published
      ensures Mapped(s', e)
    {
      StillMapped(s, step, k, e);
    }
    forall t: Tid, e: Eid | TearingDown(s', t, e) && e < |s'.entries|
      ensures s'.entries[e].key != k
    {
      StillNotTornDown(s, step, k, t, e);
    }
  }

  lemma {:induction false} RunKeepsSettled(s: State, steps: seq<Step>, k: Key)
    requires Inv(s) && Settled(s, k) && DisciplinedRun(s, steps) && NoReleaseOf(s, steps, k)
    ensures Inv(Run(s, steps)) && Settled(Run(s, steps), k)
    decreases |steps|
  {
    hide Inv, Enabled, Next, InRange, Disciplined, Settled;
    if steps != [] {
      if InRange(s) && Enabled(s, steps[0]) {
        StepKeepsInv(s, steps[0]);
        StepKeepsSettled(s, steps[0], k);
      }
      RunKeepsSettled(StepIfEnabled(s, steps[0]), steps[1..], k);
    }
  }

  /** The step completes an init of `k` whose allocation and insertion, as far as they matter, succeed. */
  predicate Completes(s: State, step: Step, k: Key) {
    && InRange(s) && Enabled(s, step)
    && match step
       case InitShared(_, key, _, ok) => key == k && (ok || k in s.registry)
       case Lookup(_, key, _) => key == k && k in s.registry
       case Publish(t, _, inserted) => s.entries[s.pcs[t].e].key == k && (inserted || k in s.registry)
       case Get(_, _, _) => false
       case Build(_, _) => false
       case Discard(_) => false
       case Release(_, _) => false
       case Check(_) => false
       case Erase(_) => false
       case Delete(_) => false
  }

  /** The registration holds an entry of the connection. */
  predicate Holds(s: State, r: Rid, k: Key) {
    r in s.held && s.held[r] < |s.entries| && s.entries[s.held[r]].key == k
  }

  lemma CompletedHolds(s: State, step: Step, k: Key)
    requires Inv(s) && Completes(s, step, k)
    ensures (step.InitShared? || step.Lookup? || step.Publish?) && Holds(Next(s, step), step.r, k)
  {
    hide EntriesInv, ThreadsInv, Alone;
  }

  lemma StepKeepsHolds(s: State, step: Step, r: Rid, k: Key)
    requires InRange(s) && Enabled(s, step) && Holds(s, r, k)
    requires step.Release? ==> s.entries[s.held[step.r]].key != k
    ensures Holds(Next(s, step), r, k)
  {
  }

  lemma {:induction false} RunKeepsHolds(s: State, steps: seq<Step>, r: Rid, k: Key)
    requires NoReleaseOf(s, steps, k) && Holds(s, r, k)
    ensures Holds(Run(s, steps), r, k)
    decreases |steps|
  {
    hide Enabled, Next, InRange, Holds;
    if steps != [] {
      if InRange(s) && Enabled(s, steps[0]) { StepKeepsHolds(s, steps[0], r, k); }
      RunKeepsHolds(StepIfEnabled(s, steps[0]), steps[1..], r, k);
    }
  }

  /** An init that completes at step `i` of a run holds its entry at the end of the run. */
  lemma {:induction false} CompletedStays(s: State, steps: seq<Step>, k: Key, i: nat)
    requires Inv(s) && DisciplinedRun(s, steps) && NoReleaseOf(s, steps, k)
    requires i < |steps| && Completes(Run(s, steps[..i]), steps[i], k)
    ensures steps[i].InitShared? || steps[i].Lookup? || steps[i].Publish?
    ensures Holds(Run(s, steps), steps[i].r, k)
    decreases |steps|
  {
    hide Inv, Enabled, Next, InRange, Disciplined, Holds, Completes;
    var s' := StepIfEnabled(s, steps[0]);
    if i == 0 {
      assert Run(s, steps[..0]) == s;
      CompletesEnabled(s, steps[0], k);
      CompletedHolds(s, steps[0], k);
      RunKeepsHolds(s', steps[1..], steps[0].r, k);
    } else {
      assert steps[..i][0] == steps[0] && steps[..i][1..] == steps[1..][..i - 1];
      if InRange(s) && Enabled(s, steps[0]) { StepKeepsInv(s, steps[0]); }
      CompletedStays(s', steps[1..], k, i - 1);
    }
  }

  lemma CompletesEnabled(s: State, step: Step, k: Key)
    requires Completes(s, step, k)
    ensures InRange(s) && Enabled(s, step)
  {
  }

  /** Registration `r` holds the one published entry of the connection. */
  predicate HoldsWinner(s: State, r: Rid, k: Key) {
    k in s.registry && r in s.held && s.held[r] == s.registry[k]
  }

  /** Whatever the interleaving: every init of a connection that completes, by finding the entry, by publishing its
      own or by adopting the one published meanwhile, holds one and the same entry, which is the only one ever
      published; its count is the number of completed inits; and every other entry built for the connection
      was never published and is deleted exactly once, as soon as its thread is done. */
  lemma InitRace(threads: nat, steps: seq<Step>, k: Key)
    requires DisciplinedRun(Init(threads), steps) && NoReleaseOf(Init(threads), steps, k)
    ensures var s := Run(Init(threads), steps);
            && (forall i | 0 <= i < |steps| && Completes(Run(Init(threads), steps[..i]), steps[i], k) ::
                  (steps[i].InitShared? || steps[i].Lookup? || steps[i].Publish?) && HoldsWinner(s, steps[i].r, k))
            && (forall r | r in Registrations(s, k) :: HoldsWinner(s, r, k))
            && (k in s.registry ==>
                  && s.registry[k] < |s.entries| && s.entries[s.registry[k]].published
                  && s.entries[s.registry[k]].deletes == 0
                  && s.entries[s.registry[k]].refcount == |Registrations(s, k)|)
            && (forall e | 0 <= e < |s.entries| && s.entries[e].key == k && !Mapped(s, e) ::
                  !s.entries[e].published && s.entries[e].deletes == (if SomeoneAt(s, e) then 0 else 1))
  {
    hide Run, DisciplinedRun, NoReleaseOf, Registrations, Mapped, SomeoneAt, Inv, Settled, Completes, HoldsWinner;
    InitInv(threads);
    InitSettled(threads, k);
    RunKeepsSettled(Init(threads), steps, k);
    var s := Run(Init(threads), steps);
    WinnerIsShared(s, k);
    forall i | 0 <= i < |steps| && Completes(Run(Init(threads), steps[..i]), steps[i], k)
      ensures (steps[i].InitShared? || steps[i].Lookup? || steps[i].Publish?) && HoldsWinner(s, steps[i].r, k)
    {
      CompletedStays(Init(threads), steps, k, i);
      HoldsIsRegistration(s, steps[i].r, k);
    }
    forall e | 0 <= e < |s.entries| && s.entries[e].key == k && !Mapped(s, e)
      ensures !s.entries[e].published && s.entries[e].deletes == (if SomeoneAt(s, e) then 0 else 1)
    {
      LoserIsDeleted(s, k, e);
    }
  }

  lemma InitSettled(threads: nat, k: Key)
    ensures Settled(Init(threads), k)
  {
  }

  lemma HoldsIsRegistration(s: State, r: Rid, k: Key)
    requires Holds(s, r, k)
    ensures r in Registrations(s, k)
  {
  }

  lemma WinnerIsShared(s: State, k: Key)
    requires Inv(s)
    ensures forall r | r in Registrations(s, k) :: HoldsWinner(s, r, k)
    ensures k in s.registry ==>
              && s.registry[k] < |s.entries| && s.entries[s.registry[k]].published
              && s.entries[s.registry[k]].deletes == 0
              && s.entries[s.registry[k]].refcount == |Registrations(s, k)|
  {
    hide Alone, ThreadsInv, SomeoneAt;
    RegistrationsHoldMapped(s, k);
    if k in s.registry {
      EntryAt(s, s.registry[k]);
      forall r | r in Registrations(s, k)
        ensures HoldsWinner(s, r, k)
      {
        assert r in Holders(s, s.registry[k]);
      }
    }
  }

  lemma LoserIsDeleted(s: State, k: Key, e: Eid)
    requires Inv(s) && Settled(s, k) && e < |s.entries| && s.entries[e].key == k && !Mapped(s, e)
    ensures !s.entries[e].published && s.entries[e].deletes == (if SomeoneAt(s, e) then 0 else 1)
  {
    hide Alone, Holders;
    EntryAt(s, e);
    if SomeoneAt(s, e) {
      var t :| At(s, t, e);
      ThreadAt(s, t);
    }
  }
}

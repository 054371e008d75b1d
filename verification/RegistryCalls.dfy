/** The calls of SqliteExtState and SqliteConnState as sequences of protocol steps, with the other threads'
    steps in the gaps between them. */
module RegistryCalls {
  import opened Wrappers
  import opened RegistryProtocol
  import opened RegistryInvariant
  import opened RegistryRuns

  /** One call by a thread: the registration it may create and how its allocation and insertion turn out. */
  datatype Call = Call(t: Tid, r: Rid, allocOk: bool, inserted: bool)

  /** The step with which a call goes on. */
  function OwnStep(pc: Pc, call: Call): Step
    requires pc != Idle
  {
    match pc
    case Missing(_) => Build(call.t, call.allocOk)
    case Built(_) => Publish(call.t, call.r, call.inserted)
    case Discarding(_) => Discard(call.t)
    case Closing(_) => Check(call.t)
    case Erasing(_) => Erase(call.t)
    case Deleting(_) => Delete(call.t)
  }

  predicate Names(step: Step, r: Rid) {
    (step.InitShared? || step.Get? || step.Lookup? || step.Publish? || step.Release?) && step.r == r
  }

  /** Steps of other threads, which do not know the registration of this call yet. */
  predicate OthersOnly(call: Call, steps: seq<Step>) {
    forall i | 0 <= i < |steps| :: steps[i].t != call.t && !Names(steps[i], call.r)
  }

  /** The rest of a call: `gaps[i]` holds the other threads' steps before its i-th step. */
  function Finish(s: State, call: Call, gaps: seq<seq<Step>>): State
    decreases |gaps|
  {
    if gaps == [] || call.t >= |s.pcs| || s.pcs[call.t] == Idle then s
    else Finish(StepIfEnabled(Run(s, gaps[0]), OwnStep(s.pcs[call.t], call)), call, gaps[1..])
  }

  /** The gaps are disciplined runs of the other threads, long enough for the lock to be free when the call
      needs it. */
  predicate GapsOk(s: State, call: Call, gaps: seq<seq<Step>>)
    decreases |gaps|
  {
    gaps != [] && call.t < |s.pcs| && s.pcs[call.t] != Idle ==>
      var own := OwnStep(s.pcs[call.t], call);
      && OthersOnly(call, gaps[0]) && DisciplinedRun(s, gaps[0])
      && (own.Publish? || own.Check? ==> Run(s, gaps[0]).lock == None)
      && GapsOk(StepIfEnabled(Run(s, gaps[0]), own), call, gaps[1..])
  }

  lemma OtherStep(s: State, step: Step, call: Call)
    requires InRange(s) && Enabled(s, step) && step.t != call.t && !Names(step, call.r) && call.t < |s.pcs|
    ensures var s' := Next(s, step);
            && |s'.pcs| == |s.pcs| && s'.pcs[call.t] == s.pcs[call.t]
            && (call.r in s'.held <==> call.r in s.held)
            && (call.r in s.held ==> s'.held[call.r] == s.held[call.r])
  {
  }

  /** Other threads' steps leave the call where it is. */
  lemma {:induction false} OthersKeepCall(s: State, call: Call, steps: seq<Step>)
    requires OthersOnly(call, steps) && call.t < |s.pcs|
    ensures var s' := Run(s, steps);
            && |s'.pcs| == |s.pcs| && s'.pcs[call.t] == s.pcs[call.t]
            && (call.r in s'.held <==> call.r in s.held)
            && (call.r in s.held ==> s'.held[call.r] == s.held[call.r])
    decreases |steps|
  {
    hide Enabled, Next, InRange;
    if steps != [] {
      if InRange(s) && Enabled(s, steps[0]) {
        OtherStep(s, steps[0], call);
      }
      OthersKeepCall(StepIfEnabled(s, steps[0]), call, steps[1..]);
    }
  }

  /** How many steps of its own a call still takes at most. */
  function StepsLeft(pc: Pc): nat {
    match pc
    case Idle => 0
    case Missing(_) => 3
    case Built(_) => 2
    case Discarding(_) => 1
    case Closing(_) => 3
    case Erasing(_) => 2
    case Deleting(_) => 1
  }

  lemma OwnStepEnabled(s: State, call: Call)
    requires Inv(s) && call.t < |s.pcs| && s.pcs[call.t] != Idle
    requires s.pcs[call.t].Built? ==> call.r !in s.held
    requires s.pcs[call.t].Built? || s.pcs[call.t].Closing? ==> s.lock == None
    ensures var step := OwnStep(s.pcs[call.t], call);
            && Enabled(s, step) && Disciplined(s, step)
            && var s' := Next(s, step);
               && |s'.pcs| == |s.pcs| && StepsLeft(s'.pcs[call.t]) < StepsLeft(s.pcs[call.t])
               && !s'.pcs[call.t].Missing?
               && (s'.pcs[call.t].Built? ==> s.pcs[call.t].Missing? && s'.held == s.held)
  {
  }

  /** A call always comes to its end, and the invariant survives it. */
  lemma {:induction false} FinishEnds(s: State, call: Call, gaps: seq<seq<Step>>)
    requires Inv(s) && call.t < |s.pcs| && GapsOk(s, call, gaps) && StepsLeft(s.pcs[call.t]) <= |gaps|
    requires s.pcs[call.t].Missing? || s.pcs[call.t].Built? ==> call.r !in s.held
    ensures Inv(Finish(s, call, gaps))
    ensures |Finish(s, call, gaps).pcs| == |s.pcs| && Finish(s, call, gaps).pcs[call.t] == Idle
    decreases |gaps|
  {
    hide Inv, Enabled, Next, Disciplined, InRange, DisciplinedRun;
    if s.pcs[call.t] != Idle {
      var mid := Run(s, gaps[0]);
      RunKeepsInv(s, gaps[0]);
      OthersKeepCall(s, call, gaps[0]);
      InvInRange(mid);
      OwnStepEnabled(mid, call);
      StepKeepsInv(mid, OwnStep(s.pcs[call.t], call));
      FinishEnds(StepIfEnabled(mid, OwnStep(s.pcs[call.t], call)), call, gaps[1..]);
    }
  }

  lemma FinishUnfolds(s: State, call: Call, gaps: seq<seq<Step>>, k: nat)
    requires Inv(s) && k < |gaps| && call.t < |s.pcs| && s.pcs[call.t] != Idle && GapsOk(s, call, gaps[k..])
    requires s.pcs[call.t].Missing? || s.pcs[call.t].Built? ==> call.r !in s.held
    ensures OthersOnly(call, gaps[k]) && DisciplinedRun(s, gaps[k])
    ensures var mid := Run(s, gaps[k]);
            var step := OwnStep(s.pcs[call.t], call);
            && InRange(mid) && Enabled(mid, step) && Disciplined(mid, step)
            && Finish(s, call, gaps[k..]) == Finish(Next(mid, step), call, gaps[k + 1..])
            && GapsOk(Next(mid, step), call, gaps[k + 1..])
  {
    hide Inv, Enabled, Next, Run, InRange, Disciplined, DisciplinedRun, OthersOnly;
    assert gaps[k..][0] == gaps[k] && gaps[k..][1..] == gaps[k + 1..];
    RunKeepsInv(s, gaps[k]);
    OthersKeepCall(s, call, gaps[k]);
    OwnStepEnabled(Run(s, gaps[k]), call);
    InvInRange(Run(s, gaps[k]));
  }

  lemma FinishIdle(s: State, call: Call, gaps: seq<seq<Step>>)
    requires call.t < |s.pcs| && s.pcs[call.t] == Idle
    ensures Finish(s, call, gaps) == s
  {
  }
}

/** A registry with its entries, updated in place: the map, the counts and the registry lock. */
module Registries {
  import opened Wrappers
  import opened RegistryProtocol
  import opened RegistryInvariant
  import opened RegistryRuns
  import opened RegistryCalls

  /** The state in which a call of SqliteConnState::init that missed builds its own entry. */
  function BuildingState(s: State, call: Call, k: Key, gaps: seq<seq<Step>>): State
    requires |gaps| == 3
  {
    Run(StepIfEnabled(s, Lookup(call.t, k, call.r)), gaps[0])
  }

  /** The entry it builds. */
  function OwnEntry(s: State, call: Call, k: Key, gaps: seq<seq<Step>>): Eid
    requires |gaps| == 3
  {
    |BuildingState(s, call, k, gaps).entries|
  }

  /** The state in which its second critical section begins. */
  function SecondSection(s: State, call: Call, k: Key, gaps: seq<seq<Step>>): State
    requires |gaps| == 3
  {
    Run(StepIfEnabled(BuildingState(s, call, k, gaps), Build(call.t, call.allocOk)), gaps[1])
  }

  class Registry {
    var entries: seq<Entry>
    var registry: map<Key, Eid>
    var held: map<Rid, Eid>
    var pcs: seq<Pc>
    var lock: Option<Tid>

    constructor (threads: nat)
      ensures Abs() == Init(threads) && Inv(Abs())
    {
      entries, registry, held, lock := [], map[], map[], None;
      pcs := seq(threads, i => Idle);
      InitInv(threads);
    }

    function Abs(): State
      reads this
    {
      State(entries, registry, held, pcs, lock)
    }

    method Set(s: State)
      modifies this
      ensures Abs() == s
    {
      entries, registry, held, pcs, lock := s.entries, s.registry, s.held, s.pcs, s.lock;
    }

    /** The steps other threads get in between two operations of a call. */
    method Interfere(ghost call: Call, others: seq<Step>)
      requires Inv(Abs()) && call.t < |pcs| && OthersOnly(call, others) && DisciplinedRun(Abs(), others)
      modifies this
      ensures Abs() == Run(old(Abs()), others) && Inv(Abs())
      ensures |pcs| == |old(pcs)| && pcs[call.t] == old(pcs)[call.t]
      ensures call.r in held <==> call.r in old(held)
      ensures call.r in held ==> held[call.r] == old(held)[call.r]
    {
      hide Inv, Enabled, Next, InRange, StepIfEnabled, DisciplinedRun;
      ghost var s0 := Abs();
      var k := 0;
      while k < |others|
        invariant 0 <= k <= |others|
        invariant Run(Abs(), others[k..]) == Run(s0, others)
      {
        assert others[k..][1..] == others[k + 1..] && others[k..][0] == others[k];
        Set(StepIfEnabled(Abs(), others[k]));
        k := k + 1;
      }
      RunKeepsInv(s0, others);
      OthersKeepCall(s0, call, others);
    }

    /** entry_retain under the registry lock, with the registration it stands for. */
    method EntryRetain(e: Eid, r: Rid)
      requires Inv(Abs()) && Mapped(Abs(), e) && r !in held && lock == None
      modifies this
      ensures Abs() == Retain(old(Abs()), e, r) && Inv(Abs())
    {
      hide Inv;
      RetainKeeps(Abs(), e, r);
      entries := entries[e := entries[e].(refcount := entries[e].refcount + 1)];
      held := held[r := e];
    }

    method EntryFind(k: Key) returns (e: Option<Eid>)
      requires Inv(Abs())
      ensures e.Some? <==> k in registry
      ensures e.Some? ==> Mapped(Abs(), e.value) && entries[e.value].key == k && e.value == registry[k]
    {
      e := if k in registry then Some(registry[k]) else None;
    }

    /** SqliteExtState::init: find or allocate under the lock, then retain. A failed allocation gives null. */
    method InitShared(t: Tid, k: Key, r: Rid, allocOk: bool) returns (entry: Option<Eid>)
      requires Inv(Abs()) && Enabled(Abs(), Step.InitShared(t, k, r, allocOk))
      modifies this
      ensures Inv(Abs()) && InRange(old(Abs())) && Abs() == Next(old(Abs()), Step.InitShared(t, k, r, allocOk))
      ensures entry == (if r in held then Some(held[r]) else None)
      ensures entry.None? <==> k !in old(registry) && !allocOk
    {
      hide Inv, Disciplined;
      InvInRange(Abs());
      StepKeepsInv(Abs(), Step.InitShared(t, k, r, allocOk)) by {
        NotARelease(Abs(), Step.InitShared(t, k, r, allocOk));
      }
      entry := EntryFind(k);
      if entry.None? && allocOk {
        var e := |entries|;
        entries := entries + [Entry(k, 0, true, 0)];
        registry := registry[k := e];
        entry := Some(e);
        entries := entries[e := entries[e].(refcount := entries[e].refcount + 1)];
        held := held[r := e];
      } else if entry.Some? {
        EntryRetain(entry.value, r);
      }
    }

    /** entry_get: find and retain. */
    method EntryGet(t: Tid, k: Key, r: Rid) returns (entry: Option<Eid>)
      requires Inv(Abs()) && Enabled(Abs(), Get(t, k, r))
      modifies this
      ensures Inv(Abs()) && InRange(old(Abs())) && Abs() == Next(old(Abs()), Get(t, k, r))
      ensures entry == (if k in old(registry) then Some(old(registry)[k]) else None)
      ensures entry.Some? ==> r in held && held[r] == entry.value
                              && GivesOut(old(Abs()), Abs(), r, entry.value)
    {
      hide Inv;
      InvInRange(Abs());
      entry := EntryFind(k);
      if entry.Some? {
        EntryRetain(entry.value, r);
      }
    }

    /** SqliteConnState::init: fast path under the lock, construction outside it, then either adopt the entry
        another thread has published meanwhile or publish the own one. Null has two causes: the connection is
        not registered and memory is short, or it still is not when insertion fails. */
    method InitConn(call: Call, k: Key, gaps: seq<seq<Step>>) returns (entry: Option<Eid>)
      requires Inv(Abs()) && |gaps| == 3 && Enabled(Abs(), Lookup(call.t, k, call.r))
      requires InRange(Abs()) && GapsOk(Next(Abs(), Lookup(call.t, k, call.r)), call, gaps)
      modifies this
      ensures Inv(Abs()) && |pcs| == |old(pcs)| && pcs[call.t] == Idle && InRange(old(Abs()))
      ensures Abs() == Finish(Next(old(Abs()), Lookup(call.t, k, call.r)), call, gaps)
      ensures entry == (if call.r in held then Some(held[call.r]) else None)
      ensures k in old(registry) ==> entry == Some(old(registry)[k])
      ensures k !in old(registry) && !call.allocOk ==> entry == None
      ensures k !in old(registry) && call.allocOk ==>
                var own, mid := OwnEntry(old(Abs()), call, k, gaps), SecondSection(old(Abs()), call, k, gaps);
                entry == if k in mid.registry then Some(mid.registry[k]) else if call.inserted then Some(own) else None
      ensures call.allocOk && call.inserted ==> entry.Some?
    {
      hide Inv, Disciplined, Finish, GapsOk, DisciplinedRun, OthersOnly, Run, Holders, Mapped;
      var t, r := call.t, call.r;
      assert gaps[0..] == gaps;
      entry := EntryFind(k);
      if entry.Some? {
        assert Mapped(Abs(), entry.value);
        EntryRetain(entry.value, r);
        FinishIdle(Abs(), call, gaps);
        return;
      }
      StepKeepsInv(Abs(), Lookup(t, k, r)) by { NotARelease(Abs(), Lookup(t, k, r)); }
      pcs := pcs[t := Missing(k)];
      FinishUnfolds(Abs(), call, gaps, 0);
      Interfere(call, gaps[0]);
      ghost var s1 := Abs();
      StepKeepsInv(s1, Build(t, call.allocOk));
      if !call.allocOk {
        pcs := pcs[t := Idle];
        FinishIdle(Abs(), call, gaps[1..]);
        return;
      }
      var own := |entries|;
      entries := entries + [Entry(k, 1, false, 0)];
      pcs := pcs[t := Built(own)];
      entry := PublishOrAdopt(call, k, own, gaps);
    }

    /** The part of SqliteConnState::init after the own entry has been built. */
    method PublishOrAdopt(call: Call, k: Key, own: Eid, gaps: seq<seq<Step>>) returns (entry: Option<Eid>)
      requires Inv(Abs()) && |gaps| == 3 && call.t < |pcs| && pcs[call.t] == Built(own) && call.r !in held
      requires own < |entries| && entries[own].key == k && GapsOk(Abs(), call, gaps[1..])
      modifies this
      ensures Inv(Abs()) && |pcs| == |old(pcs)| && pcs[call.t] == Idle
      ensures Abs() == Finish(old(Abs()), call, gaps[1..])
      ensures entry == (if call.r in held then Some(held[call.r]) else None)
      ensures var mid := Run(old(Abs()), gaps[1]);
              entry == if k in mid.registry then Some(mid.registry[k]) else if call.inserted then Some(own) else None
    {
      hide Inv, Disciplined, Finish, GapsOk, DisciplinedRun, OthersOnly, Run, Holders;
      var t, r := call.t, call.r;
      RunKeepsKeys(Abs(), gaps[1], own);
      FinishUnfolds(Abs(), call, gaps, 1);
      Interfere(call, gaps[1]);
      ghost var s1 := Abs();
      InvInRange(s1);
      StepKeepsInv(s1, Publish(t, r, call.inserted));
      entry := EntryFind(k);
      if entry.Some? {
        EntryRetain(entry.value, r);
        pcs := pcs[t := Discarding(own)];
      } else if call.inserted {
        registry := registry[k := own];
        entries := entries[own := entries[own].(published := true)];
        held := held[r := own];
        entry := Some(own);
        pcs := pcs[t := Idle];
      } else {
        pcs := pcs[t := Discarding(own)];
      }
      assert Abs() == Next(s1, Publish(t, r, call.inserted));
      DeleteOwn(call, gaps);
    }

    /** sqlite_delete(new_entry) after the entry turned out not to be needed, or could not be inserted. */
    method DeleteOwn(call: Call, gaps: seq<seq<Step>>)
      requires Inv(Abs()) && |gaps| == 3 && call.t < |pcs| && (pcs[call.t].Discarding? || pcs[call.t] == Idle)
      requires GapsOk(Abs(), call, gaps[2..])
      modifies this
      ensures Inv(Abs()) && |pcs| == |old(pcs)| && pcs[call.t] == Idle
      ensures Abs() == Finish(old(Abs()), call, gaps[2..])
      ensures call.r in held <==> call.r in old(held)
      ensures call.r in held ==> held[call.r] == old(held)[call.r]
    {
      hide Inv, Disciplined, Finish, GapsOk, DisciplinedRun, OthersOnly, Run, Holders, Mapped;
      if pcs[call.t] == Idle {
        FinishIdle(Abs(), call, gaps[2..]);
        return;
      }
      FinishUnfolds(Abs(), call, gaps, 2);
      Interfere(call, gaps[2]);
      InvInRange(Abs());
      StepKeepsInv(Abs(), Discard(call.t));
      var own := pcs[call.t].e;
      entries := entries[own := entries[own].(deletes := entries[own].deletes + 1)];
      pcs := pcs[call.t := Idle];
      FinishIdle(Abs(), call, gaps[3..]);
    }

    /** entry_release, which is the destructor handed to SQLite: the decrement, and teardown at zero. */
    method EntryRelease(call: Call, gaps: seq<seq<Step>>)
      requires Inv(Abs()) && |gaps| == 3 && Enabled(Abs(), Release(call.t, call.r))
      requires Disciplined(Abs(), Release(call.t, call.r)) && InRange(Abs())
      requires GapsOk(Next(Abs(), Release(call.t, call.r)), call, gaps)
      modifies this
      ensures Inv(Abs()) && |pcs| == |old(pcs)| && pcs[call.t] == Idle
      ensures Abs() == Finish(Next(old(Abs()), Release(call.t, call.r)), call, gaps)
    {
      hide Inv, Disciplined, Finish, GapsOk, DisciplinedRun, OthersOnly, Run, Holders, Mapped;
      StepKeepsInv(Abs(), Release(call.t, call.r));
      var e := held[call.r];
      entries := entries[e := entries[e].(refcount := entries[e].refcount - 1)];
      held := held - {call.r};
      if entries[e].refcount == 0 {
        pcs := pcs[call.t := Closing(e)];
        EntryFree(call, gaps);
      } else {
        FinishIdle(Abs(), call, gaps);
      }
    }

    /** entry_free: re-check under the lock, unlink, unlock, delete. */
    method EntryFree(call: Call, gaps: seq<seq<Step>>)
      requires Inv(Abs()) && |gaps| == 3 && call.t < |pcs| && pcs[call.t].Closing? && GapsOk(Abs(), call, gaps)
      modifies this
      ensures Inv(Abs()) && |pcs| == |old(pcs)| && pcs[call.t] == Idle
      ensures Abs() == Finish(old(Abs()), call, gaps)
    {
      hide Inv, Disciplined, Finish, GapsOk, DisciplinedRun, OthersOnly, Run, Holders, Mapped;
      assert gaps[0..] == gaps;
      FinishUnfolds(Abs(), call, gaps, 0);
      Interfere(call, gaps[0]);
      InvInRange(Abs());
      StepKeepsInv(Abs(), Check(call.t));
      var e := pcs[call.t].e;
      if entries[e].refcount > 0 {
        pcs := pcs[call.t := Idle];
        FinishIdle(Abs(), call, gaps[1..]);
        return;
      }
      lock := Some(call.t);
      pcs := pcs[call.t := Erasing(e)];
      UnlinkAndDelete(call, gaps);
    }

    method UnlinkAndDelete(call: Call, gaps: seq<seq<Step>>)
      requires Inv(Abs()) && |gaps| == 3 && call.t < |pcs| && pcs[call.t].Erasing? && GapsOk(Abs(), call, gaps[1..])
      modifies this
      ensures Inv(Abs()) && |pcs| == |old(pcs)| && pcs[call.t] == Idle
      ensures Abs() == Finish(old(Abs()), call, gaps[1..])
    {
      hide Inv, Disciplined, Finish, GapsOk, DisciplinedRun, OthersOnly, Run, Holders, Mapped;
      FinishUnfolds(Abs(), call, gaps, 1);
      Interfere(call, gaps[1]);
      InvInRange(Abs());
      StepKeepsInv(Abs(), Erase(call.t));
      var e := pcs[call.t].e;
      registry := registry - {entries[e].key};
      lock := None;
      pcs := pcs[call.t := Deleting(e)];
      DeleteUnlinked(call, gaps);
    }

    /** sqlite_delete(entry) at the end of entry_free. */
    method DeleteUnlinked(call: Call, gaps: seq<seq<Step>>)
      requires Inv(Abs()) && |gaps| == 3 && call.t < |pcs| && pcs[call.t].Deleting? && GapsOk(Abs(), call, gaps[2..])
      modifies this
      ensures Inv(Abs()) && |pcs| == |old(pcs)| && pcs[call.t] == Idle
      ensures Abs() == Finish(old(Abs()), call, gaps[2..])
    {
      hide Inv, Disciplined, Finish, GapsOk, DisciplinedRun, OthersOnly, Run, Holders, Mapped;
      FinishUnfolds(Abs(), call, gaps, 2);
      Interfere(call, gaps[2]);
      InvInRange(Abs());
      StepKeepsInv(Abs(), Delete(call.t));
      var e := pcs[call.t].e;
      entries := entries[e := entries[e].(deletes := entries[e].deletes + 1)];
      pcs := pcs[call.t := Idle];
      FinishIdle(Abs(), call, gaps[3..]);
    }
  }

  lemma NotARelease(s: State, step: Step)
    requires !step.Release?
    ensures Disciplined(s, step)
  {
  }
}

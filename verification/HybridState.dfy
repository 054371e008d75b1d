/** SqliteHybridState: one Holder owns a registration in the path registry and one in the connection
    registry. Calls run here with no other thread inside the registries. */
module HybridState {
  import opened Wrappers
  import opened RegistryProtocol
  import opened RegistryInvariant
  import opened RegistryRuns
  import opened RegistryCalls
  import opened Registries

  const NO_GAPS: seq<seq<Step>> := [[], [], []]

  /** SqliteConnState::init without interference. */
  function ConnInitAlone(s: State, call: Call, k: Key): State
    requires InRange(s) && Enabled(s, Lookup(call.t, k, call.r))
  {
    Finish(Next(s, Lookup(call.t, k, call.r)), call, NO_GAPS)
  }

  /** The destructor of either registry without interference; a null registration is skipped. */
  function DropAlone(s: State, t: Tid, r: Rid): State {
    if InRange(s) && Enabled(s, Release(t, r)) then Finish(Next(s, Release(t, r)), DropCall(t, r), NO_GAPS)
    else s
  }

  /** A destructor call; it allocates and inserts nothing. */
  function DropCall(t: Tid, r: Rid): Call { Call(t, r, false, false) }

  /** The registry as before: same map, same registrations, same entries; whatever was made on the way is
      deleted, exactly once. */
  predicate Restored(s: State, s': State) {
    && s'.registry == s.registry && s'.held == s.held && s'.pcs == s.pcs && s'.lock == s.lock
    && |s.entries| <= |s'.entries| && s'.entries[..|s.entries|] == s.entries
    && forall e | |s.entries| <= e < |s'.entries| :: s'.entries[e].deletes == 1
  }

  // ---------------------------------------------------------------- calls without interference

  lemma FinishAlone(s: State, call: Call, k: nat)
    requires Inv(s) && k < 3 && call.t < |s.pcs| && s.pcs[call.t] != Idle
    ensures Finish(s, call, NO_GAPS[k..])
         == Finish(StepIfEnabled(s, OwnStep(s.pcs[call.t], call)), call, NO_GAPS[k + 1..])
  {
    hide StepIfEnabled, Inv;
    assert NO_GAPS[k..][0] == [] && NO_GAPS[k..][1..] == NO_GAPS[k + 1..];
    RunNone(s);
  }

  lemma RestIsUnlocked(s: State)
    requires Inv(s) && AtRest(s)
    ensures s.lock == None
  {
    hide EntriesInv, ThreadsInv, Alone;
  }

  lemma RestingCount(s: State, e: Eid)
    requires Inv(s) && AtRest(s) && Mapped(s, e)
    ensures s.entries[e].refcount > 0
  {
    hide Holders;
    EntryAt(s, e);
    assert !SomeoneAt(s, e);
  }

  lemma NothingPending(s: State, step: Step)
    requires AtRest(s)
    ensures Disciplined(s, step)
  {
  }

  /** `s` with one more registered entry, the way a first registration of `k` leaves it. */
  function WithFresh(s: State, k: Key, r: Rid): State {
    s.(entries := s.entries + [Entry(k, 1, true, 0)], registry := s.registry[k := |s.entries|],
       held := s.held[r := |s.entries|])
  }

  /** Dropping the only registration of an entry takes it out of the map and deletes it. */
  lemma DropFresh(s: State, call: Call, k: Key)
    requires Inv(s) && AtRest(s) && call.t < |s.pcs| && k !in s.registry && call.r !in s.held
    requires Inv(WithFresh(s, k, call.r))
    ensures Restored(s, DropAlone(WithFresh(s, k, call.r), call.t, call.r))
  {
    hide Inv, Finish;
    var t := call.t;
    RestIsUnlocked(s);
    var s1 := WithFresh(s, k, call.r);
    NothingPending(s1, Release(t, call.r));
    InvInRange(s1);
    StepKeepsInv(s1, Release(t, call.r));
    var s2 := Next(s1, Release(t, call.r));
    assert s2.pcs[t] == Closing(|s.entries|);
    DropPending(s2, DropCall(t, call.r));
  }

  /** The rest of a teardown nobody interferes with. */
  lemma DropPending(s: State, call: Call)
    requires Inv(s) && call.t < |s.pcs| && s.pcs[call.t].Closing? && s.lock == None
    requires s.pcs[call.t].e < |s.entries| && s.entries[s.pcs[call.t].e].refcount == 0
    ensures Finish(s, call, NO_GAPS) == TornDown(s, s.pcs[call.t].e).(pcs := s.pcs[call.t := Idle])
  {
    hide Inv, Finish;
    var t, e := call.t, s.pcs[call.t].e;
    assert NO_GAPS[0..] == NO_GAPS;
    InvInRange(s);
    FinishAlone(s, call, 0);
    StepKeepsInv(s, Check(t));
    var s1 := Next(s, Check(t));
    InvInRange(s1);
    FinishAlone(s1, call, 1);
    StepKeepsInv(s1, Erase(t));
    var s2 := Next(s1, Erase(t));
    InvInRange(s2);
    FinishAlone(s2, call, 2);
    var s3 := Next(s2, Delete(t));
    FinishIdle(s3, call, NO_GAPS[3..]);
  }

  /** Dropping the registration that was just added to a mapped entry. */
  lemma DropRetained(s: State, call: Call, f: Eid)
    requires Inv(s) && AtRest(s) && call.t < |s.pcs| && Mapped(s, f) && call.r !in s.held
    ensures Restored(s, DropAlone(Retain(s, f, call.r), call.t, call.r))
  {
    hide Inv;
    RestIsUnlocked(s);
    RestingCount(s, f);
    RetainKeeps(s, f, call.r);
    var s1 := Retain(s, f, call.r);
    InvInRange(s1);
    FinishIdle(Next(s1, Release(call.t, call.r)), DropCall(call.t, call.r), NO_GAPS);
  }

  // ---------------------------------------------------------------- what a registration leaves behind

  /** SqliteExtState: init, then destructor. */
  lemma SharedRoundTrip(s: State, call: Call, k: Key)
    requires Inv(s) && AtRest(s) && call.t < |s.pcs| && call.r !in s.held
    ensures InRange(s) && Enabled(s, InitShared(call.t, k, call.r, call.allocOk))
    ensures Restored(s, DropAlone(Next(s, InitShared(call.t, k, call.r, call.allocOk)), call.t, call.r))
  {
    hide Inv, DropAlone;
    var step := InitShared(call.t, k, call.r, call.allocOk);
    RestIsUnlocked(s);
    InvInRange(s);
    NothingPending(s, step);
    StepKeepsInv(s, step);
    if k in s.registry {
      MappedKey(s, k);
      DropRetained(s, call, s.registry[k]);
    } else if call.allocOk {
      assert Next(s, step).entries == WithFresh(s, k, call.r).entries;
      assert Next(s, step) == WithFresh(s, k, call.r);
      DropFresh(s, call, k);
    } else {
      NothingToDrop(s, call);
    }
  }

  lemma MappedKey(s: State, k: Key)
    requires Inv(s) && k in s.registry
    ensures Mapped(s, s.registry[k])
  {
  }

  lemma NothingToDrop(s: State, call: Call)
    requires call.r !in s.held
    ensures DropAlone(s, call.t, call.r) == s
  {
  }

  /** What SqliteConnState::init leaves behind when nobody interferes. */
  lemma ConnInitOutcome(s: State, call: Call, k: Key)
    requires Inv(s) && AtRest(s) && call.t < |s.pcs| && call.r !in s.held
    ensures InRange(s) && Enabled(s, Lookup(call.t, k, call.r))
    ensures var s' := ConnInitAlone(s, call, k);
            if k in s.registry then s.registry[k] < |s.entries| && s' == Retain(s, s.registry[k], call.r)
            else if !call.allocOk then s' == s
            else if call.inserted then s' == WithFresh(s, k, call.r) && Inv(s')
            else s' == s.(entries := s.entries + [Entry(k, 1, false, 1)])
  {
    hide Inv, Finish;
    var t := call.t;
    RestIsUnlocked(s);
    InvInRange(s);
    var s1 := Next(s, Lookup(t, k, call.r));
    if k in s.registry {
      FinishIdle(s1, call, NO_GAPS);
    } else {
      StepKeepsInv(s, Lookup(t, k, call.r));
      BuildOutcome(s1, call, k);
      assert s1.pcs[t := Idle] == s.pcs;
    }
  }

  lemma BuildOutcome(s: State, call: Call, k: Key)
    requires Inv(s) && call.t < |s.pcs| && s.pcs[call.t] == Missing(k) && call.r !in s.held && s.lock == None
    requires k !in s.registry
    ensures var s' := Finish(s, call, NO_GAPS);
            var s0 := SetPc(s, call.t, Idle);
            if !call.allocOk then s' == s0
            else if call.inserted then s' == WithFresh(s0, k, call.r) && Inv(s')
            else s' == s0.(entries := s.entries + [Entry(k, 1, false, 1)])
  {
    hide Inv, Finish;
    var t := call.t;
    assert NO_GAPS[0..] == NO_GAPS;
    InvInRange(s);
    FinishAlone(s, call, 0);
    StepKeepsInv(s, Build(t, call.allocOk));
    var s1 := Next(s, Build(t, call.allocOk));
    if !call.allocOk {
      FinishIdle(s1, call, NO_GAPS[1..]);
    } else {
      InvInRange(s1);
      FinishAlone(s1, call, 1);
      StepKeepsInv(s1, Publish(t, call.r, call.inserted));
      var s2 := Next(s1, Publish(t, call.r, call.inserted));
      InvInRange(s2);
      if call.inserted {
        FinishIdle(s2, call, NO_GAPS[2..]);
      } else {
        FinishAlone(s2, call, 2);
        FinishIdle(Next(s2, Discard(t)), call, NO_GAPS[3..]);
      }
    }
  }

  /** SqliteConnState: init, then destructor. */
  lemma ConnRoundTrip(s: State, call: Call, k: Key)
    requires Inv(s) && AtRest(s) && call.t < |s.pcs| && call.r !in s.held
    ensures InRange(s) && Enabled(s, Lookup(call.t, k, call.r))
    ensures Restored(s, DropAlone(ConnInitAlone(s, call, k), call.t, call.r))
  {
    hide Inv, DropAlone, ConnInitAlone;
    ConnInitOutcome(s, call, k);
    if k in s.registry {
      MappedKey(s, k);
      DropRetained(s, call, s.registry[k]);
    } else if call.allocOk && call.inserted {
      DropFresh(s, call, k);
    } else {
      NothingToDrop(ConnInitAlone(s, call, k), call);
    }
  }

  lemma GapsOkStep(s: State, call: Call, k: nat)
    requires k < 3 && call.t < |s.pcs| && s.pcs[call.t] != Idle
    requires s.pcs[call.t].Built? || s.pcs[call.t].Closing? ==> s.lock == None
    requires GapsOk(StepIfEnabled(s, OwnStep(s.pcs[call.t], call)), call, NO_GAPS[k + 1..])
    ensures GapsOk(s, call, NO_GAPS[k..])
  {
    hide StepIfEnabled;
    assert NO_GAPS[k..][0] == [] && NO_GAPS[k..][1..] == NO_GAPS[k + 1..];
    RunNone(s);
    DisciplinedNone(s);
  }

  /** Without other threads the lock is free whenever a call needs it. */
  lemma {:induction false} GapsOkAlone(s: State, call: Call, k: nat)
    requires Inv(s) && k <= 3 && call.t < |s.pcs| && (s.lock == None || s.lock == Some(call.t))
    requires s.pcs[call.t].Missing? || s.pcs[call.t].Built? ==> call.r !in s.held
    requires s.lock.Some? ==> s.pcs[call.t].Erasing?
    ensures GapsOk(s, call, NO_GAPS[k..])
    decreases 3 - k
  {
    hide Inv;
    if k < 3 && s.pcs[call.t] != Idle {
      var step := OwnStep(s.pcs[call.t], call);
      InvInRange(s);
      OwnStepEnabled(s, call);
      StepKeepsInv(s, step);
      GapsOkAlone(Next(s, step), call, k + 1);
      GapsOkStep(s, call, k);
    }
  }

  lemma RestoredItself(s: State)
    ensures Restored(s, s)
  {
  }

  /** A destructor call with no thread inside the registry. */
  method DestroyAlone(reg: Registry, t: Tid, r: Rid)
    requires Inv(reg.Abs()) && AtRest(reg.Abs()) && t < |reg.pcs| && r in reg.held
    modifies reg
    ensures Inv(reg.Abs()) && reg.Abs() == DropAlone(old(reg.Abs()), t, r)
  {
    hide Inv, Finish, GapsOk;
    RestIsUnlocked(reg.Abs());
    InvInRange(reg.Abs());
    NothingPending(reg.Abs(), Release(t, r));
    StepKeepsInv(reg.Abs(), Release(t, r));
    assert NO_GAPS[0..] == NO_GAPS;
    GapsOkAlone(Next(reg.Abs(), Release(t, r)), DropCall(t, r), 0);
    reg.EntryRelease(DropCall(t, r), NO_GAPS);
  }

  /** SqliteConnState::init with no thread inside the registry. */
  method ConnInitCall(reg: Registry, call: Call, k: Key) returns (entry: Option<Eid>)
    requires Inv(reg.Abs()) && AtRest(reg.Abs()) && call.t < |reg.pcs| && call.r !in reg.held
    modifies reg
    ensures InRange(old(reg.Abs())) && Enabled(old(reg.Abs()), Lookup(call.t, k, call.r))
    ensures Inv(reg.Abs()) && AtRest(reg.Abs()) && reg.Abs() == ConnInitAlone(old(reg.Abs()), call, k)
    ensures |reg.pcs| == |old(reg.pcs)| && entry == (if call.r in reg.held then Some(reg.held[call.r]) else None)
  {
    hide Inv, Finish, GapsOk;
    RestIsUnlocked(reg.Abs());
    InvInRange(reg.Abs());
    NothingPending(reg.Abs(), Lookup(call.t, k, call.r));
    StepKeepsInv(reg.Abs(), Lookup(call.t, k, call.r));
    assert NO_GAPS[0..] == NO_GAPS;
    GapsOkAlone(Next(reg.Abs(), Lookup(call.t, k, call.r)), call, 0);
    ConnInitOutcome(reg.Abs(), call, k);
    entry := reg.InitConn(call, k, NO_GAPS);
  }

  // ---------------------------------------------------------------- the hybrid state itself

  /** The registrations a Holder owns; None stands for a null pointer. */
  datatype Holder = Holder(ext: Option<Rid>, conn: Option<Rid>)

  /** `sqlite3 *db`: null, or a connection with the path of its main database. */
  datatype Db = NullDb | Open(path: Key, conn: Key)

  class Hybrid {
    const ext: Registry
    const conn: Registry
    var holders: map<nat, Holder>

    constructor (ext: Registry, conn: Registry)
      ensures this.ext == ext && this.conn == conn && holders == map[]
    {
      this.ext, this.conn, holders := ext, conn, map[];
    }

    predicate Quiet()
      reads this, ext, conn
    {
      ext != conn && AtRest(ext.Abs()) && AtRest(conn.Abs())
    }

    ghost predicate Valid()
      reads this, ext, conn
    {
      Quiet() && Inv(ext.Abs()) && Inv(conn.Abs())
    }

    /** init: both registries, then the Holder; if that cannot be allocated, both destructors. The calls use
        fresh registration names. */
    method Init(db: Db, extCall: Call, connCall: Call, h: nat, holderOk: bool) returns (ok: bool)
      requires Valid() && h !in holders
      requires extCall.t < |ext.pcs| && extCall.r !in ext.held && connCall.t < |conn.pcs| && connCall.r !in conn.held
      modifies this, ext, conn
      ensures Inv(ext.Abs()) && Inv(conn.Abs())
      ensures ok <==> db.Open? && holderOk
      ensures !ok ==> holders == old(holders)
                      && Restored(old(ext.Abs()), ext.Abs()) && Restored(old(conn.Abs()), conn.Abs())
      ensures ok ==>
        && holders == old(holders)[h := Holder(if extCall.r in ext.held then Some(extCall.r) else None,
                                               if connCall.r in conn.held then Some(connCall.r) else None)]
        && InRange(old(ext.Abs())) && InRange(old(conn.Abs()))
        && Enabled(old(ext.Abs()), InitShared(extCall.t, db.path, extCall.r, extCall.allocOk))
        && Enabled(old(conn.Abs()), Lookup(connCall.t, db.conn, connCall.r))
        && ext.Abs() == Next(old(ext.Abs()), InitShared(extCall.t, db.path, extCall.r, extCall.allocOk))
        && conn.Abs() == ConnInitAlone(old(conn.Abs()), connCall, db.conn)
    {
      hide Inv, Finish, Restored, DropAlone, ConnInitAlone;
      RestoredItself(ext.Abs());
      RestoredItself(conn.Abs());
      if db.NullDb? {
        return false;
      }
      SharedRoundTrip(ext.Abs(), extCall, db.path);
      ConnRoundTrip(conn.Abs(), connCall, db.conn);
      var extRaw := ext.InitShared(extCall.t, db.path, extCall.r, extCall.allocOk);
      var connRaw := ConnInitCall(conn, connCall, db.conn);
      if !holderOk {
        if extRaw.Some? { DestroyAlone(ext, extCall.t, extCall.r); } else { NothingToDrop(ext.Abs(), extCall); }
        if connRaw.Some? { DestroyAlone(conn, connCall.t, connCall.r); } else { NothingToDrop(conn.Abs(), connCall); }
        return false;
      }
      holders := holders[h := Holder(if extRaw.Some? then Some(extCall.r) else None,
                                     if connRaw.Some? then Some(connCall.r) else None)];
      return true;
    }

    /** destructor: drops the registrations the Holder owns, then the Holder. */
    method Destroy(h: nat, tExt: Tid, tConn: Tid)
      requires Valid() && h in holders && tExt < |ext.pcs| && tConn < |conn.pcs|
      requires holders[h].ext.Some? ==> holders[h].ext.value in ext.held
      requires holders[h].conn.Some? ==> holders[h].conn.value in conn.held
      modifies this, ext, conn
      ensures Inv(ext.Abs()) && Inv(conn.Abs()) && holders == old(holders) - {h}
      ensures ext.Abs() == DropHeld(old(ext.Abs()), tExt, old(holders)[h].ext)
      ensures conn.Abs() == DropHeld(old(conn.Abs()), tConn, old(holders)[h].conn)
    {
      hide Inv, DropAlone;
      var holder := holders[h];
      if holder.ext.Some? { DestroyAlone(ext, tExt, holder.ext.value); }
      if holder.conn.Some? { DestroyAlone(conn, tConn, holder.conn.value); }
      holders := holders - {h};
    }
  }

  function DropHeld(s: State, t: Tid, r: Option<Rid>): State {
    if r.Some? then DropAlone(s, t, r.value) else s
  }

  /** A successful hybrid init followed by the destructor of its Holder leaves both registries as before. */
  method InitThenDestroy(hybrid: Hybrid, db: Db, extCall: Call, connCall: Call, h: nat)
    requires hybrid.Valid() && h !in hybrid.holders && db.Open?
    requires extCall.t < |hybrid.ext.pcs| && extCall.r !in hybrid.ext.held
    requires connCall.t < |hybrid.conn.pcs| && connCall.r !in hybrid.conn.held
    modifies hybrid, hybrid.ext, hybrid.conn
    ensures hybrid.holders == old(hybrid.holders)
    ensures Restored(old(hybrid.ext.Abs()), hybrid.ext.Abs())
    ensures Restored(old(hybrid.conn.Abs()), hybrid.conn.Abs())
  {
    hide Inv, DropAlone, ConnInitAlone, Restored;
    SharedRoundTrip(hybrid.ext.Abs(), extCall, db.path);
    ConnRoundTrip(hybrid.conn.Abs(), connCall, db.conn);
    ConnInitOutcome(hybrid.conn.Abs(), connCall, db.conn);
    var ok := hybrid.Init(db, extCall, connCall, h, true);
    assert AtRest(hybrid.ext.Abs()) && AtRest(hybrid.conn.Abs());
    if extCall.r !in hybrid.ext.held { NothingToDrop(hybrid.ext.Abs(), extCall); }
    if connCall.r !in hybrid.conn.held { NothingToDrop(hybrid.conn.Abs(), connCall); }
    hybrid.Destroy(h, extCall.t, connCall.t);
  }
}
